/** The content store of the travel guide: the typed content items, the
    decoding of the bundled document, the city-then-"General" lookup done by
    `DynamicContentView.loadData`, and the comma-separated list body of
    `ListView` (NepalCompass/ContentView.swift). */
module Content {
  import opened Wrappers
  import Strings

  /** The seven kinds of content item. */
  datatype ContentType = Text | Image | Note | Recommendation | Table | Location | List

  /** The tag a kind is written as in the document (its Swift raw value). */
  function RawValue(t: ContentType): (tag: string)
    ensures tag != [] && forall i :: 0 <= i < |tag| ==> 'a' <= tag[i] <= 'z'
  {
    match t
    case Text => "text"
    case Image => "image"
    case Note => "note"
    case Recommendation => "recommendation"
    case Table => "table"
    case Location => "location"
    case List => "list"
  }

  /** `ContentType(rawValue:)`: a tag decodes exactly when it is the raw value
      of one of the seven kinds, and then to that kind. */
  function ParseContentType(tag: string): (r: Option<ContentType>)
    ensures forall t :: r == Some(t) <==> tag == RawValue(t)
  {
    match tag
    case "text" => Some(Text)
    case "image" => Some(Image)
    case "note" => Some(Note)
    case "recommendation" => Some(Recommendation)
    case "table" => Some(Table)
    case "location" => Some(Location)
    case "list" => Some(List)
    case _ => None
  }

  /** One `{type, content}` object of the document, before its tag is checked. */
  datatype RawItem = RawItem(tag: string, content: string)

  /** The `menuItems` object of the document: menu item, then city, then the
      items, with tags not yet checked. */
  type RawDocument = map<string, map<string, seq<RawItem>>>

  /** A decoded content item. Its per-decode UUID is not modelled. */
  datatype ContentItem = ContentItem(kind: ContentType, content: string)

  /** `ContentData.menuItems` once decoded. */
  type Document = map<string, map<string, seq<ContentItem>>>

  /** What loading the bundled file yields before the tags are checked:
      no `contentData.json` in the bundle, a read or JSON syntax/shape failure,
      or the raw nested object. */
  datatype ContentFile = NotFound | Unreadable | Json(menuItems: RawDocument)

  /** The bucket tried when the selected city has none. */
  const General: string := "General"

  function Encode(item: ContentItem): RawItem
  {
    RawItem(RawValue(item.kind), item.content)
  }

  function EncodeItems(items: seq<ContentItem>): (raw: seq<RawItem>)
    ensures |raw| == |items|
    ensures forall i :: 0 <= i < |items| ==> raw[i] == Encode(items[i])
  {
    seq(|items|, i requires 0 <= i < |items| => Encode(items[i]))
  }

  /** Decoding an array of items: it succeeds exactly when every tag is one of
      the seven, and then gives back, in order, the items the raw objects
      encode. */
  function DecodeItems(raw: seq<RawItem>): (r: Option<seq<ContentItem>>)
    ensures r.Some? <==> forall i :: 0 <= i < |raw| ==> ParseContentType(raw[i].tag).Some?
    ensures r.Some? ==> EncodeItems(r.value) == raw
  {
    if raw == [] then Some([])
    else
      TaggedCons(raw);
      match (ParseContentType(raw[0].tag), DecodeItems(raw[1..]))
      case (Some(t), Some(rest)) =>
        EncodeCons(ContentItem(t, raw[0].content), rest);
        assert [raw[0]] + raw[1..] == raw;
        Some([ContentItem(t, raw[0].content)] + rest)
      case _ => None
  }

  /** All tags of a non-empty array are valid exactly when the first one and
      all tags of the rest are. */
  lemma TaggedCons(raw: seq<RawItem>)
    requires raw != []
    ensures (forall i :: 0 <= i < |raw| ==> ParseContentType(raw[i].tag).Some?)
        <==> ParseContentType(raw[0].tag).Some? && forall i :: 0 <= i < |raw[1..]| ==> ParseContentType(raw[1..][i].tag).Some?
  {
    assert forall i :: 0 <= i < |raw[1..]| ==> raw[1..][i] == raw[i + 1];
  }

  lemma EncodeCons(item: ContentItem, rest: seq<ContentItem>)
    ensures EncodeItems([item] + rest) == [Encode(item)] + EncodeItems(rest)
  {
    var items := [item] + rest;
    assert forall i :: 0 < i < |items| ==> items[i] == rest[i - 1];
  }

  /** Every item of every bucket carries one of the seven tags. */
  predicate WellTagged(raw: RawDocument)
  {
    forall m, c :: m in raw && c in raw[m] ==> DecodeItems(raw[m][c]).Some?
  }

  function EncodeDocument(doc: Document): RawDocument
  {
    map m | m in doc :: map c | c in doc[m] :: EncodeItems(doc[m][c])
  }

  /** `JSONDecoder().decode(ContentData.self, ...)` on the raw object: one bad
      tag anywhere makes the whole decode throw; otherwise the result has the
      same menu items, cities and items, in the same order. */
  function DecodeDocument(raw: RawDocument): (r: Option<Document>)
    ensures r.Some? <==> WellTagged(raw)
    ensures r.Some? ==> EncodeDocument(r.value) == raw
  {
    if WellTagged(raw) then
      var doc := map m | m in raw :: map c | c in raw[m] :: DecodeItems(raw[m][c]).value;
      assert forall m | m in raw :: EncodeDocument(doc)[m] == raw[m];
      Some(doc)
    else None
  }

  /** The lookup of `loadData`: the selected city's bucket of the menu item,
      or failing that its "General" bucket; `None` when the menu item is
      missing or has neither. */
  function Resolve(doc: Document, menuItem: string, city: string): (r: Option<seq<ContentItem>>)
    ensures r.Some? ==> menuItem in doc && exists k :: k in doc[menuItem] && r.value == doc[menuItem][k]
  {
    if menuItem !in doc then None
    else if city in doc[menuItem] then Some(doc[menuItem][city])
    else if General in doc[menuItem] then Some(doc[menuItem][General])
    else None
  }

  /** The first key of `keys` that `m` has, if any. */
  function FirstPresent<V>(m: map<string, V>, keys: seq<string>): Option<V>
  {
    if keys == [] then None
    else if keys[0] in m then Some(m[keys[0]])
    else FirstPresent(m, keys[1..])
  }

  /** What one `loadData` call decides: the bucket to show, or `None` when
      `contentData` is to be left as it is. */
  function Load(file: ContentFile, menuItem: string, city: string): (r: Option<seq<ContentItem>>)
    ensures !file.Json? ==> r == None
    ensures file.Json? && !WellTagged(file.menuItems) ==> r == None
    ensures file.Json? && WellTagged(file.menuItems) ==> r == Resolve(DecodeDocument(file.menuItems).value, menuItem, city)
    ensures r.Some? ==>
      && file.Json? && menuItem in file.menuItems
      && exists k :: k in file.menuItems[menuItem] && EncodeItems(r.value) == file.menuItems[menuItem][k]
  {
    match file
    case NotFound => None
    case Unreadable => None
    case Json(raw) =>
      match DecodeDocument(raw)
      case None => None
      case Some(doc) => Resolve(doc, menuItem, city)
  }

  /** `DynamicContentView` with its `@State contentData`. */
  class DynamicContentView {
    var contentData: seq<ContentItem>

    constructor ()
      ensures contentData == []
    {
      contentData := [];
    }

    /** `loadData(for:menuItem:)`. Every miss and every failure only emits a
        diagnostic, and so leaves `contentData` as it was. */
    method LoadData(city: string, menuItem: string, file: ContentFile)
      modifies this
      ensures contentData == Load(file, menuItem, city).GetOr(old(contentData))
    {
      if !file.Json? {
        return;
      }
      var json := DecodeDocument(file.menuItems);
      if json.None? {
        return;
      }
      var menuItems := json.value;
      if menuItem in menuItems {
        var menuContent := menuItems[menuItem];
        if city in menuContent {
          contentData := menuContent[city];
        } else if General in menuContent {
          contentData := menuContent[General];
        }
      }
    }
  }

  /** `listItems.split(separator: ",").map { trimmed }`. */
  function ListItems(listItems: string): (items: seq<string>)
    ensures forall i :: 0 <= i < |items| ==> ',' !in items[i]
    ensures forall i :: 0 <= i < |items| ==>
      items[i] == [] || (!Strings.IsWhitespace(items[i][0]) && !Strings.IsWhitespace(items[i][|items[i]| - 1]))
  {
    Strings.SplitTrimmed(listItems, ',')
  }

  // ---------------------------------------------------------------- lemmas

  /** Decoding gives back exactly the items that were encoded. */
  lemma {:induction false} DecodeEncodeItems(items: seq<ContentItem>)
    ensures DecodeItems(EncodeItems(items)) == Some(items)
  {
    if items != [] {
      var raw := EncodeItems(items);
      assert raw[1..] == EncodeItems(items[1..]);
      DecodeEncodeItems(items[1..]);
      assert ParseContentType(RawValue(items[0].kind)) == Some(items[0].kind);
      assert items == [items[0]] + items[1..];
    }
  }

  /** A tag outside the seven makes the load fail and leaves the shown
      content alone, wherever in the document the item sits and whatever is
      selected. */
  lemma BadTagLeavesContent(raw: RawDocument, m: string, c: string, i: nat, menuItem: string, city: string)
    requires m in raw && c in raw[m] && i < |raw[m][c]|
    requires ParseContentType(raw[m][c][i].tag) == None
    ensures DecodeDocument(raw) == None
    ensures Load(Json(raw), menuItem, city) == None
  {
  }

  /** City-specific content is shown when the menu item has it, in its
      original order. */
  lemma ResolveCity(doc: Document, menuItem: string, city: string)
    requires menuItem in doc && city in doc[menuItem]
    ensures Resolve(doc, menuItem, city) == Some(doc[menuItem][city])
  {
  }

  /** Without a bucket for the city, the "General" bucket is shown, exactly as
      if "General" had been selected. */
  lemma ResolveGeneralFallback(doc: Document, menuItem: string, city: string)
    requires menuItem in doc && city !in doc[menuItem] && General in doc[menuItem]
    ensures Resolve(doc, menuItem, city) == Some(doc[menuItem][General])
    ensures Resolve(doc, menuItem, city) == Resolve(doc, menuItem, General)
  {
  }

  /** A city bucket wins over "General" even when both exist (a corollary
      of `ResolveCity`). */
  lemma ResolveCityWins(doc: Document, menuItem: string, city: string)
    requires menuItem in doc && city in doc[menuItem] && General in doc[menuItem]
    requires doc[menuItem][city] != doc[menuItem][General]
    ensures Resolve(doc, menuItem, city) != Some(doc[menuItem][General])
  {
  }

  /** A menu item with neither bucket, or a missing menu item, yields nothing,
      whatever the city. */
  lemma ResolveMisses(doc: Document, menuItem: string, city: string)
    requires menuItem !in doc || (city !in doc[menuItem] && General !in doc[menuItem])
    ensures Resolve(doc, menuItem, city) == None
  {
  }

  /** The lookup is the fallback chain [city, "General"] inside the menu item. */
  lemma ResolveIsFallbackChain(doc: Document, menuItem: string, city: string)
    requires menuItem in doc
    ensures Resolve(doc, menuItem, city) == FirstPresent(doc[menuItem], [city, General])
  {
    var m := doc[menuItem];
    assert [city, General][1..] == [General];
    assert [General][1..] == [];
    assert FirstPresent(m, [General]) == if General in m then Some(m[General]) else None;
  }

  /** The load shows a bucket exactly when the file is a well-tagged
      document in which the lookup finds one, and then it shows that one. */
  lemma LoadShowsResolved(file: ContentFile, menuItem: string, city: string)
    ensures Load(file, menuItem, city).Some? <==>
      file.Json? && WellTagged(file.menuItems) && Resolve(DecodeDocument(file.menuItems).value, menuItem, city).Some?
    ensures Load(file, menuItem, city).Some? ==>
      Load(file, menuItem, city) == Resolve(DecodeDocument(file.menuItems).value, menuItem, city)
  {
  }

  /** A well-tagged file whose menu item has the city shows the decoded city
      bucket. */
  lemma LoadCityBucket(raw: RawDocument, menuItem: string, city: string)
    requires WellTagged(raw) && menuItem in raw && city in raw[menuItem]
    ensures Load(Json(raw), menuItem, city) == DecodeItems(raw[menuItem][city])
    ensures Load(Json(raw), menuItem, city).Some?
  {
  }

  /** A well-tagged file whose menu item lacks the city but has "General"
      shows the decoded General bucket. */
  lemma LoadGeneralBucket(raw: RawDocument, menuItem: string, city: string)
    requires WellTagged(raw) && menuItem in raw && city !in raw[menuItem] && General in raw[menuItem]
    ensures Load(Json(raw), menuItem, city) == DecodeItems(raw[menuItem][General])
    ensures Load(Json(raw), menuItem, city).Some?
  {
  }

  /** Commas at either end, and doubled commas, add no entry to a list. */
  lemma ListIgnoresExtraCommas(s: string, t: string)
    ensures ListItems([','] + s) == ListItems(s)
    ensures ListItems(s + [',']) == ListItems(s)
    ensures ListItems(s + [',', ','] + t) == ListItems(s + [','] + t)
  {
    Strings.LeadingSeparator(s, ',');
    assert ListItems([','] + s) == Strings.TrimAll(Strings.Split(s, ','));
    Strings.TrailingSeparator(s, ',');
    assert ListItems(s + [',']) == Strings.TrimAll(Strings.Split(s, ','));
    Strings.DoubledSeparator(s, t, ',');
    assert ListItems(s + [',', ','] + t) == Strings.TrimAll(Strings.Split(s + [','] + t, ','));
  }

  /** Entries written between commas come back trimmed, one each, in order. */
  lemma ListOfJoinedEntries(entries: seq<string>)
    requires Strings.WellFormedPieces(entries, ',')
    ensures ListItems(Strings.Join(entries, ',')) == Strings.TrimAll(entries)
  {
    Strings.SplitJoin(entries, ',');
  }

  /** A list entry with no comma and no whitespace at either end. */
  predicate Bare(w: string)
  {
    w != [] && ',' !in w && !Strings.IsWhitespace(w[0]) && !Strings.IsWhitespace(w[|w| - 1])
  }

  /** Entries written as "a, b ,c" list a, b and c: the spaces around each
      entry are dropped and the entries keep their order. */
  lemma ListExample(a: string, b: string, c: string)
    requires Bare(a) && Bare(b) && Bare(c)
    ensures ListItems(a + ", " + b + " ," + c) == [a, b, c]
  {
    Strings.TrimUntrimmed(a);
    SpacedEntry(b);
    Strings.TrimUntrimmed(c);
    ThreeWellFormed(a, " " + b + " ", c);
    ListOfThree(a, " " + b + " ", c, a, b, c);
    CommaSpacing(a, b, c);
  }

  /** "a, b ,c" is a, then " b ", then c, joined by commas. */
  lemma CommaSpacing(a: string, b: string, c: string)
    ensures a + [','] + (" " + b + " ") + [','] + c == a + ", " + b + " ," + c
  {
  }

  lemma SpacedEntry(b: string)
    requires Bare(b)
    ensures " " + b + " " != [] && ',' !in " " + b + " "
    ensures Strings.Trim(" " + b + " ") == b
  {
    SpacedShape(" ", b);
    SpacedTrim(" ", b);
  }

  lemma SpacedShape(space: string, b: string)
    requires space == " " && Bare(b)
    ensures space + b + space != [] && ',' !in space + b + space
  {
    assert |space + b + space| > 0;
  }

  lemma SpacedTrim(space: string, b: string)
    requires Strings.AllWhitespace(space) && Bare(b)
    ensures Strings.Trim(space + b + space) == b
  {
    Strings.TrimPadded(space, b, space);
  }

  lemma ThreeWellFormed(x: string, y: string, z: string)
    requires x != [] && ',' !in x && y != [] && ',' !in y && z != [] && ',' !in z
    ensures Strings.WellFormedPieces([x, y, z], ',')
  {
    var pieces := [x, y, z];
    assert pieces[0] == x && pieces[1] == y && pieces[2] == z;
  }

  lemma ListOfThree(a: string, b: string, c: string, ta: string, tb: string, tc: string)
    requires Strings.WellFormedPieces([a, b, c], ',')
    requires Strings.Trim(a) == ta && Strings.Trim(b) == tb && Strings.Trim(c) == tc
    ensures ListItems(a + [','] + b + [','] + c) == [ta, tb, tc]
  {
    var entries := [a, b, c];
    JoinThree(a, b, c, ',');
    ListOfJoinedEntries(entries);
    TrimThree(a, b, c, ta, tb, tc);
  }

  lemma TrimThree(a: string, b: string, c: string, ta: string, tb: string, tc: string)
    requires Strings.Trim(a) == ta && Strings.Trim(b) == tb && Strings.Trim(c) == tc
    ensures Strings.TrimAll([a, b, c]) == [ta, tb, tc]
  {
    var entries := [a, b, c];
    var trimmed := [ta, tb, tc];
    forall i | 0 <= i < 3 ensures Strings.Trim(entries[i]) == trimmed[i] {
      if i == 0 { assert entries[i] == a; }
      else if i == 1 { assert entries[i] == b; }
      else { assert entries[i] == c; }
    }
    TrimAllOf(entries, trimmed);
  }

  lemma TrimAllOf(pieces: seq<string>, trimmed: seq<string>)
    requires |pieces| == |trimmed|
    requires forall i :: 0 <= i < |pieces| ==> Strings.Trim(pieces[i]) == trimmed[i]
    ensures Strings.TrimAll(pieces) == trimmed
  {
  }

  lemma JoinThree(a: string, b: string, c: string, sep: char)
    ensures Strings.Join([a, b, c], sep) == a + [sep] + b + [sep] + c
  {
    assert [a, b, c][1..] == [b, c];
    assert [b, c][1..] == [c];
    assert Strings.Join([c], sep) == c;
    assert Strings.Join([b, c], sep) == b + [sep] + c;
  }
}
