/** The settings screen (NepalCompass/SettingsView.swift): the stored theme
    and colours, the pending colours the palette buttons change, and the
    copies between the two done by `updateColorsFromStorage`, `applyChanges`
    and `applyPalette`. */
module Settings {
  import opened Wrappers
  import Theme
  import opened HexColor

  /** One hex string for each of the four colour roles. */
  datatype Hexes = Hexes(recommendation: string, notes: string, accent: string, table: string)

  /** One colour for each of the four colour roles. */
  datatype Colors = Colors(recommendation: Color, notes: Color, accent: Color, table: Color)

  /** The hex strings used when nothing else is known: the defaults of the
      stored values, the initial pending values, and the fallbacks of
      `applyPalette` for a colour with no hex form. */
  const DefaultHexes: Hexes := Hexes("#0000FF", "#FF0000", "#FFC0CB", "#800080")

  /** The theme preference used when none is stored. */
  const DefaultTheme: string := "System"

  predicate InRange(c: Color)
  {
    c.alpha < 256 && c.red < 256 && c.green < 256 && c.blue < 256
  }

  predicate AllInRange(c: Colors)
  {
    InRange(c.recommendation) && InRange(c.notes) && InRange(c.accent) && InRange(c.table)
  }

  /** `Color(hex:)` applied to each role. */
  function Decode(h: Hexes): (c: Colors)
    ensures AllInRange(c)
    ensures h == DefaultHexes ==>
      c == Colors(Color(255, 0, 0, 255), Color(255, 255, 0, 0), Color(255, 255, 192, 203), Color(255, 128, 0, 128))
  {
    DefaultsDecode();
    Colors(FromHex(h.recommendation), FromHex(h.notes), FromHex(h.accent), FromHex(h.table))
  }

  /** Two colours look the same once alpha is set aside. */
  predicate SameRgb(x: Color, y: Color)
  {
    x.red == y.red && x.green == y.green && x.blue == y.blue
  }

  /** The hex strings describe the colours shown, role by role, up to alpha. */
  predicate Describes(h: Hexes, c: Colors)
  {
    var d := Decode(h);
    SameRgb(d.recommendation, c.recommendation) && SameRgb(d.notes, c.notes)
    && SameRgb(d.accent, c.accent) && SameRgb(d.table, c.table)
  }

  /** The hex string `applyPalette` stores for a colour: its `toHex()`, or
      the role's default when there is none. */
  function HexOf(c: Color, default: string): (h: string)
    ensures InRange(c) ==> SameRgb(FromHex(h), c) && FromHex(h).alpha == 255
  {
    ToHex(c).GetOr(default)
  }

  /** The pending hex strings of a palette of four colours. */
  function PaletteHexes(colorSet: seq<Color>): (h: Hexes)
    requires |colorSet| >= 4
    ensures AllInRange(Colors(colorSet[0], colorSet[1], colorSet[2], colorSet[3])) ==>
      Describes(h, Colors(colorSet[0], colorSet[1], colorSet[2], colorSet[3]))
  {
    Hexes(HexOf(colorSet[0], DefaultHexes.recommendation), HexOf(colorSet[1], DefaultHexes.notes),
          HexOf(colorSet[2], DefaultHexes.accent), HexOf(colorSet[3], DefaultHexes.table))
  }

  /** The hex strings of a palette describe its colours. */
  lemma PaletteDescribed(colorSet: seq<Color>)
    requires |colorSet| >= 4
    requires InRange(colorSet[0]) && InRange(colorSet[1]) && InRange(colorSet[2]) && InRange(colorSet[3])
    ensures AllInRange(Colors(colorSet[0], colorSet[1], colorSet[2], colorSet[3]))
    ensures Describes(PaletteHexes(colorSet), Colors(colorSet[0], colorSet[1], colorSet[2], colorSet[3]))
  {
  }

  /** A colour built from its hex string describes itself. */
  lemma DecodeDescribes(h: Hexes)
    ensures Describes(h, Decode(h))
  {
  }

  /** `toHex()` never fails, so the fallbacks of `applyPalette` are never
      used. */
  lemma PaletteFallbacksUnused(colorSet: seq<Color>)
    requires |colorSet| >= 4
    ensures PaletteHexes(colorSet) == Hexes(ToHex(colorSet[0]).value, ToHex(colorSet[1]).value,
                                            ToHex(colorSet[2]).value, ToHex(colorSet[3]).value)
  {
  }

  /** The state of `SettingsView` together with the palette selection of
      its `ColorPaletteView`. */
  class SettingsScreen {
    /** `@AppStorage("selectedTheme")`. */
    var selectedTheme: string
    /** The four `@AppStorage` hex strings. */
    var saved: Hexes
    /** The four `@State` hex strings the palette buttons set. */
    var pending: Hexes
    /** The four `@State` colours the preview shows. */
    var colors: Colors
    /** The palette last tapped, highlighted on screen. */
    var selectedPaletteIndex: Option<int>

    /** The pending hex strings describe the colours on screen, and every
        colour has 8-bit channels. */
    ghost predicate Valid()
      reads this
    {
      AllInRange(colors) && Describes(pending, colors)
    }

    /** The screen as it is created, before it appears: stored values where
        there are any, defaults otherwise; `initial` stands for the system
        colours blue, red, pink and purple the colour fields start with. */
    constructor(storedTheme: Option<string>, storedHexes: StoredHexes, initial: Colors)
      ensures selectedTheme == storedTheme.GetOr(DefaultTheme)
      ensures saved == Hexes(storedHexes.recommendation.GetOr(DefaultHexes.recommendation),
                             storedHexes.notes.GetOr(DefaultHexes.notes),
                             storedHexes.accent.GetOr(DefaultHexes.accent),
                             storedHexes.table.GetOr(DefaultHexes.table))
      ensures pending == DefaultHexes
      ensures colors == initial
      ensures selectedPaletteIndex == None
    {
      selectedTheme := storedTheme.GetOr(DefaultTheme);
      saved := Hexes(storedHexes.recommendation.GetOr(DefaultHexes.recommendation),
                     storedHexes.notes.GetOr(DefaultHexes.notes),
                     storedHexes.accent.GetOr(DefaultHexes.accent),
                     storedHexes.table.GetOr(DefaultHexes.table));
      pending := DefaultHexes;
      colors := initial;
      selectedPaletteIndex := None;
    }

    /** `getColorScheme()`: light or dark when the stored preference names
        one, the system's otherwise. */
    function ColorScheme(): (scheme: Option<Theme.ColorScheme>)
      reads this
      ensures scheme == Some(Theme.Light) <==> selectedTheme == "Light"
      ensures scheme == Some(Theme.Dark) <==> selectedTheme == "Dark"
      ensures scheme.None? <==> selectedTheme != "Light" && selectedTheme != "Dark"
    {
      Theme.ColorSchemeFor(selectedTheme)
    }

    /** A button of the theme selector. */
    method SelectTheme(theme: string)
      modifies this
      requires Valid()
      ensures Valid()
      ensures selectedTheme == theme
      ensures saved == old(saved) && pending == old(pending) && colors == old(colors)
      ensures selectedPaletteIndex == old(selectedPaletteIndex)
    {
      selectedTheme := theme;
    }

    /** `updateColorsFromStorage()`, run when the screen appears: the pending
        hex strings become the stored ones and the colours are decoded from
        them; afterwards the screen is valid whatever it was before. */
    method UpdateColorsFromStorage()
      modifies this
      ensures pending == old(saved)
      ensures colors == Decode(old(saved))
      ensures Valid()
      ensures saved == old(saved) && selectedTheme == old(selectedTheme)
      ensures selectedPaletteIndex == old(selectedPaletteIndex)
    {
      pending := pending.(recommendation := saved.recommendation);
      pending := pending.(notes := saved.notes);
      pending := pending.(accent := saved.accent);
      pending := pending.(table := saved.table);

      colors := colors.(recommendation := FromHex(pending.recommendation));
      colors := colors.(notes := FromHex(pending.notes));
      colors := colors.(accent := FromHex(pending.accent));
      colors := colors.(table := FromHex(pending.table));
      DecodeDescribes(pending);
    }

    /** `applyChanges()`: the stored hex strings become the pending ones;
        nothing on screen changes. */
    method ApplyChanges()
      modifies this
      requires Valid()
      ensures Valid()
      ensures saved == old(pending)
      ensures pending == old(pending) && colors == old(colors)
      ensures selectedTheme == old(selectedTheme) && selectedPaletteIndex == old(selectedPaletteIndex)
      ensures Describes(saved, colors)
    {
      saved := saved.(recommendation := pending.recommendation);
      saved := saved.(notes := pending.notes);
      saved := saved.(accent := pending.accent);
      saved := saved.(table := pending.table);
    }

    /** `applyPalette(colorSet, index:)`: the four colours of the palette go
        to the four roles in order, their hex strings to the pending values,
        and the palette becomes the highlighted one; afterwards the screen is
        valid whatever it was before. */
    method ApplyPalette(colorSet: seq<Color>, index: int)
      modifies this
      requires |colorSet| >= 4
      requires InRange(colorSet[0]) && InRange(colorSet[1]) && InRange(colorSet[2]) && InRange(colorSet[3])
      ensures Valid()
      ensures colors == Colors(colorSet[0], colorSet[1], colorSet[2], colorSet[3])
      ensures pending == PaletteHexes(colorSet)
      ensures selectedPaletteIndex == Some(index)
      ensures forall j :: Highlighted(j) <==> j == index
      ensures saved == old(saved) && selectedTheme == old(selectedTheme)
    {
      colors := colors.(recommendation := colorSet[0]);
      colors := colors.(notes := colorSet[1]);
      colors := colors.(accent := colorSet[2]);
      colors := colors.(table := colorSet[3]);

      pending := pending.(recommendation := HexOf(colors.recommendation, DefaultHexes.recommendation));
      pending := pending.(notes := HexOf(colors.notes, DefaultHexes.notes));
      pending := pending.(accent := HexOf(colors.accent, DefaultHexes.accent));
      pending := pending.(table := HexOf(colors.table, DefaultHexes.table));
      assert colors == Colors(colorSet[0], colorSet[1], colorSet[2], colorSet[3]);
      assert pending == PaletteHexes(colorSet);
      PaletteDescribed(colorSet);

      selectedPaletteIndex := Some(index);
    }

    /** Whether palette `index` is drawn with the highlighted border. */
    predicate Highlighted(index: int)
      reads this
    {
      selectedPaletteIndex == Some(index)
    }
  }

  /** What `@AppStorage` holds for each colour key, if anything. */
  datatype StoredHexes = StoredHexes(recommendation: Option<string>, notes: Option<string>, accent: Option<string>, table: Option<string>)
}
