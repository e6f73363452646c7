/** The parts of Swift's string API that the core relies on, stated on
    `seq<char>`: `split(separator:)` with its default of omitting empty
    pieces, `trimmingCharacters(in: .whitespaces)`, and
    `replacingOccurrences(of:with:)` with a one-character pattern and an empty
    replacement. */
module Strings {

  /** Membership in Foundation's `CharacterSet.whitespaces`: the Unicode
      space separators (general category Zs) and CHARACTER TABULATION. */
  predicate IsWhitespace(c: char)
  {
    || c == '\t' || c == ' ' || c == '\U{00A0}' || c == '\U{1680}'
    || ('\U{2000}' <= c <= '\U{200A}')
    || c == '\U{202F}' || c == '\U{205F}' || c == '\U{3000}'
  }

  predicate AllWhitespace(s: string)
  {
    forall i :: 0 <= i < |s| ==> IsWhitespace(s[i])
  }

  /** Index of the first `sep` in `s`, or `|s|` when `s` has none. */
  function IndexOf(s: string, sep: char): (n: nat)
    ensures n <= |s|
    ensures sep !in s[..n]
    ensures n < |s| ==> s[n] == sep
  {
    if s == [] || s[0] == sep then 0
    else
      var n := 1 + IndexOf(s[1..], sep);
      assert s[..n] == [s[0]] + s[1..][..n - 1];
      n
  }

  /** `s.split(separator: sep)`: the maximal runs of characters other than
      `sep`, in order, with empty runs omitted. */
  function Split(s: string, sep: char): (pieces: seq<string>)
    ensures forall i :: 0 <= i < |pieces| ==> pieces[i] != [] && sep !in pieces[i]
    decreases |s|
  {
    if s == [] then []
    else if s[0] == sep then Split(s[1..], sep)
    else
      var n := IndexOf(s, sep);
      [s[..n]] + Split(s[n..], sep)
  }

  /** The pieces, with one `sep` between each two neighbours. */
  function Join(pieces: seq<string>, sep: char): string
  {
    if pieces == [] then []
    else if |pieces| == 1 then pieces[0]
    else pieces[0] + [sep] + Join(pieces[1..], sep)
  }

  /** Pieces that `Split` can produce: non-empty and free of `sep`. */
  predicate WellFormedPieces(pieces: seq<string>, sep: char)
  {
    forall i :: 0 <= i < |pieces| ==> pieces[i] != [] && sep !in pieces[i]
  }

  /** All the strings one after another. */
  function Concat(ss: seq<string>): string
  {
    if ss == [] then [] else ss[0] + Concat(ss[1..])
  }

  /** `s.replacingOccurrences(of: String(c), with: "")`: `s` with every `c`
      removed. */
  function Without(s: string, c: char): (r: string)
    ensures c !in r
    ensures |r| <= |s|
  {
    if s == [] then []
    else (if s[0] == c then [] else [s[0]]) + Without(s[1..], c)
  }

  /** `s.trimmingCharacters(in: .whitespaces)` at the front only. */
  function TrimStart(s: string): (r: string)
    ensures |r| <= |s| && r == s[|s| - |r|..]
    ensures AllWhitespace(s[..|s| - |r|])
    ensures r == [] || !IsWhitespace(r[0])
  {
    if s != [] && IsWhitespace(s[0]) then
      var r := TrimStart(s[1..]);
      DropWhitespace(s, r);
      r
    else s
  }

  /** Putting a whitespace character back in front of a trimmed-away prefix
      keeps that prefix whitespace. */
  lemma DropWhitespace(s: string, r: string)
    requires s != [] && IsWhitespace(s[0])
    requires |r| <= |s| - 1 && r == s[1..][|s| - 1 - |r|..]
    requires AllWhitespace(s[1..][..|s| - 1 - |r|])
    ensures r == s[|s| - |r|..]
    ensures AllWhitespace(s[..|s| - |r|])
  {
    var k := |s| - |r|;
    assert forall i :: 1 <= i < k ==> s[i] == s[1..][..k - 1][i - 1];
  }

  /** `s.trimmingCharacters(in: .whitespaces)` at the back only. */
  function TrimEnd(s: string): (r: string)
    ensures |r| <= |s| && r == s[..|r|]
    ensures AllWhitespace(s[|r|..])
    ensures r == [] || !IsWhitespace(r[|r| - 1])
  {
    if s != [] && IsWhitespace(s[|s| - 1]) then TrimEnd(s[..|s| - 1]) else s
  }

  /** `s.trimmingCharacters(in: .whitespaces)`: the middle of `s` that is left
      once the whitespace at both ends is cut away. */
  function Trim(s: string): (r: string)
    ensures r == [] || (!IsWhitespace(r[0]) && !IsWhitespace(r[|r| - 1]))
  {
    TrimEnd(TrimStart(s))
  }

  /** `pieces.map { $0.trimmingCharacters(in: .whitespaces) }`. */
  function TrimAll(pieces: seq<string>): (r: seq<string>)
    ensures |r| == |pieces|
    ensures forall i :: 0 <= i < |pieces| ==> r[i] == Trim(pieces[i])
  {
    seq(|pieces|, i requires 0 <= i < |pieces| => Trim(pieces[i]))
  }

  /** `s.split(separator: sep).map { $0.trimmingCharacters(in: .whitespaces) }`:
      the pieces between separators, each trimmed. */
  function SplitTrimmed(s: string, sep: char): (r: seq<string>)
    ensures forall i :: 0 <= i < |r| ==> sep !in r[i]
    ensures forall i :: 0 <= i < |r| ==> r[i] == [] || (!IsWhitespace(r[i][0]) && !IsWhitespace(r[i][|r[i]| - 1]))
  {
    var pieces := Split(s, sep);
    TrimAllKeepsCharacters(pieces, sep);
    TrimAll(pieces)
  }

  // ---------------------------------------------------------------- lemmas

  /** Splitting and trimming brings in no character that `s` lacks. */
  lemma SplitTrimmedKeepsOut(s: string, sep: char, c: char)
    ensures c !in s ==> forall i :: 0 <= i < |SplitTrimmed(s, sep)| ==> c !in SplitTrimmed(s, sep)[i]
  {
    if c !in s {
      SplitKeepsOut(s, sep, c);
      TrimAllKeepsCharacters(Split(s, sep), c);
    }
  }

  lemma {:induction false} IndexOfAppend(s: string, u: string, sep: char)
    ensures IndexOf(s + u, sep) == if IndexOf(s, sep) < |s| then IndexOf(s, sep) else |s| + IndexOf(u, sep)
  {
    if s == [] {
      assert s + u == u;
    } else if s[0] != sep {
      assert (s + u)[1..] == s[1..] + u;
      IndexOfAppend(s[1..], u, sep);
    }
  }

  /** Splitting distributes over one separator: what lies on either side of a
      `sep` is split independently. */
  lemma {:induction false} SplitAround(s: string, t: string, sep: char)
    ensures Split(s + [sep] + t, sep) == Split(s, sep) + Split(t, sep)
    decreases |s|
  {
    var st := s + [sep] + t;
    if s == [] {
      assert st == [sep] + t && st[1..] == t;
    } else if s[0] == sep {
      assert st[1..] == s[1..] + [sep] + t;
      SplitAround(s[1..], t, sep);
    } else {
      var n := IndexOf(s, sep);
      IndexOfAppend(s, [sep] + t, sep);
      assert st == s + ([sep] + t);
      if n < |s| {
        assert st[..n] == s[..n];
        assert st[n..] == s[n..] + [sep] + t;
        SplitAround(s[n..], t, sep);
      } else {
        assert st[..n] == s;
        assert st[n..] == [sep] + t;
        assert ([sep] + t)[1..] == t;
        assert s[..n] == s && s[n..] == [];
      }
    }
  }

  /** A separator at the front adds no piece. */
  lemma LeadingSeparator(s: string, sep: char)
    ensures Split([sep] + s, sep) == Split(s, sep)
  {
    SplitAround([], s, sep);
  }

  /** A separator at the back adds no piece. */
  lemma TrailingSeparator(s: string, sep: char)
    ensures Split(s + [sep], sep) == Split(s, sep)
  {
    SplitAround(s, [], sep);
    assert s + [sep] + [] == s + [sep];
  }

  /** Two separators in a row split like one. */
  lemma DoubledSeparator(s: string, t: string, sep: char)
    ensures Split(s + [sep, sep] + t, sep) == Split(s + [sep] + t, sep)
  {
    assert s + [sep, sep] + t == s + [sep] + ([sep] + t);
    SplitAround(s, [sep] + t, sep);
    LeadingSeparator(t, sep);
    SplitAround(s, t, sep);
  }

  lemma {:induction false} WithoutAppend(a: string, b: string, c: char)
    ensures Without(a + b, c) == Without(a, c) + Without(b, c)
  {
    if a == [] {
      assert a + b == b;
    } else {
      var head := if a[0] == c then [] else [a[0]];
      assert (a + b)[0] == a[0];
      assert (a + b)[1..] == a[1..] + b;
      calc {
        Without(a + b, c);
        head + Without(a[1..] + b, c);
        { WithoutAppend(a[1..], b, c); }
        head + (Without(a[1..], c) + Without(b, c));
        (head + Without(a[1..], c)) + Without(b, c);
      }
    }
  }

  lemma {:induction false} WithoutAbsent(s: string, c: char)
    requires c !in s
    ensures Without(s, c) == s
  {
    if s != [] {
      WithoutAbsent(s[1..], c);
    }
  }

  /** Splitting loses nothing but the separators and keeps the order: the
      pieces put back together are `s` with every `sep` removed. */
  lemma {:induction false} SplitKeepsContent(s: string, sep: char)
    ensures Concat(Split(s, sep)) == Without(s, sep)
    decreases |s|
  {
    if s == [] {
    } else if s[0] == sep {
      SplitKeepsContent(s[1..], sep);
    } else {
      var n := IndexOf(s, sep);
      var pieces := Split(s, sep);
      assert pieces == [s[..n]] + Split(s[n..], sep);
      assert pieces[1..] == Split(s[n..], sep);
      SplitKeepsContent(s[n..], sep);
      assert s == s[..n] + s[n..];
      WithoutAppend(s[..n], s[n..], sep);
      WithoutAbsent(s[..n], sep);
    }
  }

  /** `Split` undoes `Join` on well-formed pieces. */
  lemma {:induction false} SplitJoin(pieces: seq<string>, sep: char)
    requires WellFormedPieces(pieces, sep)
    ensures Split(Join(pieces, sep), sep) == pieces
  {
    if pieces == [] {
    } else if |pieces| == 1 {
      SplitWithoutSeparator(pieces[0], sep);
    } else {
      var rest := pieces[1..];
      assert WellFormedPieces(rest, sep) by {
        forall i | 0 <= i < |rest| ensures rest[i] != [] && sep !in rest[i] {
          assert rest[i] == pieces[i + 1];
        }
      }
      SplitJoin(rest, sep);
      SplitAround(pieces[0], Join(rest, sep), sep);
      SplitWithoutSeparator(pieces[0], sep);
      assert pieces == [pieces[0]] + rest;
    }
  }

  /** Joining keeps the first piece at the front. */
  lemma JoinStartsWithFirst(pieces: seq<string>, sep: char)
    requires pieces != []
    ensures |Join(pieces, sep)| >= |pieces[0]|
    ensures Join(pieces, sep)[..|pieces[0]|] == pieces[0]
  {
    if |pieces| > 1 {
      assert Join(pieces, sep) == pieces[0] + ([sep] + Join(pieces[1..], sep));
    }
  }

  /** A character other than the separator that `s` lacks is in no piece. */
  lemma {:induction false} SplitKeepsOut(s: string, sep: char, c: char)
    requires c !in s
    ensures forall i :: 0 <= i < |Split(s, sep)| ==> c !in Split(s, sep)[i]
    decreases |s|
  {
    if s == [] {
    } else if s[0] == sep {
      SplitKeepsOut(s[1..], sep, c);
    } else {
      var n := IndexOf(s, sep);
      assert c !in s[..n];
      SplitKeepsOut(s[n..], sep, c);
    }
  }

  /** A string made only of separators has no piece. */
  lemma {:induction false} SplitOfSeparators(s: string, sep: char)
    requires forall i :: 0 <= i < |s| ==> s[i] == sep
    ensures Split(s, sep) == []
    decreases |s|
  {
    if s != [] {
      SplitOfSeparators(s[1..], sep);
    }
  }

  /** A non-empty string without `sep` is one piece. */
  lemma SplitWithoutSeparator(s: string, sep: char)
    requires s != [] && sep !in s
    ensures Split(s, sep) == [s]
  {
    var n := IndexOf(s, sep);
    assert forall k :: 0 <= k < |s| ==> s[k] != sep;
    assert s[..n] == s && s[n..] == [];
  }

  /** What trimming keeps is a slice of `s`, and what it cuts away on either
      side is whitespace only. */
  lemma TrimSlice(s: string) returns (i: nat, j: nat)
    ensures i <= j <= |s| && Trim(s) == s[i..j]
    ensures AllWhitespace(s[..i]) && AllWhitespace(s[j..])
  {
    var t := TrimStart(s);
    var r := TrimEnd(t);
    i, j := |s| - |t|, |s| - |t| + |r|;
    assert s[i..j] == r;
    assert s[j..] == t[|r|..];
  }

  /** Trimming brings in no character that `s` lacks. */
  lemma TrimKeepsCharacters(s: string, c: char)
    requires c !in s
    ensures c !in Trim(s)
  {
    var i, j := TrimSlice(s);
    assert forall k :: 0 <= k < j - i ==> Trim(s)[k] == s[i + k];
  }

  /** Trimming every piece brings in no character the pieces lack. */
  lemma TrimAllKeepsCharacters(pieces: seq<string>, c: char)
    requires forall i :: 0 <= i < |pieces| ==> c !in pieces[i]
    ensures forall i :: 0 <= i < |pieces| ==> c !in TrimAll(pieces)[i]
  {
    forall i | 0 <= i < |pieces| ensures c !in TrimAll(pieces)[i] {
      TrimKeepsCharacters(pieces[i], c);
    }
  }

  /** A string made only of whitespace trims to the empty string. */
  lemma TrimAllWhitespace(s: string)
    requires AllWhitespace(s)
    ensures Trim(s) == []
  {
  }

  /** A string with no whitespace at either end is left as it is. */
  lemma TrimUntrimmed(s: string)
    requires s == [] || (!IsWhitespace(s[0]) && !IsWhitespace(s[|s| - 1]))
    ensures Trim(s) == s
  {
    assert TrimStart(s) == s;
  }

  lemma {:induction false} TrimStartPadded(before: string, s: string)
    requires AllWhitespace(before)
    requires s == [] || !IsWhitespace(s[0])
    ensures TrimStart(before + s) == s
  {
    if before == [] {
      assert before + s == s;
    } else {
      assert (before + s)[1..] == before[1..] + s;
      TrimStartPadded(before[1..], s);
    }
  }

  lemma {:induction false} TrimEndPadded(s: string, after: string)
    requires AllWhitespace(after)
    requires s == [] || !IsWhitespace(s[|s| - 1])
    ensures TrimEnd(s + after) == s
  {
    if after == [] {
      assert s + after == s;
    } else {
      var shorter := after[..|after| - 1];
      assert (s + after)[..|s + after| - 1] == s + shorter;
      TrimEndPadded(s, shorter);
    }
  }

  /** Whitespace around a middle that starts and ends with other characters
      is cut away, and nothing else. */
  lemma TrimPadded(before: string, s: string, after: string)
    requires AllWhitespace(before) && AllWhitespace(after)
    requires s == [] || (!IsWhitespace(s[0]) && !IsWhitespace(s[|s| - 1]))
    ensures Trim(before + s + after) == s
  {
    if s == [] {
      assert before + s + after == before + after;
      TrimStartPadded(before + after, []);
      assert before + after + [] == before + after;
    } else {
      assert before + s + after == before + (s + after);
      TrimStartPadded(before, s + after);
      TrimEndPadded(s, after);
    }
  }

  /** Trimming is idempotent. */
  lemma TrimIdempotent(s: string)
    ensures Trim(Trim(s)) == Trim(s)
  {
    var r := Trim(s);
    assert TrimStart(r) == r;
    assert TrimEnd(r) == r;
  }
}
