/** The table content item (NepalCompass/TableView.swift): the body is read
    as newline-separated lines whose first line holds the headers and whose
    other lines hold the rows, every line split on '|' into trimmed cells;
    tapping a cell opens an overlay with that cell's text. */
module Table {
  import opened Wrappers
  import Strings

  /** `content.split(separator: "\n")`: the non-empty lines, in order. */
  function Lines(content: string): (lines: seq<string>)
    ensures forall i :: 0 <= i < |lines| ==> lines[i] != [] && '\n' !in lines[i]
  {
    Strings.Split(content, '\n')
  }

  /** One line's cells: `line.split(separator: "|")`, each piece trimmed.
      The cells of a line have neither separator. */
  function Cells(line: string): (cells: seq<string>)
    ensures forall i :: 0 <= i < |cells| ==> '|' !in cells[i]
    ensures '\n' !in line ==> forall i :: 0 <= i < |cells| ==> '\n' !in cells[i]
  {
    Strings.SplitTrimmedKeepsOut(line, '|', '\n');
    Strings.SplitTrimmed(line, '|')
  }

  /** The `headers` property: the cells of the first line, none without one. */
  function Headers(content: string): (headers: seq<string>)
    ensures forall i :: 0 <= i < |headers| ==> '|' !in headers[i] && '\n' !in headers[i]
    ensures forall i :: 0 <= i < |headers| ==>
      headers[i] == [] || (!Strings.IsWhitespace(headers[i][0]) && !Strings.IsWhitespace(headers[i][|headers[i]| - 1]))
  {
    var rows := Lines(content);
    if rows == [] then []
    else Cells(rows[0])
  }

  /** The `data` property: the cells of every line after the first, one row
      per line, in order. */
  function Data(content: string): (data: seq<seq<string>>)
    ensures |data| == if Lines(content) == [] then 0 else |Lines(content)| - 1
    ensures forall i :: 0 <= i < |data| ==> data[i] == Cells(Lines(content)[i + 1])
  {
    var rows := Lines(content);
    if rows == [] then []
    else seq(|rows| - 1, i requires 0 <= i < |rows| - 1 => Cells(rows[i + 1]))
  }

  /** A table body written out from its raw cells: cells of a row joined by
      '|', rows joined by newlines. */
  function Render(rows: seq<seq<string>>): string
  {
    Strings.Join(seq(|rows|, i requires 0 <= i < |rows| => Strings.Join(rows[i], '|')), '\n')
  }

  /** Raw cells that a body can be written from and read back: every row has
      a cell, every cell has a character and neither separator. */
  predicate WellFormedRows(rows: seq<seq<string>>)
  {
    forall i :: 0 <= i < |rows| ==> WellFormedRow(rows[i])
  }

  predicate WellFormedRow(row: seq<string>)
  {
    row != [] && Strings.WellFormedPieces(row, '|') && forall k :: 0 <= k < |row| ==> '\n' !in row[k]
  }

  /** The tap and dismiss state of `TableView` over a fixed body. */
  class TableView {
    const content: string
    var selectedRow: Option<nat>
    var selectedCell: Option<nat>
    var showDetailView: bool

    /** A row and a cell are selected together, and only ever a cell that
        `data` has. */
    ghost predicate Valid()
      reads this
    {
      && (selectedRow.Some? <==> selectedCell.Some?)
      && (selectedRow.Some? ==>
            selectedRow.value < |Data(content)| && selectedCell.value < |Data(content)[selectedRow.value]|)
    }

    constructor (content: string)
      ensures this.content == content
      ensures selectedRow == None && selectedCell == None && !showDetailView
      ensures Valid()
    {
      this.content := content;
      selectedRow := None;
      selectedCell := None;
      showDetailView := false;
    }

    /** The tap handler of cell `cell` in row `row`; the view attaches one
        only to the indices of `data` and of that row. */
    method TapCell(row: nat, cell: nat)
      requires Valid()
      requires row < |Data(content)| && cell < |Data(content)[row]|
      modifies this
      ensures selectedRow == Some(row) && selectedCell == Some(cell) && showDetailView
      ensures Valid()
    {
      selectedRow := Some(row);
      selectedCell := Some(cell);
      showDetailView := true;
    }

    /** Tapping the dimmed background or the close button hides the overlay
        and keeps the selection. */
    method Dismiss()
      requires Valid()
      modifies this
      ensures !showDetailView
      ensures selectedRow == old(selectedRow) && selectedCell == old(selectedCell)
      ensures Valid()
    {
      showDetailView := false;
    }

    /** The text of the detail overlay, `data[selectedRow][selectedCell]`,
        present exactly while the overlay is up with a selection. */
    function DetailText(): (text: Option<string>)
      reads this
      requires Valid()
      ensures text.Some? <==> showDetailView && selectedRow.Some?
      ensures text.Some? ==> text.value in Data(content)[selectedRow.value]
      ensures text.Some? ==> text.value == Data(content)[selectedRow.value][selectedCell.value]
    {
      if showDetailView && selectedRow.Some? && selectedCell.Some? then
        Some(Data(content)[selectedRow.value][selectedCell.value])
      else None
    }
  }

  // ---------------------------------------------------------------- lemmas

  /** A body made only of newlines, the empty body among them, has no
      headers and no rows. */
  lemma EmptyTable(content: string)
    requires forall i :: 0 <= i < |content| ==> content[i] == '\n'
    ensures Headers(content) == [] && Data(content) == []
  {
    Strings.SplitOfSeparators(content, '\n');
  }

  /** Blank lines, at either end or between lines, produce no header and no
      row. */
  lemma BlankLinesIgnored(s: string, t: string)
    ensures Headers(['\n'] + s) == Headers(s) && Data(['\n'] + s) == Data(s)
    ensures Headers(s + ['\n']) == Headers(s) && Data(s + ['\n']) == Data(s)
    ensures Headers(s + ['\n', '\n'] + t) == Headers(s + ['\n'] + t)
    ensures Data(s + ['\n', '\n'] + t) == Data(s + ['\n'] + t)
  {
    Strings.LeadingSeparator(s, '\n');
    Strings.TrailingSeparator(s, '\n');
    Strings.DoubledSeparator(s, t, '\n');
  }

  /** A '|' at either end of a line, or a doubled '|', produces no cell. */
  lemma ExtraPipesIgnored(s: string, t: string)
    ensures Cells(['|'] + s) == Cells(s)
    ensures Cells(s + ['|']) == Cells(s)
    ensures Cells(s + ['|', '|'] + t) == Cells(s + ['|'] + t)
  {
    Strings.LeadingSeparator(s, '|');
    Strings.TrailingSeparator(s, '|');
    Strings.DoubledSeparator(s, t, '|');
  }

  /** The cells of a line written from raw pieces are those pieces trimmed,
      one each and in order; a piece of whitespace gives an empty cell. */
  lemma CellsOfJoined(pieces: seq<string>)
    requires Strings.WellFormedPieces(pieces, '|')
    ensures Cells(Strings.Join(pieces, '|')) == Strings.TrimAll(pieces)
    ensures forall k :: 0 <= k < |pieces| && Strings.AllWhitespace(pieces[k]) ==> Cells(Strings.Join(pieces, '|'))[k] == []
  {
    Strings.SplitJoin(pieces, '|');
    forall k | 0 <= k < |pieces| && Strings.AllWhitespace(pieces[k])
      ensures Strings.Trim(pieces[k]) == []
    {
      Strings.TrimAllWhitespace(pieces[k]);
    }
  }

  lemma {:induction false} JoinKeepsOut(pieces: seq<string>, sep: char, c: char)
    requires c != sep
    requires forall k :: 0 <= k < |pieces| ==> c !in pieces[k]
    ensures c !in Strings.Join(pieces, sep)
  {
    if |pieces| > 1 {
      JoinKeepsOut(pieces[1..], sep, c);
    }
  }

  /** Reading back a body written from raw cells gives the first row's cells,
      trimmed, as headers, and every other row's cells, trimmed, as that
      row's cells: rows keep their own width, shorter or longer than the
      headers. */
  lemma ParseRender(rows: seq<seq<string>>)
    requires rows != [] && WellFormedRows(rows)
    ensures Headers(Render(rows)) == Strings.TrimAll(rows[0])
    ensures |Data(Render(rows))| == |rows| - 1
    ensures forall i :: 0 <= i < |rows| - 1 ==> Data(Render(rows))[i] == Strings.TrimAll(rows[i + 1])
  {
    var lines := seq(|rows|, i requires 0 <= i < |rows| => Strings.Join(rows[i], '|'));
    forall i | 0 <= i < |rows|
      ensures lines[i] != [] && '\n' !in lines[i]
      ensures Cells(lines[i]) == Strings.TrimAll(rows[i])
    {
      JoinKeepsOut(rows[i], '|', '\n');
      Strings.SplitJoin(rows[i], '|');
      Strings.JoinStartsWithFirst(rows[i], '|');
      assert rows[i][0] != [];
    }
    Strings.SplitJoin(lines, '\n');
    assert Lines(Render(rows)) == lines;
  }

  /** A cell text that survives a round trip: non-empty, free of both
      separators, and not starting or ending with whitespace. */
  predicate Clean(w: string)
  {
    w != [] && '|' !in w && '\n' !in w && !Strings.IsWhitespace(w[0]) && !Strings.IsWhitespace(w[|w| - 1])
  }

  /** One line of a two-column body, "a | b" followed by `tail`. */
  function TwoCells(a: string, b: string, tail: string): string
  {
    a + " | " + b + tail
  }

  /** A two-column body of four lines, the first two with a trailing space,
      as the preview is written. */
  function TwoColumnBody(h: string, f: string, a1: string, b1: string, a2: string, b2: string, a3: string, b3: string): string
  {
    TwoCells(h, f, " ") + "\n" + TwoCells(a1, b1, " ") + "\n" + TwoCells(a2, b2, "") + "\n" + TwoCells(a3, b3, "")
  }

  /** A word with at most a space on either side. */
  predicate Padded(before: string, w: string, after: string, piece: string)
  {
    Clean(w) && (before == "" || before == " ") && (after == "" || after == " ") && piece == before + w + after
  }

  /** A clean word with at most a space on either side is a well-formed
      piece ... */
  lemma PaddedPieceShape(before: string, w: string, after: string, piece: string)
    requires Padded(before, w, after, piece)
    ensures piece != [] && '|' !in piece && '\n' !in piece
  {
    assert |piece| >= |w|;
    assert '|' !in before && '\n' !in before && '|' !in after && '\n' !in after;
  }

  /** ... that trims back to the word. */
  lemma PaddedPieceTrim(before: string, w: string, after: string, piece: string)
    requires Padded(before, w, after, piece)
    ensures Strings.Trim(piece) == w
  {
    assert Strings.AllWhitespace(before) && Strings.AllWhitespace(after);
    Strings.TrimPadded(before, w, after);
  }

  /** The raw cells of one line of a two-column body. */
  function RawTwoCells(a: string, b: string, tail: string): seq<string>
  {
    [a + " ", " " + b + tail]
  }

  /** The raw cells of one line of a two-column body are well formed ... */
  lemma TwoCellsWellFormed(a: string, b: string, tail: string)
    requires Clean(a) && Clean(b) && (tail == "" || tail == " ")
    ensures WellFormedRow(RawTwoCells(a, b, tail))
  {
    assert "" + a + " " == a + " ";
    PaddedPieceShape("", a, " ", a + " ");
    PaddedPieceShape(" ", b, tail, " " + b + tail);
    WellFormedPair(a + " ", " " + b + tail);
  }

  /** ... and trim back to the two words. */
  lemma TwoCellsTrimmed(a: string, b: string, tail: string)
    requires Clean(a) && Clean(b) && (tail == "" || tail == " ")
    ensures Strings.TrimAll(RawTwoCells(a, b, tail)) == [a, b]
  {
    assert "" + a + " " == a + " ";
    PaddedPieceTrim("", a, " ", a + " ");
    PaddedPieceTrim(" ", b, tail, " " + b + tail);
    TrimPair(a + " ", " " + b + tail, a, b);
  }

  lemma TrimPair(x: string, y: string, a: string, b: string)
    requires Strings.Trim(x) == a && Strings.Trim(y) == b
    ensures Strings.TrimAll([x, y]) == [a, b]
  {
    var trimmed := Strings.TrimAll([x, y]);
    assert [x, y][0] == x && [x, y][1] == y;
    assert |trimmed| == 2 && trimmed[0] == a && trimmed[1] == b;
  }

  lemma WellFormedPair(x: string, y: string)
    requires x != [] && '|' !in x && '\n' !in x
    requires y != [] && '|' !in y && '\n' !in y
    ensures WellFormedRow([x, y])
  {
    var row := [x, y];
    forall k | 0 <= k < 2 ensures row[k] != [] && '|' !in row[k] && '\n' !in row[k] {
      if k == 0 { assert row[k] == x; } else { assert row[k] == y; }
    }
  }

  lemma TwoCellsJoined(a: string, b: string, tail: string)
    ensures Strings.Join(RawTwoCells(a, b, tail), '|') == TwoCells(a, b, tail)
  {
    var pieces := RawTwoCells(a, b, tail);
    assert pieces[1..] == [" " + b + tail];
    assert Strings.Join(pieces, '|') == (a + " ") + ['|'] + (" " + b + tail);
    assert " " + ['|'] + " " == " | ";
  }

  lemma TwoColumnTable(h: string, f: string, a1: string, b1: string, a2: string, b2: string, a3: string, b3: string)
    requires Clean(h) && Clean(f) && Clean(a1) && Clean(b1) && Clean(a2) && Clean(b2) && Clean(a3) && Clean(b3)
    ensures Headers(TwoColumnBody(h, f, a1, b1, a2, b2, a3, b3)) == [h, f]
    ensures Data(TwoColumnBody(h, f, a1, b1, a2, b2, a3, b3)) == [[a1, b1], [a2, b2], [a3, b3]]
  {
    var rows := [RawTwoCells(h, f, " "), RawTwoCells(a1, b1, " "), RawTwoCells(a2, b2, ""), RawTwoCells(a3, b3, "")];
    TwoCellsWellFormed(h, f, " ");
    TwoCellsWellFormed(a1, b1, " ");
    TwoCellsWellFormed(a2, b2, "");
    TwoCellsWellFormed(a3, b3, "");
    TwoCellsTrimmed(h, f, " ");
    TwoCellsTrimmed(a1, b1, " ");
    TwoCellsTrimmed(a2, b2, "");
    TwoCellsTrimmed(a3, b3, "");
    TwoCellsJoined(h, f, " ");
    TwoCellsJoined(a1, b1, " ");
    TwoCellsJoined(a2, b2, "");
    TwoCellsJoined(a3, b3, "");
    RenderFourLines(rows);
    assert Render(rows) == TwoColumnBody(h, f, a1, b1, a2, b2, a3, b3);
    ParseFourRows(rows[0], rows[1], rows[2], rows[3]);
  }

  lemma ParseFourRows(r0: seq<string>, r1: seq<string>, r2: seq<string>, r3: seq<string>)
    requires WellFormedRow(r0) && WellFormedRow(r1) && WellFormedRow(r2) && WellFormedRow(r3)
    ensures Headers(Render([r0, r1, r2, r3])) == Strings.TrimAll(r0)
    ensures Data(Render([r0, r1, r2, r3])) == [Strings.TrimAll(r1), Strings.TrimAll(r2), Strings.TrimAll(r3)]
  {
    var rows := [r0, r1, r2, r3];
    FourRowsWellFormed(r0, r1, r2, r3);
    ParseRender(rows);
    ThreeRows(Data(Render(rows)), rows);
  }

  lemma FourRowsWellFormed(r0: seq<string>, r1: seq<string>, r2: seq<string>, r3: seq<string>)
    requires WellFormedRow(r0) && WellFormedRow(r1) && WellFormedRow(r2) && WellFormedRow(r3)
    ensures WellFormedRows([r0, r1, r2, r3])
  {
    var rows := [r0, r1, r2, r3];
    forall i | 0 <= i < 4 ensures WellFormedRow(rows[i]) {
      if i == 0 { assert rows[i] == r0; }
      else if i == 1 { assert rows[i] == r1; }
      else if i == 2 { assert rows[i] == r2; }
      else { assert rows[i] == r3; }
    }
  }

  lemma ThreeRows(data: seq<seq<string>>, rows: seq<seq<string>>)
    requires |rows| == 4 && |data| == 3
    requires forall i :: 0 <= i < 3 ==> data[i] == Strings.TrimAll(rows[i + 1])
    ensures data == [Strings.TrimAll(rows[1]), Strings.TrimAll(rows[2]), Strings.TrimAll(rows[3])]
  {
    assert data[0] == Strings.TrimAll(rows[1]);
    assert data[1] == Strings.TrimAll(rows[2]);
    assert data[2] == Strings.TrimAll(rows[3]);
  }

  /** A body of four lines, each line the join of its raw cells. */
  lemma RenderFourLines(rows: seq<seq<string>>)
    requires |rows| == 4
    ensures Render(rows) == Strings.Join(rows[0], '|') + "\n" + Strings.Join(rows[1], '|') + "\n"
                            + Strings.Join(rows[2], '|') + "\n" + Strings.Join(rows[3], '|')
  {
    var lines := seq(|rows|, i requires 0 <= i < |rows| => Strings.Join(rows[i], '|'));
    assert lines[3..] == [lines[3]];
    assert lines[2..][1..] == lines[3..];
    assert lines[1..][1..] == lines[2..];
    assert Strings.Join(lines[2..], '\n') == lines[2] + "\n" + lines[3];
    assert Strings.Join(lines[1..], '\n') == lines[1] + "\n" + (lines[2] + "\n" + lines[3]);
    assert Strings.Join(lines, '\n') == lines[0] + "\n" + (lines[1] + "\n" + (lines[2] + "\n" + lines[3]));
  }

  /** The body of the table preview. */
  const PreviewContent: string :=
    "Visa Type test for long text | Fee \n15 Days | $30 USD \n30 Days | $50 USD\n90 Days | $125 USD"

  /** The preview body is the two-column body of its eight cell texts. The
      string-literal steps are kept in small lemmas of their own, which keeps
      each proof obligation small. */
  lemma PreviewLines()
    ensures PreviewContent == TwoColumnBody("Visa Type test for long text", "Fee", "15 Days", "$30 USD", "30 Days", "$50 USD", "90 Days", "$125 USD")
  {
    PreviewWords();
    PreviewJoined();
  }

  lemma PreviewWords()
    ensures TwoCells("Visa Type test for long text", "Fee", " ") == "Visa Type test for long text | Fee "
    ensures TwoCells("15 Days", "$30 USD", " ") == "15 Days | $30 USD "
    ensures TwoCells("30 Days", "$50 USD", "") == "30 Days | $50 USD"
    ensures TwoCells("90 Days", "$125 USD", "") == "90 Days | $125 USD"
  {
  }

  lemma PreviewJoined()
    ensures "Visa Type test for long text | Fee " + "\n" + "15 Days | $30 USD " + "\n" + "30 Days | $50 USD" + "\n"
            + "90 Days | $125 USD" == PreviewContent
  {
    PreviewJoinedFirst();
    PreviewJoinedSecond();
    PreviewJoinedThird();
  }

  lemma PreviewJoinedFirst()
    ensures "Visa Type test for long text | Fee " + "\n" + "15 Days | $30 USD "
      == "Visa Type test for long text | Fee \n15 Days | $30 USD "
  {
  }

  lemma PreviewJoinedSecond()
    ensures "Visa Type test for long text | Fee \n15 Days | $30 USD " + "\n" + "30 Days | $50 USD"
      == "Visa Type test for long text | Fee \n15 Days | $30 USD \n30 Days | $50 USD"
  {
  }

  lemma PreviewJoinedThird()
    ensures "Visa Type test for long text | Fee \n15 Days | $30 USD \n30 Days | $50 USD" + "\n" + "90 Days | $125 USD"
      == PreviewContent
  {
  }

  /** The preview reads as two headers and three two-cell rows. */
  lemma PreviewTable()
    ensures Headers(PreviewContent) == ["Visa Type test for long text", "Fee"]
    ensures Data(PreviewContent) == [["15 Days", "$30 USD"], ["30 Days", "$50 USD"], ["90 Days", "$125 USD"]]
  {
    assert Clean("Visa Type test for long text") && Clean("Fee");
    assert Clean("15 Days") && Clean("$30 USD") && Clean("30 Days") && Clean("$50 USD");
    assert Clean("90 Days") && Clean("$125 USD");
    PreviewLines();
    TwoColumnTable("Visa Type test for long text", "Fee", "15 Days", "$30 USD", "30 Days", "$50 USD", "90 Days", "$125 USD");
  }
}
