/**
 * The fixed-width task table: how `textAdoption` cuts a body into padded
 * cells of the Task column, and the lines `TaskList.toString()` lays out
 * (the header, then per task a main row, continuation rows and a separator).
 */
module Layout {
  import opened Strings
  import opened Numbers
  import opened Symbols
  import opened Tasks

  /** The default `width` of `textAdoption`: the width of the table's Task column. */
  const TEXT_WIDTH: nat := 44

  /** The rule above a column of `width` characters. */
  function Rule(width: nat): string {
    "+" + Repeat('-', width)
  }

  /** An empty column of `width` characters. */
  function Blank(width: nat): string {
    "|" + Repeat(' ', width)
  }

  /**
   * `TABLE_SEPARATOR`, which is also the first and the last line of
   * `TABLE_HEAD`: the columns N, Date, Time, P, D and Task are 4, 12, 7, 3, 3
   * and 44 characters wide.
   */
  const BORDER: string := Rule(4) + Rule(12) + Rule(7) + Rule(3) + Rule(3) + Rule(TEXT_WIDTH) + "+"

  /** The column titles, the middle line of `TABLE_HEAD`. */
  const TITLE: string :=
    "| N  " + "|    Date    " + "| Time  " + "| P " + "| D " + "|" + Repeat(' ', 19) + "Task" + Repeat(' ', 21) + "|"

  /** `TABLE_HEAD` once its indentation is trimmed. */
  const TABLE_HEAD: string := BORDER + "\n" + TITLE + "\n" + BORDER

  /** `TABLE_SUBLIME` up to its `TEXT_LINE` placeholder; a closing `|` follows the placeholder. */
  const SUBLIME_PREFIX: string := Blank(4) + Blank(12) + Blank(7) + Blank(3) + Blank(3) + "|"

  /** All strings of `xs`, one after the other. */
  function Concat(xs: seq<string>): string
    decreases |xs|
  {
    if xs == [] then [] else xs[0] + Concat(xs[1..])
  }

  lemma {:induction false} ConcatSnoc(xs: seq<string>, x: string)
    ensures Concat(xs + [x]) == Concat(xs) + x
    decreases |xs|
  {
    if xs != [] {
      assert (xs + [x])[1..] == xs[1..] + [x];
      ConcatSnoc(xs[1..], x);
    }
  }

  lemma {:induction false} ConcatLength(xs: seq<string>, w: nat)
    requires forall i :: 0 <= i < |xs| ==> |xs[i]| == w
    ensures |Concat(xs)| == |xs| * w
    decreases |xs|
  {
    if xs != [] {
      ConcatLength(xs[1..], w);
    }
  }

  /**
   * `s.chunked(w)`: consecutive pieces of `s`, each of `w` characters except
   * possibly the last, which is shorter but never empty; no piece at all for
   * the empty string.
   */
  function Chunked(s: string, w: nat): (cs: seq<string>)
    requires w >= 1
    ensures forall i :: 0 <= i < |cs| ==> 1 <= |cs[i]| <= w
    ensures cs == [] <==> s == []
    decreases |s|
  {
    if s == [] then []
    else if |s| <= w then [s]
    else [s[..w]] + Chunked(s[w..], w)
  }

  /** Every piece but the last is a full `w` characters. */
  lemma {:induction false} ChunkedFull(s: string, w: nat)
    requires w >= 1
    ensures forall i :: 0 <= i < |Chunked(s, w)| - 1 ==> |Chunked(s, w)[i]| == w
    decreases |s|
  {
    if |s| > w {
      ChunkedFull(s[w..], w);
      var cs := Chunked(s, w);
      forall i | 0 <= i < |cs| - 1 ensures |cs[i]| == w {
        if i > 0 { assert cs[i] == Chunked(s[w..], w)[i - 1]; }
      }
    }
  }

  /** The pieces put back together give `s`. */
  lemma {:induction false} ChunkedConcat(s: string, w: nat)
    requires w >= 1
    ensures Concat(Chunked(s, w)) == s
    decreases |s|
  {
    if |s| > w {
      var cs := Chunked(s, w);
      assert cs == [s[..w]] + Chunked(s[w..], w);
      assert cs[1..] == Chunked(s[w..], w);
      assert Concat(cs) == s[..w] + Concat(Chunked(s[w..], w));
      ChunkedConcat(s[w..], w);
      assert s == s[..w] + s[w..];
    }
  }

  /** There are `ceil(|s| / w)` pieces. */
  lemma {:induction false} ChunkedCount(s: string, w: nat)
    requires w >= 1
    ensures (|Chunked(s, w)| - 1) * w < |s| <= |Chunked(s, w)| * w
    decreases |s|
  {
    if |s| > w {
      ChunkedCount(s[w..], w);
    }
  }

  /** All chunks but the last are full. */
  lemma InitFull(s: string, w: nat, init: seq<string>)
    requires w >= 1 && Chunked(s, w) != [] && init == Chunked(s, w)[..|Chunked(s, w)| - 1]
    ensures forall i :: 0 <= i < |init| ==> |init[i]| == w
  {
    ChunkedFull(s, w);
  }

  /** The chunks of one line as `textAdoption` leaves them: the last one is padded with spaces to `w`. */
  function PaddedChunks(line: string, w: nat): (cs: seq<string>)
    requires w >= 1
    ensures |cs| == |Chunked(line, w)|
  {
    var cs := Chunked(line, w);
    if cs == [] then []
    else
      var last := cs[|cs| - 1];
      cs[..|cs| - 1] + [last + Repeat(' ', w - |last|)]
  }

  /** Every padded chunk is exactly `w` characters wide. */
  lemma PaddedChunksWidth(line: string, w: nat)
    requires w >= 1
    ensures forall i :: 0 <= i < |PaddedChunks(line, w)| ==> |PaddedChunks(line, w)[i]| == w
  {
    ChunkedFull(line, w);
    var cs := Chunked(line, w);
    var ps := PaddedChunks(line, w);
    forall i | 0 <= i < |ps| ensures |ps[i]| == w {
      if i < |cs| - 1 { assert ps[i] == cs[i]; }
    }
  }

  /** The padded chunks spell the line followed by fewer than `w` spaces. */
  lemma {:induction false} PaddedChunksContent(line: string, w: nat)
    requires w >= 1
    ensures |line| <= |PaddedChunks(line, w)| * w < |line| + w
    ensures Concat(PaddedChunks(line, w)) == line + Repeat(' ', |PaddedChunks(line, w)| * w - |line|)
  {
    var cs := Chunked(line, w);
    if cs != [] {
      var init, last := cs[..|cs| - 1], cs[|cs| - 1];
      assert cs == init + [last];
      assert PaddedChunks(line, w) == init + [last + Repeat(' ', w - |last|)];
      ChunksSplit(line, w, init, last);
      PaddedConcat(init, last, w, line);
    } else {
      assert Repeat(' ', 0) == [];
    }
  }

  /** Padding the last of `k` full chunks and a short one gives the line and the padding, `k + 1` chunks wide. */
  lemma PaddedConcat(init: seq<string>, last: string, w: nat, line: string)
    requires 1 <= |last| <= w
    requires Concat(init) + last == line && |Concat(init)| == |init| * w
    ensures |line| <= (|init| + 1) * w < |line| + w
    ensures Concat(init + [last + Repeat(' ', w - |last|)]) == line + Repeat(' ', (|init| + 1) * w - |line|)
  {
    var pad := Repeat(' ', w - |last|);
    ConcatSnoc(init, last + pad);
    AppendAssoc(Concat(init), last, pad);
    MulStep(|init|, w);
  }

  /** The full chunks before the last one, put together, take `w` characters each. */
  lemma ChunksSplit(line: string, w: nat, init: seq<string>, last: string)
    requires w >= 1 && Chunked(line, w) == init + [last]
    ensures Concat(init) + last == line
    ensures |Concat(init)| == |init| * w
  {
    var cs := Chunked(line, w);
    assert init == cs[..|cs| - 1];
    ChunkedConcat(line, w);
    ConcatSnoc(init, last);
    InitFull(line, w, init);
    ConcatLength(init, w);
  }

  lemma MulStep(k: int, w: int)
    ensures (k + 1) * w == k * w + w
  {
  }

  /**
   * What `textAdoption` returns for the lines `lines` of a body: the padded
   * chunks of every line, line after line.
   */
  function Adopted(lines: seq<string>, w: nat): seq<string>
    requires w >= 1
    decreases |lines|
  {
    if lines == [] then []
    else Adopted(lines[..|lines| - 1], w) + PaddedChunks(lines[|lines| - 1], w)
  }

  /** Every cell is exactly `w` characters wide. */
  lemma {:induction false} AdoptedWidth(lines: seq<string>, w: nat)
    requires w >= 1
    ensures forall i :: 0 <= i < |Adopted(lines, w)| ==> |Adopted(lines, w)[i]| == w
    decreases |lines|
  {
    if lines != [] {
      var init, last := lines[..|lines| - 1], lines[|lines| - 1];
      AdoptedWidth(init, w);
      PaddedChunksWidth(last, w);
      WidthAppend(Adopted(init, w), PaddedChunks(last, w), w);
    }
  }

  lemma WidthAppend(a: seq<string>, p: seq<string>, w: nat)
    requires forall i :: 0 <= i < |a| ==> |a[i]| == w
    requires forall i :: 0 <= i < |p| ==> |p[i]| == w
    ensures forall i :: 0 <= i < |a + p| ==> |(a + p)[i]| == w
  {
    forall i | 0 <= i < |a + p| ensures |(a + p)[i]| == w {
      if i < |a| { assert (a + p)[i] == a[i]; } else { assert (a + p)[i] == p[i - |a|]; }
    }
  }

  /** One more line adds its padded chunks at the end. */
  lemma AdoptedSnoc(lines: seq<string>, line: string, w: nat)
    requires w >= 1
    ensures Adopted(lines + [line], w) == Adopted(lines, w) + PaddedChunks(line, w)
  {
    assert (lines + [line])[..|lines|] == lines;
  }

  /** The cells of two runs of lines are those of the first run followed by those of the second. */
  lemma {:induction false} AdoptedAppend(xs: seq<string>, ys: seq<string>, w: nat)
    requires w >= 1
    ensures Adopted(xs + ys, w) == Adopted(xs, w) + Adopted(ys, w)
    decreases |ys|
  {
    if ys == [] {
      assert xs + ys == xs;
    } else {
      var init, last := ys[..|ys| - 1], ys[|ys| - 1];
      assert xs + ys == (xs + init) + [last];
      assert ys == init + [last];
      AdoptedAppend(xs, init, w);
      AdoptedSnoc(xs + init, last, w);
      AdoptedSnoc(init, last, w);
      AppendAssoc(Adopted(xs, w), Adopted(init, w), PaddedChunks(last, w));
    }
  }

  /** An empty line gives no cell, wherever it stands. */
  lemma EmptyLineAdoptsNothing(xs: seq<string>, ys: seq<string>, w: nat)
    requires w >= 1
    ensures Adopted(xs + [[]] + ys, w) == Adopted(xs + ys, w)
  {
    AdoptedAppend(xs + [[]], ys, w);
    AdoptedAppend(xs, ys, w);
  }

  /** Each line gives as many cells as it has chunks, so a blank line gives none. */
  function CellCount(lines: seq<string>, w: nat): nat
    requires w >= 1
    decreases |lines|
  {
    if lines == [] then 0
    else CellCount(lines[..|lines| - 1], w) + |Chunked(lines[|lines| - 1], w)|
  }

  lemma {:induction false} AdoptedCount(lines: seq<string>, w: nat)
    requires w >= 1
    ensures |Adopted(lines, w)| == CellCount(lines, w)
    decreases |lines|
  {
    if lines != [] {
      AdoptedCount(lines[..|lines| - 1], w);
    }
  }

  /** The cells of a body whose first line is not empty start with the first chunk of that line. */
  lemma {:induction false} AdoptedFirst(lines: seq<string>, w: nat)
    requires w >= 1 && |lines| >= 1 && lines[0] != []
    ensures |Adopted(lines, w)| >= 1
    ensures Adopted(lines, w)[0] == PaddedChunks(lines[0], w)[0]
    decreases |lines|
  {
    if |lines| == 1 {
      assert lines[..0] == [];
    } else {
      var init := lines[..|lines| - 1];
      assert init[0] == lines[0];
      AdoptedFirst(init, w);
    }
  }

  /**
   * A body of a 46-character line and a 5-character line takes three cells:
   * the first 44 characters, then the 2 left over and the second line, each
   * padded.
   */
  lemma TwoLineBody(a: string, b: string)
    requires |a| == 46 && |b| == 5 && NoLineBreaks(a) && NoLineBreaks(b)
    ensures Adopted(Lines(a + "\n" + b), TEXT_WIDTH) == [a[..44], a[44..] + Repeat(' ', 42), b + Repeat(' ', 39)]
  {
    LinesCons(a, b);
    LinesNoBreak(b);
    var lines := [a, b];
    assert Lines(a + "\n" + b) == lines;
    assert lines[..1] == [a];
    assert [a][..0] == [];
    assert Adopted([a], 44) == PaddedChunks(a, 44);
    assert Adopted(lines, 44) == PaddedChunks(a, 44) + PaddedChunks(b, 44);
    assert Chunked(b, 44) == [b];
    assert PaddedChunks(b, 44) == [b + Repeat(' ', 39)];
    assert Chunked(a[44..], 44) == [a[44..]];
    assert Chunked(a, 44) == [a[..44], a[44..]];
    assert PaddedChunks(a, 44) == [a[..44], a[44..] + Repeat(' ', 42)];
  }

  /** The row number shown for position `index`: one more than it, followed by a space below 10. */
  function IndexCell(index: nat): (r: string)
    ensures index < 99 ==> |r| == 2
  {
    NatToString(index + 1) + (if index < 9 then " " else "")
  }

  /** The N column shows the task number itself: the cell, trimmed, is `index + 1` in decimal. */
  lemma IndexCellNumber(index: nat)
    requires index < 99
    ensures Trim(IndexCell(index)) == NatToString(index + 1)
  {
    var d := NatToString(index + 1);
    var r := IndexCell(index);
    assert d[0] != ' ' && d[|d| - 1] != ' ' && !IsWhitespace(d[|d| - 1]);
    assert TrimStart(r) == r;
    assert TrimEnd(d) == d;
    if index < 9 {
      assert r == d + " " && r[..|r| - 1] == d;
    } else {
      assert r == d;
    }
  }

  /** A task's main row, with `cell` the first cell of its body. */
  function MainLine(index: nat, row: Row, cell: string): (r: string)
    ensures |r| == 17 + |IndexCell(index)| + |row.date| + |row.time|
      + |PriorityColor(row.priority)| + |StateColor(row.state)| + |cell|
    ensures r[|r| - 1 - |cell|..|r| - 1] == cell && r[|r| - 1] == '|'
  {
    "| " + IndexCell(index) + " | " + row.date + " | " + row.time + " | "
      + PriorityColor(row.priority) + " | " + StateColor(row.state) + " |" + cell + "|"
  }

  /** `TABLE_SUBLIME` with `TEXT_LINE` replaced by `cell`. */
  function SublimeLine(cell: string): (r: string)
    ensures |r| == 36 + |cell| && r[35..35 + |cell|] == cell && r[|r| - 1] == '|'
    ensures forall k :: 0 <= k < 35 ==> r[k] == ' ' || r[k] == '|'
  {
    SUBLIME_PREFIX + cell + "|"
  }

  /** The continuation rows of the cells `cells`. */
  function SublimeLines(cells: seq<string>): (r: seq<string>)
    ensures |r| == |cells|
    ensures forall k :: 0 <= k < |cells| ==> r[k] == SublimeLine(cells[k])
  {
    seq(|cells|, k requires 0 <= k < |cells| => SublimeLine(cells[k]))
  }

  /** One more cell adds one more continuation row. */
  lemma SublimeLinesSnoc(cells: seq<string>, n: nat)
    requires n < |cells|
    ensures SublimeLines(cells[..n + 1]) == SublimeLines(cells[..n]) + [SublimeLine(cells[n])]
  {
    var a, b := SublimeLines(cells[..n + 1]), SublimeLines(cells[..n]) + [SublimeLine(cells[n])];
    assert |a| == |b|;
    forall k | 0 <= k < |a| ensures a[k] == b[k] {
      if k < n { assert cells[..n + 1][k] == cells[..n][k]; }
    }
  }

  /** A body `toString` can lay out: `textAdoption` fails on a body whose first line is empty. */
  predicate Renderable(row: Row) {
    Lines(row.text)[0] != []
  }

  /** The cells of a row's body in the Task column. */
  function Cells(row: Row): (cs: seq<string>)
    requires Renderable(row)
    ensures |cs| >= 1
  {
    AdoptedFirst(Lines(row.text), TEXT_WIDTH);
    Adopted(Lines(row.text), TEXT_WIDTH)
  }

  /**
   * The lines task number `index` adds to the table: its main row with the
   * first cell, one continuation row for every further cell, and the
   * separator.
   */
  function TaskBlock(index: nat, row: Row): (b: seq<string>)
    requires Renderable(row)
    ensures |b| == |Cells(row)| + 1
  {
    var cells := Cells(row);
    [MainLine(index, row, cells[0])] + SublimeLines(cells[1..]) + [BORDER]
  }

  /** The block of a row, spelled out from the cells `textAdoption` gives its body. */
  lemma TaskBlockOf(index: nat, row: Row, cells: seq<string>)
    requires Renderable(row) && cells == Adopted(Lines(row.text), TEXT_WIDTH)
    ensures |cells| >= 1
    ensures TaskBlock(index, row) == [MainLine(index, row, cells[0])] + SublimeLines(cells[1..]) + [BORDER]
  {
    assert cells == Cells(row);
  }

  /** The blocks of every row, each numbered by its position. */
  function Blocks(rows: seq<Row>): seq<string>
    requires forall i :: 0 <= i < |rows| ==> Renderable(rows[i])
    decreases |rows|
  {
    if rows == [] then []
    else Blocks(rows[..|rows| - 1]) + TaskBlock(|rows| - 1, rows[|rows| - 1])
  }

  /** Every line of the rendered table of `rows`, the three lines of the header first. */
  function TableLines(rows: seq<Row>): seq<string>
    requires forall i :: 0 <= i < |rows| ==> Renderable(rows[i])
  {
    [BORDER, TITLE, BORDER] + Blocks(rows)
  }

  /** How many lines each row takes: one per cell of its body, and its separator. */
  function Heights(rows: seq<Row>): nat
    requires forall i :: 0 <= i < |rows| ==> Renderable(rows[i])
    decreases |rows|
  {
    if rows == [] then 0
    else Heights(rows[..|rows| - 1]) + CellCount(Lines(rows[|rows| - 1].text), TEXT_WIDTH) + 1
  }

  /** The table has the three header lines and, for every task, one line per cell plus a separator. */
  lemma {:induction false} TableLineCount(rows: seq<Row>)
    requires forall i :: 0 <= i < |rows| ==> Renderable(rows[i])
    ensures |TableLines(rows)| == 3 + Heights(rows)
    ensures rows == [] ==> JoinLines(TableLines(rows)) == TABLE_HEAD
    decreases |rows|
  {
    if rows != [] {
      var init := rows[..|rows| - 1];
      TableLineCount(init);
      AdoptedCount(Lines(rows[|rows| - 1].text), TEXT_WIDTH);
    } else {
      assert TableLines(rows) == [BORDER, TITLE, BORDER];
      HeadJoin();
    }
  }

  /** The three header lines joined are `TABLE_HEAD`, and none of them holds a break. */
  lemma HeadJoin()
    ensures JoinLines([BORDER, TITLE, BORDER]) == TABLE_HEAD
    ensures NoLineBreaks(BORDER) && NoLineBreaks(TITLE)
  {
    assert JoinLines([BORDER]) == BORDER;
    JoinLinesSnoc([BORDER], TITLE);
    assert [BORDER] + [TITLE] == [BORDER, TITLE];
    JoinLinesSnoc([BORDER, TITLE], BORDER);
    assert [BORDER, TITLE] + [BORDER] == [BORDER, TITLE, BORDER];
    BorderPlain();
    TitlePlain();
  }

  lemma RulePlain(width: nat)
    ensures NoLineBreaks(Rule(width))
  {
    NoLineBreaksAppend("+", Repeat('-', width));
  }

  lemma BlankPlain(width: nat)
    ensures NoLineBreaks(Blank(width))
  {
    NoLineBreaksAppend("|", Repeat(' ', width));
  }

  lemma BorderPlain()
    ensures NoLineBreaks(BORDER)
  {
    RulePlain(4);
    RulePlain(12);
    RulePlain(7);
    RulePlain(3);
    RulePlain(TEXT_WIDTH);
    var line := Rule(4);
    NoLineBreaksAppend(line, Rule(12));
    line := line + Rule(12);
    NoLineBreaksAppend(line, Rule(7));
    line := line + Rule(7);
    NoLineBreaksAppend(line, Rule(3));
    line := line + Rule(3);
    NoLineBreaksAppend(line, Rule(3));
    line := line + Rule(3);
    NoLineBreaksAppend(line, Rule(TEXT_WIDTH));
    line := line + Rule(TEXT_WIDTH);
    NoLineBreaksAppend(line, "+");
  }

  lemma TitlePlain()
    ensures NoLineBreaks(TITLE)
  {
    var line: string := "| N  ";
    NoLineBreaksAppend(line, "|    Date    ");
    line := line + "|    Date    ";
    NoLineBreaksAppend(line, "| Time  ");
    line := line + "| Time  ";
    NoLineBreaksAppend(line, "| P ");
    line := line + "| P ";
    NoLineBreaksAppend(line, "| D ");
    line := line + "| D ";
    NoLineBreaksAppend(line, "|");
    line := line + "|";
    NoLineBreaksAppend(line, Repeat(' ', 19));
    line := line + Repeat(' ', 19);
    NoLineBreaksAppend(line, "Task");
    line := line + "Task";
    NoLineBreaksAppend(line, Repeat(' ', 21));
    line := line + Repeat(' ', 21);
    NoLineBreaksAppend(line, "|");
  }

  lemma SublimePrefixPlain()
    ensures NoLineBreaks(SUBLIME_PREFIX)
  {
    BlankPlain(4);
    BlankPlain(12);
    BlankPlain(7);
    BlankPlain(3);
    var line := Blank(4);
    NoLineBreaksAppend(line, Blank(12));
    line := line + Blank(12);
    NoLineBreaksAppend(line, Blank(7));
    line := line + Blank(7);
    NoLineBreaksAppend(line, Blank(3));
    line := line + Blank(3);
    NoLineBreaksAppend(line, Blank(3));
    line := line + Blank(3);
    NoLineBreaksAppend(line, "|");
  }



  /** One more row adds its block, numbered by its position, at the end of the table. */
  lemma TableLinesAppendRow(rows: seq<Row>, row: Row)
    requires forall i :: 0 <= i < |rows| ==> Renderable(rows[i])
    requires Renderable(row)
    ensures TableLines(rows + [row]) == TableLines(rows) + TaskBlock(|rows|, row)
  {
    assert (rows + [row])[..|rows|] == rows;
    AppendAssoc([BORDER, TITLE, BORDER], Blocks(rows), TaskBlock(|rows|, row));
  }

  lemma RenderablePrefix(rows: seq<Row>, n: nat)
    requires n <= |rows| && forall i :: 0 <= i < |rows| ==> Renderable(rows[i])
    ensures forall i :: 0 <= i < n ==> Renderable(rows[..n][i])
  {
    forall i | 0 <= i < n ensures Renderable(rows[..n][i]) {
      assert rows[..n][i] == rows[i];
    }
  }

  /** The table of the first `n` rows. */
  function TableUpTo(rows: seq<Row>, n: nat): seq<string>
    requires n <= |rows| && forall i :: 0 <= i < |rows| ==> Renderable(rows[i])
  {
    RenderablePrefix(rows, n);
    TableLines(rows[..n])
  }

  lemma TableUpToEnds(rows: seq<Row>)
    requires forall i :: 0 <= i < |rows| ==> Renderable(rows[i])
    ensures TableUpTo(rows, 0) == [BORDER, TITLE, BORDER]
    ensures TableUpTo(rows, |rows|) == TableLines(rows)
  {
    assert rows[..0] == [];
    TakeAll(rows);
  }

  /** Every table starts with the three header lines. */
  lemma TableUpToLength(rows: seq<Row>, n: nat)
    requires n <= |rows| && forall i :: 0 <= i < |rows| ==> Renderable(rows[i])
    ensures |TableUpTo(rows, n)| >= 3
  {
    RenderablePrefix(rows, n);
    assert TableUpTo(rows, n) == [BORDER, TITLE, BORDER] + Blocks(rows[..n]);
  }

  /** The table of one more row is the earlier table followed by that row's block. */
  lemma TableUpToStep(rows: seq<Row>, n: nat)
    requires n < |rows| && forall i :: 0 <= i < |rows| ==> Renderable(rows[i])
    ensures TableUpTo(rows, n + 1) == TableUpTo(rows, n) + TaskBlock(n, rows[n])
  {
    RenderablePrefix(rows, n);
    RenderablePrefix(rows, n + 1);
    assert rows[..n + 1] == rows[..n] + [rows[n]];
    TableLinesAppendRow(rows[..n], rows[n]);
  }

  /** The table of `rows` is the table of all rows but the last, followed by the block of the last. */
  lemma TableLinesSnoc(rows: seq<Row>)
    requires forall i :: 0 <= i < |rows| ==> Renderable(rows[i])
    requires rows != []
    ensures TableLines(rows) == TableLines(rows[..|rows| - 1]) + TaskBlock(|rows| - 1, rows[|rows| - 1])
  {
    AppendAssoc([BORDER, TITLE, BORDER], Blocks(rows[..|rows| - 1]), TaskBlock(|rows| - 1, rows[|rows| - 1]));
  }


  /** The number column, the Task column and the right edge of every continuation row. */
  lemma SublimeLineShape(cell: string)
    requires |cell| == TEXT_WIDTH
    ensures |SublimeLine(cell)| == 80
    ensures SublimeLine(cell)[35..79] == cell
  {
  }

  /**
   * The main row of a task numbered below 100, with a `yyyy-mm-dd` date and an
   * `hh:mm` time, is 78 characters besides its two colour cells, which show
   * as one column each: 80 columns, like every other line.
   */
  lemma MainLineShape(index: nat, row: Row, cell: string)
    requires index < 99 && |row.date| == 10 && |row.time| == 5 && |cell| == TEXT_WIDTH
    ensures |MainLine(index, row, cell)| == 78 + |PriorityColor(row.priority)| + |StateColor(row.state)|
    ensures |BORDER| == |TITLE| == 80
  {
  }

  lemma NoLineBreaksAppend(a: string, b: string)
    requires NoLineBreaks(a) && NoLineBreaks(b)
    ensures NoLineBreaks(a + b)
  {
    forall k | 0 <= k < |a + b| ensures !IsLineBreak((a + b)[k]) {
      if k < |a| { assert (a + b)[k] == a[k]; } else { assert (a + b)[k] == b[k - |a|]; }
    }
  }

  lemma SpacesNoLineBreaks(n: nat)
    ensures NoLineBreaks(Repeat(' ', n))
  {
  }

  /** Rendered rows hold no line break as long as the date and time strings hold none. */
  predicate PlainRow(row: Row) {
    NoLineBreaks(row.date) && NoLineBreaks(row.time)
  }

  lemma {:induction false} AdoptedNoLineBreaks(lines: seq<string>, w: nat)
    requires w >= 1
    requires forall i :: 0 <= i < |lines| ==> NoLineBreaks(lines[i])
    ensures forall i :: 0 <= i < |Adopted(lines, w)| ==> NoLineBreaks(Adopted(lines, w)[i])
    decreases |lines|
  {
    if lines != [] {
      var n := |lines|;
      AdoptedNoLineBreaks(lines[..n - 1], w);
      var line := lines[n - 1];
      ChunkedPieces(line, w);
      var cs := Chunked(line, w);
      if cs != [] {
        var last := cs[|cs| - 1];
        SpacesNoLineBreaks(w - |last|);
        NoLineBreaksAppend(last, Repeat(' ', w - |last|));
      }
    }
  }

  /** Every chunk is a piece of `s` and so holds no break when `s` holds none. */
  lemma {:induction false} ChunkedPieces(s: string, w: nat)
    requires w >= 1 && NoLineBreaks(s)
    ensures forall i :: 0 <= i < |Chunked(s, w)| ==> NoLineBreaks(Chunked(s, w)[i])
    decreases |s|
  {
    if |s| > w {
      ChunkedPieces(s[w..], w);
    }
  }

  /** No line holds a break. */
  predicate AllPlain(xs: seq<string>) {
    forall k :: 0 <= k < |xs| ==> NoLineBreaks(xs[k])
  }

  lemma AllPlainAppend(xs: seq<string>, ys: seq<string>)
    requires AllPlain(xs) && AllPlain(ys)
    ensures AllPlain(xs + ys)
  {
    forall k | 0 <= k < |xs + ys| ensures NoLineBreaks((xs + ys)[k]) {
      if k < |xs| { assert (xs + ys)[k] == xs[k]; } else { assert (xs + ys)[k] == ys[k - |xs|]; }
    }
  }

  lemma IndexCellPlain(index: nat)
    ensures NoLineBreaks(IndexCell(index))
  {
    NoLineBreaksAppend(NatToString(index + 1), if index < 9 then " " else "");
  }

  lemma ColorsPlain(p: Priority, st: State)
    ensures NoLineBreaks(PriorityColor(p)) && NoLineBreaks(StateColor(st))
  {
    if p != NULL {
      ColorCellPlain(PriorityColor(p));
    }
    ColorCellPlain(StateColor(st));
  }

  lemma ColorCellPlain(c: string)
    requires ColorCell(c)
    ensures NoLineBreaks(c)
  {
    forall k | 0 <= k < |c| ensures !IsLineBreak(c[k]) {
      if k < 2 {
        assert c[k] == c[..2][k];
      } else if k >= 5 {
        assert c[k] == c[5..][k - 5];
      }
    }
  }

  lemma MainLinePlain(index: nat, row: Row, cell: string)
    requires PlainRow(row) && NoLineBreaks(cell)
    ensures NoLineBreaks(MainLine(index, row, cell))
  {
    IndexCellPlain(index);
    ColorsPlain(row.priority, row.state);
    var line: string := "| ";
    NoLineBreaksAppend(line, IndexCell(index));
    line := line + IndexCell(index);
    NoLineBreaksAppend(line, " | ");
    line := line + " | ";
    NoLineBreaksAppend(line, row.date);
    line := line + row.date;
    NoLineBreaksAppend(line, " | ");
    line := line + " | ";
    NoLineBreaksAppend(line, row.time);
    line := line + row.time;
    NoLineBreaksAppend(line, " | ");
    line := line + " | ";
    NoLineBreaksAppend(line, PriorityColor(row.priority));
    line := line + PriorityColor(row.priority);
    NoLineBreaksAppend(line, " | ");
    line := line + " | ";
    NoLineBreaksAppend(line, StateColor(row.state));
    line := line + StateColor(row.state);
    NoLineBreaksAppend(line, " |");
    line := line + " |";
    NoLineBreaksAppend(line, cell);
    line := line + cell;
    NoLineBreaksAppend(line, "|");
  }

  lemma SublimeLinesPlain(cells: seq<string>)
    requires AllPlain(cells)
    ensures AllPlain(SublimeLines(cells))
  {
    SublimePrefixPlain();
    var subs := SublimeLines(cells);
    forall k | 0 <= k < |subs| ensures NoLineBreaks(subs[k]) {
      NoLineBreaksAppend(SUBLIME_PREFIX, cells[k]);
      NoLineBreaksAppend(SUBLIME_PREFIX + cells[k], "|");
    }
  }

  lemma BlockPlain(index: nat, row: Row)
    requires Renderable(row) && PlainRow(row)
    ensures AllPlain(TaskBlock(index, row))
  {
    var cells := Cells(row);
    AdoptedNoLineBreaks(Lines(row.text), TEXT_WIDTH);
    assert AllPlain(cells);
    MainLinePlain(index, row, cells[0]);
    assert AllPlain(cells[1..]) by {
      forall k | 0 <= k < |cells| - 1 ensures NoLineBreaks(cells[1..][k]) {
        assert cells[1..][k] == cells[k + 1];
      }
    }
    SublimeLinesPlain(cells[1..]);
    BorderPlain();
    AllPlainAppend([MainLine(index, row, cells[0])], SublimeLines(cells[1..]));
    AllPlainAppend([MainLine(index, row, cells[0])] + SublimeLines(cells[1..]), [BORDER]);
  }

  /**
   * Splitting the rendered table at its line breaks gives back exactly its
   * lines, so the block structure above is what the reader sees.
   */
  lemma TableLinesDisplayed(rows: seq<Row>)
    requires forall i :: 0 <= i < |rows| ==> Renderable(rows[i]) && PlainRow(rows[i])
    ensures Lines(JoinLines(TableLines(rows))) == TableLines(rows)
  {
    TablePlain(rows);
    LinesOfJoin(TableLines(rows));
  }

  lemma {:induction false} TablePlain(rows: seq<Row>)
    requires forall i :: 0 <= i < |rows| ==> Renderable(rows[i]) && PlainRow(rows[i])
    ensures AllPlain(TableLines(rows))
    decreases |rows|
  {
    HeadJoin();
    if rows == [] {
      assert TableLines(rows) == [BORDER, TITLE, BORDER];
    } else {
      var n := |rows|;
      TablePlain(rows[..n - 1]);
      BlockPlain(n - 1, rows[n - 1]);
      TableLinesSnoc(rows);
      AllPlainAppend(TableLines(rows[..n - 1]), TaskBlock(n - 1, rows[n - 1]));
    }
  }
}
