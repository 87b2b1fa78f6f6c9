/**
 * `TaskList`: the ordered collection of tasks with `add`, `delete`, `edit`
 * and `isEmpty`, the task-number check of `selectIndex`, `textAdoption`, and
 * the table that `toString()` builds.
 */
module TaskLists {
  import opened Wrappers
  import opened Strings
  import opened Numbers
  import opened Symbols
  import opened Calendar
  import opened Tasks
  import opened Layout

  /** The rows `toString()` destructures from the tasks `ts`, in list order, on day `today`. */
  function RowsOf(ts: seq<Task>, today: int): (rows: seq<Row>)
    reads ts
    requires forall i :: 0 <= i < |ts| ==> ts[i].HasDate()
    ensures |rows| == |ts|
    decreases |ts|
  {
    if ts == [] then [] else RowsOf(ts[..|ts| - 1], today) + [ts[|ts| - 1].Components(today)]
  }

  /** Row `i` is what task `i` destructures to. */
  lemma {:induction false} RowAt(ts: seq<Task>, today: int, i: nat)
    requires forall i :: 0 <= i < |ts| ==> ts[i].HasDate()
    requires i < |ts|
    ensures RowsOf(ts, today)[i] == ts[i].Components(today)
    decreases |ts|
  {
    if i < |ts| - 1 {
      RowAt(ts[..|ts| - 1], today, i);
    }
  }

  /** Every task of `ts` can be shown: a readable date and a body whose first line is not empty. */
  predicate Showable(ts: seq<Task>)
    reads ts
  {
    forall i :: 0 <= i < |ts| ==> ts[i].HasDate() && Lines(ts[i].text)[0] != []
  }

  /** The rows of showable tasks can all be laid out, and keep their tasks' fields. */
  lemma RowsOfShowable(ts: seq<Task>, today: int)
    requires Showable(ts)
    ensures forall i :: 0 <= i < |ts| ==> RowsOf(ts, today)[i] == ts[i].Components(today)
    ensures forall i :: 0 <= i < |ts| ==> Renderable(RowsOf(ts, today)[i])
  {
    forall i | 0 <= i < |ts| ensures RowsOf(ts, today)[i] == ts[i].Components(today) {
      RowAt(ts, today, i);
    }
  }

  /** The lines of the table `toString()` renders for the tasks `ts` on day `today`. */
  function TableOf(ts: seq<Task>, today: int): seq<string>
    reads ts
    requires Showable(ts)
  {
    RowsOfShowable(ts, today);
    TableLines(RowsOf(ts, today))
  }

  /** The table of showable tasks is the table of their rows. */
  lemma TableOfRows(ts: seq<Task>, today: int, rows: seq<Row>)
    requires Showable(ts) && rows == RowsOf(ts, today)
    ensures forall i :: 0 <= i < |rows| ==> Renderable(rows[i])
    ensures TableOf(ts, today) == TableLines(rows)
  {
    RowsOfShowable(ts, today);
  }

  /**
   * The table of `toString()` has the three header lines and, for every
   * task, one line per cell of its body plus a separator; with no tasks it
   * is exactly the header.
   */
  lemma TableOfShape(ts: seq<Task>, today: int)
    requires Showable(ts)
    ensures forall i :: 0 <= i < |ts| ==> Renderable(RowsOf(ts, today)[i])
    ensures |TableOf(ts, today)| == 3 + Heights(RowsOf(ts, today))
    ensures ts == [] ==> JoinLines(TableOf(ts, today)) == TABLE_HEAD
  {
    RowsOfShowable(ts, today);
    TableLineCount(RowsOf(ts, today));
  }

  /**
   * When no date or time holds a line break, the lines of the text
   * `toString()` returns are the lines of the table, one display line each.
   */
  lemma TableOfDisplayed(ts: seq<Task>, today: int)
    requires Showable(ts)
    requires forall i :: 0 <= i < |ts| ==> NoLineBreaks(ts[i].date) && NoLineBreaks(ts[i].time)
    ensures Lines(JoinLines(TableOf(ts, today))) == TableOf(ts, today)
  {
    RowsOfShowable(ts, today);
    TableLinesDisplayed(RowsOf(ts, today));
  }

  /** After adding the chunks of one more line there is a last cell, and it is at most `w` wide. */
  lemma AdoptLast(acc: seq<string>, line: string, w: nat, l: seq<string>)
    requires w >= 1 && l == acc + Chunked(line, w)
    requires forall k :: 0 <= k < |acc| ==> |acc[k]| == w
    requires acc != [] || line != []
    ensures |l| >= 1 && |l[|l| - 1]| <= w
  {
    var cs := Chunked(line, w);
    if cs == [] {
      assert l == acc;
    } else {
      assert l[|l| - 1] == cs[|cs| - 1];
    }
  }

  /** Padding that last cell to `w` gives the cells so far followed by the padded chunks of the line. */
  lemma AdoptPad(acc: seq<string>, line: string, w: nat, l: seq<string>, cell: string)
    requires w >= 1 && l == acc + Chunked(line, w)
    requires forall k :: 0 <= k < |acc| ==> |acc[k]| == w
    requires |l| >= 1 && |l[|l| - 1]| <= w && cell == l[|l| - 1] + Repeat(' ', w - |l[|l| - 1]|)
    ensures l[|l| - 1 := cell] == acc + PaddedChunks(line, w)
  {
    var cs := Chunked(line, w);
    if cs == [] {
      assert l == acc;
      assert Repeat(' ', 0) == [] && cell == l[|l| - 1];
      assert l[|l| - 1 := cell] == l;
    } else {
      var last := cs[|cs| - 1];
      assert l[|l| - 1] == last;
      AppendAssoc(acc, cs[..|cs| - 1], [cell]);
      assert l[|l| - 1 := cell] == acc + (cs[..|cs| - 1] + [cell]);
    }
  }

  /** The cells of the first `i + 1` lines are those of the first `i` followed by line `i`'s. */
  lemma AdoptedPrefix(lines: seq<string>, i: nat, w: nat)
    requires w >= 1 && i < |lines|
    ensures Adopted(lines[..i + 1], w) == Adopted(lines[..i], w) + PaddedChunks(lines[i], w)
  {
    assert lines[..i + 1] == lines[..i] + [lines[i]];
    AdoptedSnoc(lines[..i], lines[i], w);
  }

  class TaskList {
    var list: seq<Task>

    /**
     * `TaskList()`, whose `init` runs `load()`: `fileExists` says whether the
     * save file is there and `decoded` is what decoding its text gave.
     */
    constructor (fileExists: bool, decoded: Option<seq<Task>>)
      ensures list == if fileExists && decoded.Some? then decoded.value else []
    {
      list := if fileExists && decoded.Some? then decoded.value else [];
    }

    /** `load()`: the list is replaced only when the file exists and decodes to a list. */
    method Load(fileExists: bool, decoded: Option<seq<Task>>)
      modifies this
      ensures list == if fileExists && decoded.Some? then decoded.value else old(list)
    {
      if fileExists && decoded.Some? {
        list := decoded.value;
      }
    }

    /** `add(task)`: appends at the end. */
    method Add(task: Task)
      modifies this
      ensures list == old(list) + [task]
      ensures !IsEmpty()
    {
      list := list + [task];
    }

    /** `delete(index)`: removes the task at `index`; the later ones move down by one. */
    method Delete(index: nat)
      requires index < |list|
      modifies this
      ensures list == old(list)[..index] + old(list)[index + 1..]
      ensures |list| == |old(list)| - 1
      ensures forall j :: 0 <= j < index ==> list[j] == old(list)[j]
      ensures forall j :: index <= j < |list| ==> list[j] == old(list)[j + 1]
    {
      list := list[..index] + list[index + 1..];
    }

    /** `edit(index)`: the task at `index` is edited as `Task.edit` does; no other task changes. */
    method Edit(index: nat, fieldLine: string, input: seq<string>) returns (outcome: EditOutcome)
      requires index < |list|
      modifies list[index]
      ensures outcome.UnknownField? <==> forall f :: FieldSymbol(f) != ToLower(fieldLine)
      ensures !outcome.UnknownField? ==> FieldSymbol(outcome.field) == ToLower(fieldLine)
      ensures !outcome.Changed? ==>
        && list[index].date == old(list[index].date) && list[index].time == old(list[index].time)
        && list[index].priority == old(list[index].priority) && list[index].text == old(list[index].text)
      ensures outcome == Changed(PriorityField) ==>
        && |input| > 0 && PrioritySymbol(list[index].priority) == ToUpper(input[0])
        && list[index].date == old(list[index].date) && list[index].time == old(list[index].time)
        && list[index].text == old(list[index].text)
      ensures outcome == Rejected(PriorityField) ==>
        |input| == 0 || forall p :: PrioritySymbol(p) != ToUpper(input[0])
      ensures outcome == Changed(DateField) ==>
        && |input| > 0 && AcceptDate(input[0]) == Some(list[index].date)
        && list[index].time == old(list[index].time) && list[index].priority == old(list[index].priority)
        && list[index].text == old(list[index].text)
      ensures outcome == Rejected(DateField) ==> |input| == 0 || AcceptDate(input[0]).None?
      ensures outcome == Changed(TimeField) ==>
        && |input| > 0 && AcceptTime(input[0]) == Some(list[index].time)
        && list[index].date == old(list[index].date) && list[index].priority == old(list[index].priority)
        && list[index].text == old(list[index].text)
      ensures outcome == Rejected(TimeField) ==> |input| == 0 || AcceptTime(input[0]).None?
      ensures outcome == Changed(TaskField) ==>
        && list[index].text == JoinLines(TypedLines(input))
        && list[index].date == old(list[index].date) && list[index].time == old(list[index].time)
        && list[index].priority == old(list[index].priority)
      ensures outcome != Rejected(TaskField)
      ensures forall j :: 0 <= j < |list| && list[j] != list[index] ==> unchanged(list[j])
    {
      outcome := list[index].Edit(fieldLine, input);
    }

    /** `isEmpty()` */
    predicate IsEmpty()
      reads this
      ensures IsEmpty() ==> forall line :: SelectIndex(line).None?
      ensures !IsEmpty() ==> SelectIndex("1") == Some(0)
    {
      ParseDigits("1");
      list == []
    }

    /**
     * `selectIndex` on one input line: `toInt() - 1` (in `Int` arithmetic;
     * a line that is not a number counts as -1) is accepted when it is a
     * position of the list. Because a list never holds more than `Int.MAX_VALUE`
     * tasks, that means the number parses and lies in `1..size`.
     */
    function SelectIndex(line: string): (r: Option<int>)
      reads this
      ensures r.Some? ==> 0 <= r.value < |list|
      ensures ParseInt(line).None? ==> r.None?
      ensures |list| <= INT_MAX ==> (r.Some? <==> ParseInt(line).Some? && 1 <= ParseInt(line).value <= |list|)
      ensures |list| <= INT_MAX && r.Some? ==> r.value == ParseInt(line).value - 1
    {
      var index := match ParseInt(line) case None => -1 case Some(n) => Wrap32(n - 1);
      if 0 <= index <= |list| - 1 then Some(index) else None
    }

    /**
     * `textAdoption(oldText, width)`: for each line of the text, its chunks
     * are added and the last cell is padded to `width`. The first line must
     * not be empty (there is no cell to pad otherwise).
     */
    method TextAdoption(oldText: string, width: nat) returns (listStr: seq<string>)
      requires width >= 1 && Lines(oldText)[0] != []
      ensures listStr == Adopted(Lines(oldText), width)
      ensures listStr != []
    {
      var lines := Lines(oldText);
      listStr := [];
      for i := 0 to |lines|
        invariant listStr == Adopted(lines[..i], width)
        invariant i > 0 ==> listStr != []
      {
        AdoptedWidth(lines[..i], width);
        listStr := AdoptLine(listStr, lines[i], width);
        AdoptedPrefix(lines, i, width);
      }
      assert lines[..|lines|] == lines;
    }

    /**
     * One pass of the loop of `textAdoption`: the chunks of `line` are added
     * to cells that are all `width` wide, and the last cell is padded.
     */
    method AdoptLine(cells: seq<string>, line: string, width: nat) returns (r: seq<string>)
      requires width >= 1 && (cells != [] || line != [])
      requires forall k :: 0 <= k < |cells| ==> |cells[k]| == width
      ensures r == cells + PaddedChunks(line, width)
    {
      r := cells + Chunked(line, width);
      AdoptLast(cells, line, width, r);
      var last := |r| - 1;
      var cell := r[last] + Repeat(' ', width - |r[last]|);
      AdoptPad(cells, line, width, r, cell);
      r := r[last := cell];
    }

    /**
     * `toString()` on day `today`: the header, then for every task its main
     * row, its continuation rows and a separator, joined by newlines. Every
     * task must have a readable date (for its `state`) and a body whose first
     * line is not empty (for `textAdoption`).
     */
    method ToString(today: int) returns (table: string)
      requires Showable(list)
      ensures table == JoinLines(TableOf(list, today))
    {
      ghost var t := TableOf(list, today);
      var rows := RowsOf(list, today);
      TableOfRows(list, today, rows);
      assert t == TableLines(rows);
      table := RenderRows(rows);
    }

    /**
     * The loop of `toString()` over the rows its tasks destructure to: the
     * `StringBuilder` starts with `TABLE_HEAD` and each task appends its block.
     */
    method RenderRows(rows: seq<Row>) returns (table: string)
      requires forall i :: 0 <= i < |rows| ==> Renderable(rows[i])
      ensures table == JoinLines(TableLines(rows))
    {
      TableUpToEnds(rows);
      HeadJoin();
      table := TABLE_HEAD;
      for index := 0 to |rows|
        invariant table == JoinLines(TableUpTo(rows, index))
      {
        ghost var before := TableUpTo(rows, index);
        TableUpToLength(rows, index);
        table := AppendBlock(table, before, index, rows[index]);
        TableUpToStep(rows, index);
      }
    }

    /**
     * One pass of the loop of `toString()`: the main row of task number
     * `index`, a continuation row for every further cell of its body, and the
     * separator, each after a newline.
     */
    method AppendBlock(table: string, ghost before: seq<string>, index: nat, row: Row) returns (r: string)
      requires Renderable(row) && |before| >= 1 && table == JoinLines(before)
      ensures r == JoinLines(before + TaskBlock(index, row))
    {
      var tableText := TextAdoption(row.text, TEXT_WIDTH);
      var main := MainLine(index, row, tableText[0]);
      ghost var rest := tableText[1..];
      BlockLinesStart(before, main);
      r := table + "\n" + main;
      for k := 0 to |tableText| - 1
        invariant r == JoinLines(before + [main] + SublimeLines(rest[..k]))
      {
        var sublime := SublimeLine(tableText[k + 1]);
        BlockLinesStep(before + [main], rest, k);
        r := r + "\n" + sublime;
      }
      BlockLinesEnd(before, main, rest);
      r := r + "\n" + BORDER;
      TaskBlockOf(index, row, tableText);
    }
  }

  /** Starting a block: the main row goes on a new line after the table so far. */
  lemma BlockLinesStart(before: seq<string>, main: string)
    requires |before| >= 1
    ensures JoinLines(before + [main] + SublimeLines([])) == JoinLines(before) + "\n" + main
  {
    JoinLinesSnoc(before, main);
    assert before + [main] + SublimeLines([]) == before + [main];
  }

  /** Each further cell of a body goes on a new line as a continuation row. */
  lemma BlockLinesStep(init: seq<string>, cells: seq<string>, k: nat)
    requires |init| >= 1 && k < |cells|
    ensures JoinLines(init + SublimeLines(cells[..k + 1])) == JoinLines(init + SublimeLines(cells[..k])) + "\n" + SublimeLine(cells[k])
  {
    SublimeLinesSnoc(cells, k);
    AppendAssoc(init, SublimeLines(cells[..k]), [SublimeLine(cells[k])]);
    JoinLinesSnoc(init + SublimeLines(cells[..k]), SublimeLine(cells[k]));
  }

  /** Closing a block: the separator goes on a new line after the last continuation row. */
  lemma BlockLinesEnd(before: seq<string>, main: string, cells: seq<string>)
    requires |before| >= 1
    ensures JoinLines(before + [main] + SublimeLines(cells[..|cells|])) + "\n" + BORDER
      == JoinLines(before + ([main] + SublimeLines(cells) + [BORDER]))
  {
    TakeAll(cells);
    var middle := SublimeLines(cells);
    JoinLinesSnoc(before + [main] + middle, BORDER);
    AppendAssoc(before, [main], middle);
    AppendAssoc(before, [main] + middle, [BORDER]);
  }

  /**
   * Editing the `task` field of a task and answering with a blank line leaves
   * an empty body, and nothing checks it again: `textAdoption` then has no
   * cell to pad, so such a task cannot be shown by `toString()`.
   */
  lemma BlankEditNotShowable(input: seq<string>)
    requires input != [] && IsBlank(input[0])
    ensures TypedLines(input) == [] && JoinLines(TypedLines(input)) == ""
    ensures Lines(JoinLines(TypedLines(input)))[0] == []
  {
    TrimEnds(input[0]);
  }

  /** Every number the table shows can be typed back to select that task. */
  lemma SelectShownNumber(l: TaskList, i: nat)
    requires i < |l.list| <= INT_MAX
    ensures l.SelectIndex(NatToString(i + 1)) == Some(i)
    ensures i < 99 ==> l.SelectIndex(Trim(IndexCell(i))) == Some(i)
  {
    if i < 99 {
      IndexCellNumber(i);
    }
    var line := NatToString(i + 1);
    ParseNatToString(i + 1, 0);
    assert ParseInt(line) == Some(i + 1);
    var r := l.SelectIndex(line);
    assert r.Some? && r.value == i;
  }
}
