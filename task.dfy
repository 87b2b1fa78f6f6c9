/**
 * The `Task` entity: four mutable fields, the derived urgency `state`, the
 * per-field setters of the guided build (each applied to the console line it
 * is given), `addLn`, `setText`, `edit` and `isEmpty`.
 */
module Tasks {
  import opened Wrappers
  import opened Strings
  import opened Calendar
  import opened Symbols

  /** The five values `component1()`..`component5()` give a table row. */
  datatype Row = Row(date: string, time: string, priority: Priority, state: State, text: string)

  /** What an `edit` did with its input. */
  datatype EditOutcome = UnknownField | Rejected(field: Field) | Changed(field: Field)

  /** Every console line, trimmed. */
  function TrimmedLines(input: seq<string>): (ts: seq<string>)
    ensures |ts| == |input|
    ensures forall k :: 0 <= k < |input| ==> ts[k] == Trim(input[k])
  {
    seq(|input|, k requires 0 <= k < |input| => Trim(input[k]))
  }

  /** The position of the first empty string of `ls`, or `|ls|` when none is empty. */
  function FirstEmpty(ls: seq<string>): (n: nat)
    ensures n <= |ls|
    ensures forall k :: 0 <= k < n ==> ls[k] != []
    ensures n < |ls| ==> ls[n] == []
    decreases |ls|
  {
    if ls == [] || ls[0] == [] then 0 else 1 + FirstEmpty(ls[1..])
  }

  /**
   * The body lines `setText` keeps from the console: each line trimmed, up to
   * (not including) the first line that is blank once trimmed, or to the end
   * of the input.
   */
  function TypedLines(input: seq<string>): (ls: seq<string>)
    ensures |ls| <= |input|
    ensures forall i :: 0 <= i < |ls| ==> ls[i] == Trim(input[i]) && ls[i] != []
    ensures |ls| < |input| ==> Trim(input[|ls|]) == []
  {
    var ts := TrimmedLines(input);
    ts[..FirstEmpty(ts)]
  }

  /** A console line that is not blank once trimmed, reached before reading stopped, is kept. */
  lemma TypedStep(input: seq<string>, i: nat)
    requires i < |input| && Trim(input[i]) != [] && i <= |TypedLines(input)|
    ensures i < |TypedLines(input)| && TypedLines(input)[i] == Trim(input[i])
  {
  }

  /** `addLn` of the next non-empty line extends the join of a prefix by one line. */
  lemma AppendLinePrefix(ys: seq<string>, i: nat)
    requires i < |ys|
    requires forall k :: 0 <= k < |ys| ==> ys[k] != []
    ensures AppendLine(JoinLines(ys[..i]), ys[i]) == JoinLines(ys[..i + 1])
  {
    assert ys[..i + 1] == ys[..i] + [ys[i]];
    AppendLineJoins(ys[..i], ys[i]);
  }

  /** Reading stops at a blank line or at the end of the input, with every kept line read. */
  lemma TypedEnd(input: seq<string>, i: nat)
    requires i <= |TypedLines(input)| && (i == |input| || Trim(input[i]) == [])
    ensures TypedLines(input)[..i] == TypedLines(input)
    ensures JoinLines(TypedLines(input)) == [] <==> TypedLines(input) == []
  {
    var ls := TypedLines(input);
    assert i == |ls|;
    JoinLinesEmpty(ls);
  }

  /** The text `addLn(line)` leaves: `line` after a newline, or alone when the text was empty. */
  function AppendLine(text: string, line: string): (r: string)
    ensures text == "" ==> r == line
    ensures text != "" && text[|text| - 1] != '\r' ==> Lines(r) == Lines(text) + Lines(line)
  {
    if text == "" then line
    else if text[|text| - 1] != '\r' then LinesJoin(text, line); text + "\n" + line
    else text + "\n" + line
  }

  /** Adding non-empty lines one by one with `addLn` builds their newline join. */
  lemma AppendLineJoins(xs: seq<string>, line: string)
    requires forall i :: 0 <= i < |xs| ==> xs[i] != []
    ensures AppendLine(JoinLines(xs), line) == JoinLines(xs + [line])
  {
    JoinLinesEmpty(xs);
    if xs != [] {
      JoinLinesSnoc(xs, line);
    }
  }

  /** A body built by `setText` from at least one line can be laid out: its first line is not empty. */
  lemma TypedTextFirstLine(input: seq<string>)
    requires TypedLines(input) != []
    ensures Lines(JoinLines(TypedLines(input)))[0] != []
  {
    var ls := TypedLines(input);
    var s := JoinLines(ls);
    TrimEnds(input[0]);
    assert s[0] == ls[0][0];
    FirstLineEmpty(s);
  }

  /** The lines `setText` keeps are the lines `lines()` finds in the body, when none holds a break. */
  lemma TypedTextLines(input: seq<string>)
    requires TypedLines(input) != []
    requires forall i :: 0 <= i < |TypedLines(input)| ==> NoLineBreaks(TypedLines(input)[i])
    ensures Lines(JoinLines(TypedLines(input))) == TypedLines(input)
  {
    LinesOfJoin(TypedLines(input));
  }

  /**
   * `state` against the calendar: with `today` the current date, the task is
   * in time when its date is later, overdue when earlier, and due today on
   * that very date.
   */
  lemma StateFollowsCalendar(due: Date, today: Date)
    requires ValidDate(due) && ValidDate(today)
    ensures Urgency(DaysUntil(today, due)) == InTime <==> Before(today, due)
    ensures Urgency(DaysUntil(today, due)) == Overdue <==> Before(due, today)
    ensures Urgency(DaysUntil(today, due)) == Today <==> due == today
  {
    EpochDayOrder(today, due);
    EpochDayOrder(due, today);
  }

  /** With today 2024-06-10: due 2024-06-15 is in time, 2024-06-05 overdue, 2024-06-10 today. */
  lemma StateExamples()
    ensures Urgency(DaysUntil(Date(2024, 6, 10), Date(2024, 6, 15))) == InTime
    ensures Urgency(DaysUntil(Date(2024, 6, 10), Date(2024, 6, 5))) == Overdue
    ensures Urgency(DaysUntil(Date(2024, 6, 10), Date(2024, 6, 10))) == Today
  {
    StateFollowsCalendar(Date(2024, 6, 15), Date(2024, 6, 10));
    StateFollowsCalendar(Date(2024, 6, 5), Date(2024, 6, 10));
  }

  class Task {
    var date: string
    var time: string
    var priority: Priority
    var text: string

    /** `Task(date, time, priority, text)` */
    constructor (date: string, time: string, priority: Priority, text: string)
      ensures this.date == date && this.time == time && this.priority == priority && this.text == text
    {
      this.date := date;
      this.time := time;
      this.priority := priority;
      this.text := text;
    }

    /** `Task()`: the blank task, with the `NULL` priority and empty strings. */
    constructor Blank()
      ensures date == "" && time == "" && priority == NULL && text == ""
      ensures IsEmpty()
    {
      date := "";
      time := "";
      priority := NULL;
      text := "";
    }

    /** `isEmpty()`: exactly when `lines()` of the body is one empty line, which `textAdoption` cannot lay out. */
    predicate IsEmpty()
      reads this
      ensures IsEmpty() <==> Lines(text) == [[]]
    {
      OnlyEmptyLine(text);
      text == ""
    }

    /** The date string is one `dateLD` can read (it raises otherwise). */
    predicate HasDate()
      reads this
    {
      ParseDate(date).Some?
    }

    /** `dateLD`: the calendar date the date string denotes. */
    function DateLD(): (d: Date)
      reads this
      requires HasDate()
      ensures ValidDate(d) && d.year >= 0
      ensures date == AcceptDate(date).value ==> DateString(d) == date
    {
      ParseDate(date).value
    }

    /**
     * `state`, with `today` the current day number in place of the clock:
     * the days until the due date decide, and exactly one state applies.
     */
    function StateOn(today: int): (s: State)
      reads this
      requires HasDate()
      ensures s == InTime <==> today < EpochDay(DateLD())
      ensures s == Today <==> today == EpochDay(DateLD())
      ensures s == Overdue <==> today > EpochDay(DateLD())
    {
      Urgency(EpochDay(DateLD()) - today)
    }

    /** `component1()`..`component5()`: date, time, priority, state, text. */
    function Components(today: int): (r: Row)
      reads this
      requires HasDate()
      ensures r.date == date && r.time == time && r.priority == priority && r.text == text
      ensures r.state == StateOn(today)
    {
      Row(date, time, priority, StateOn(today), text)
    }

    /** `setPriority` on one line: the line, upper-cased, must be a priority symbol. */
    method SetPriority(line: string) returns (accepted: bool)
      modifies this
      ensures accepted <==> exists p :: PrioritySymbol(p) == ToUpper(line)
      ensures accepted ==> PrioritySymbol(priority) == ToUpper(line)
      ensures !accepted ==> unchanged(this`priority)
      ensures unchanged(this`date, this`time, this`text)
    {
      var p := FindPriority(ToUpper(line));
      if p.Some? {
        priority := p.value;
        accepted := true;
      } else {
        accepted := false;
      }
    }

    /** `setDate` on one line: an accepted line stores its canonical `yyyy-mm-dd` form. */
    method SetDate(line: string) returns (accepted: bool)
      modifies this
      ensures accepted <==> AcceptDate(line).Some?
      ensures date == if accepted then AcceptDate(line).value else old(date)
      ensures unchanged(this`time, this`priority, this`text)
    {
      var input := AcceptDate(line);
      accepted := input.Some?;
      if accepted {
        date := input.value;
      }
    }

    /** `setTime` on one line: an accepted line stores its canonical `hh:mm` form. */
    method SetTime(line: string) returns (accepted: bool)
      modifies this
      ensures accepted <==> AcceptTime(line).Some?
      ensures time == if accepted then AcceptTime(line).value else old(time)
      ensures unchanged(this`date, this`priority, this`text)
    {
      var input := AcceptTime(line);
      accepted := input.Some?;
      if accepted {
        time := input.value;
      }
    }

    /** `addLn(line)` */
    method AddLn(line: string)
      modifies this
      ensures text == AppendLine(old(text), line)
      ensures unchanged(this`date, this`time, this`priority)
    {
      text := text + (if text == "" then "" else "\n") + line;
    }

    /**
     * `setText` reading the console lines `input`: the body is reset, then
     * every trimmed line before the first blank one is added. `consumed` is
     * the number of lines read, the terminating blank line included.
     */
    method SetText(input: seq<string>) returns (consumed: nat)
      modifies this
      ensures text == JoinLines(TypedLines(input))
      ensures IsEmpty() <==> TypedLines(input) == []
      ensures consumed == if |TypedLines(input)| < |input| then |TypedLines(input)| + 1 else |input|
      ensures unchanged(this`date, this`time, this`priority)
    {
      ghost var typed := TypedLines(input);
      text := "";
      var i := 0;
      while i < |input| && Trim(input[i]) != ""
        invariant 0 <= i <= |typed|
        invariant text == JoinLines(typed[..i])
        invariant unchanged(this`date, this`time, this`priority)
      {
        var line := Trim(input[i]);
        TypedStep(input, i);
        AppendLinePrefix(typed, i);
        AddLn(line);
        i := i + 1;
      }
      TypedEnd(input, i);
      consumed := if i < |input| then i + 1 else i;
    }

    /**
     * `build()` with one console answer per prompt: each field whose answer
     * is accepted is set, a rejected answer leaves its field as it was (the
     * console would ask again), and `ok` says that all three were accepted.
     */
    method Build(priorityLine: string, dateLine: string, timeLine: string, textInput: seq<string>)
      returns (ok: bool)
      modifies this
      ensures ok <==>
        && (exists p :: PrioritySymbol(p) == ToUpper(priorityLine))
        && AcceptDate(dateLine).Some?
        && AcceptTime(timeLine).Some?
      ensures if exists p :: PrioritySymbol(p) == ToUpper(priorityLine)
        then PrioritySymbol(priority) == ToUpper(priorityLine)
        else unchanged(this`priority)
      ensures date == if AcceptDate(dateLine).Some? then AcceptDate(dateLine).value else old(date)
      ensures time == if AcceptTime(timeLine).Some? then AcceptTime(timeLine).value else old(time)
      ensures text == JoinLines(TypedLines(textInput))
    {
      var p := SetPriority(priorityLine);
      var d := SetDate(dateLine);
      var t := SetTime(timeLine);
      var _ := SetText(textInput);
      ok := p && d && t;
    }

    /**
     * `edit()` with the field line and the console lines that follow it: the
     * lower-cased field line picks the field, and only that field is given
     * the value the following input yields; the others keep their values.
     * Editing `task` replaces the whole body and may leave it empty.
     */
    method Edit(fieldLine: string, input: seq<string>) returns (outcome: EditOutcome)
      modifies this
      ensures outcome.UnknownField? <==> forall f :: FieldSymbol(f) != ToLower(fieldLine)
      ensures !outcome.UnknownField? ==> FieldSymbol(outcome.field) == ToLower(fieldLine)
      ensures !outcome.Changed? ==>
        unchanged(this`date, this`time, this`priority, this`text)
      ensures outcome == Changed(PriorityField) ==>
        && |input| > 0 && PrioritySymbol(priority) == ToUpper(input[0])
        && unchanged(this`date, this`time, this`text)
      ensures outcome == Rejected(PriorityField) ==>
        |input| == 0 || forall p :: PrioritySymbol(p) != ToUpper(input[0])
      ensures outcome == Changed(DateField) ==>
        && |input| > 0 && AcceptDate(input[0]) == Some(date)
        && unchanged(this`time, this`priority, this`text)
      ensures outcome == Rejected(DateField) ==> |input| == 0 || AcceptDate(input[0]).None?
      ensures outcome == Changed(TimeField) ==>
        && |input| > 0 && AcceptTime(input[0]) == Some(time)
        && unchanged(this`date, this`priority, this`text)
      ensures outcome == Rejected(TimeField) ==> |input| == 0 || AcceptTime(input[0]).None?
      ensures outcome == Changed(TaskField) ==>
        && text == JoinLines(TypedLines(input))
        && unchanged(this`date, this`time, this`priority)
      ensures outcome != Rejected(TaskField)
    {
      var inputField := FindField(ToLower(fieldLine));
      if inputField.None? {
        return UnknownField;
      }
      var field := inputField.value;
      if field == TaskField {
        var _ := SetText(input);
        return Changed(TaskField);
      }
      if |input| == 0 {
        return Rejected(field);
      }
      var accepted: bool;
      match field {
        case PriorityField => accepted := SetPriority(input[0]);
        case DateField => accepted := SetDate(input[0]);
        case TimeField => accepted := SetTime(input[0]);
      }
      outcome := if accepted then Changed(field) else Rejected(field);
    }
  }
}
