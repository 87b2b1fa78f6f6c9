/**
 * The `Priority`, `Field` and `State` enumerations with their symbols and
 * colour markers, and the symbol lookups `findPriority` and `findField`.
 */
module Symbols {
  import opened Wrappers

  /** `Priority`; `NULL` is the sentinel of a task that has not been built. */
  datatype Priority = Critical | High | Normal | Low | NULL

  function PrioritySymbol(p: Priority): string {
    match p
    case Critical => "C"
    case High => "H"
    case Normal => "N"
    case Low => "L"
    case NULL => "NULL"
  }

  /** The `colorSymbol` of each priority: an ANSI background-colour cell, or `"NULL"` for the sentinel. */
  const PRIORITY_COLORS: map<Priority, string> := map[
    Critical := "\U{1B}[101m \U{1B}[0m",
    High := "\U{1B}[103m \U{1B}[0m",
    Normal := "\U{1B}[102m \U{1B}[0m",
    Low := "\U{1B}[104m \U{1B}[0m",
    NULL := "NULL"]

  /**
   * An ANSI background-colour escape, one blank and the reset: on a terminal
   * it shows as a single coloured cell.
   */
  predicate ColorCell(c: string) {
    && |c| == 11 && c[..2] == "\U{1B}["
    && (forall k :: 2 <= k < 5 ==> '0' <= c[k] <= '9')
    && c[5..] == "m \U{1B}[0m"
  }

  /** `Priority.toString()`: one coloured cell for a real priority, the text `NULL` for the sentinel. */
  function PriorityColor(p: Priority): (c: string)
    ensures p != NULL <==> ColorCell(c)
    ensures p == NULL ==> c == "NULL"
  {
    assert p in PRIORITY_COLORS by { assert p == Critical || p == High || p == Normal || p == Low || p == NULL; }
    PRIORITY_COLORS[p]
  }

  /** `Priority.values()`, in declaration order. */
  const PRIORITIES: seq<Priority> := [Critical, High, Normal, Low, NULL]

  datatype Field = PriorityField | DateField | TimeField | TaskField

  function FieldSymbol(f: Field): string {
    match f
    case PriorityField => "priority"
    case DateField => "date"
    case TimeField => "time"
    case TaskField => "task"
  }

  /** `Field.values()`, in declaration order. */
  const FIELDS: seq<Field> := [PriorityField, DateField, TimeField, TaskField]

  /** Urgency, derived from the days left until the due date. */
  datatype State = InTime | Today | Overdue

  /** The `colorSymbol` of each state: an ANSI background-colour cell. */
  const STATE_COLORS: map<State, string> := map[
    InTime := "\U{1B}[102m \U{1B}[0m",
    Today := "\U{1B}[103m \U{1B}[0m",
    Overdue := "\U{1B}[101m \U{1B}[0m"]

  /** `State.toString()`: every state shows as one coloured cell. */
  function StateColor(s: State): (c: string)
    ensures ColorCell(c)
  {
    assert s in STATE_COLORS by { assert s == InTime || s == Today || s == Overdue; }
    STATE_COLORS[s]
  }

  /** The `when` of `Task.state`: more than zero days left is in time, fewer is overdue. */
  function Urgency(numberOfDays: int): (s: State)
    ensures s == InTime <==> numberOfDays > 0
    ensures s == Today <==> numberOfDays == 0
    ensures s == Overdue <==> numberOfDays < 0
  {
    if numberOfDays > 0 then InTime
    else if numberOfDays < 0 then Overdue
    else Today
  }

  lemma PrioritiesListed(p: Priority)
    ensures p in PRIORITIES
  {
  }

  lemma FieldsListed(f: Field)
    ensures f in FIELDS
  {
  }

  /** No two priorities share a symbol, so a symbol names at most one priority. */
  lemma PrioritySymbolsDistinct(p: Priority, q: Priority)
    ensures PrioritySymbol(p) == PrioritySymbol(q) ==> p == q
  {
  }

  lemma FieldSymbolsDistinct(f: Field, g: Field)
    ensures FieldSymbol(f) == FieldSymbol(g) ==> f == g
  {
  }

  /**
   * `findPriority(symbol)`: the first priority in declaration order whose
   * symbol is `symbol`, which is the only one; `None` when there is none.
   */
  method FindPriority(symbol: string) returns (r: Option<Priority>)
    ensures forall p :: r == Some(p) <==> PrioritySymbol(p) == symbol
  {
    var i := 0;
    while i < |PRIORITIES|
      invariant 0 <= i <= |PRIORITIES|
      invariant forall j :: 0 <= j < i ==> PrioritySymbol(PRIORITIES[j]) != symbol
    {
      var priority := PRIORITIES[i];
      if symbol == PrioritySymbol(priority) {
        forall p ensures PrioritySymbol(p) == symbol ==> p == priority {
          PrioritySymbolsDistinct(p, priority);
        }
        return Some(priority);
      }
      i := i + 1;
    }
    forall p ensures PrioritySymbol(p) != symbol {
      PrioritiesListed(p);
    }
    return None;
  }

  /** `findField(symbol)`: the field whose symbol is `symbol`, or `None`. */
  method FindField(symbol: string) returns (r: Option<Field>)
    ensures forall f :: r == Some(f) <==> FieldSymbol(f) == symbol
  {
    var i := 0;
    while i < |FIELDS|
      invariant 0 <= i <= |FIELDS|
      invariant forall j :: 0 <= j < i ==> FieldSymbol(FIELDS[j]) != symbol
    {
      var field := FIELDS[i];
      if symbol == FieldSymbol(field) {
        forall f ensures FieldSymbol(f) == symbol ==> f == field {
          FieldSymbolsDistinct(f, field);
        }
        return Some(field);
      }
      i := i + 1;
    }
    forall f ensures FieldSymbol(f) != symbol {
      FieldsListed(f);
    }
    return None;
  }
}
