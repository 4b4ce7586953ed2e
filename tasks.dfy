/**
 * Task records as the dashboard receives them from the task store, and the
 * normalisation of their due dates into instants (`new Date(task.dueDate)`).
 */
module Tasks {
  import opened Wrappers

  /** A due date: the ISO-8601 text the store sends, or the instant
      (milliseconds since the epoch, UTC) it has been turned into. */
  datatype Due = Text(iso: string) | At(ms: int)

  /** One task record. A missing `priority` field is `None`. */
  datatype Task = Task(
    title: string,
    description: string,
    dueDate: Due,
    priority: Option<string>,
    completed: bool,
    userId: string)

  /** Every due date has been turned into an instant. */
  predicate AllParsed(s: seq<Task>)
  {
    forall i :: 0 <= i < |s| ==> s[i].dueDate.At?
  }

  /** The numeric value of a parsed due date, which the sort comparator
      and the scales use. */
  function DueMs(t: Task): int
    requires t.dueDate.At?
  {
    t.dueDate.ms
  }

  /** `new Date(d)`: text is parsed by `parse`; an instant is copied. */
  function ToInstant(d: Due, parse: string -> int): (r: Due)
    ensures r.At?
    ensures d.At? ==> r == d
    ensures d.Text? ==> r.ms == parse(d.iso)
  {
    match d
    case Text(s) => At(parse(s))
    case At(ms) => At(ms)
  }

  /** One task after `task.dueDate = new Date(task.dueDate)`. */
  function Normalized(t: Task, parse: string -> int): Task
  {
    t.(dueDate := ToInstant(t.dueDate, parse))
  }

  /** The task list after the normalising `forEach`: same length, every due
      date an instant, every other field of every task as it was. */
  function NormalizeAll(s: seq<Task>, parse: string -> int): (r: seq<Task>)
    ensures |r| == |s| && AllParsed(r)
    ensures forall i :: 0 <= i < |s| ==>
      && r[i].title == s[i].title
      && r[i].description == s[i].description
      && r[i].priority == s[i].priority
      && r[i].completed == s[i].completed
      && r[i].userId == s[i].userId
    ensures forall i :: 0 <= i < |s| && s[i].dueDate.At? ==> r[i] == s[i]
    ensures forall i :: 0 <= i < |s| && s[i].dueDate.Text? ==>
      r[i].dueDate == At(parse(s[i].dueDate.iso))
  {
    seq(|s|, i requires 0 <= i < |s| => Normalized(s[i], parse))
  }

  /** Normalising twice is normalising once: an instant passed to
      `new Date` comes back unchanged. */
  lemma NormalizeIdempotent(s: seq<Task>, parse: string -> int)
    ensures NormalizeAll(NormalizeAll(s, parse), parse) == NormalizeAll(s, parse)
  {
  }

  /** The normalising loop of the renderer, in place on the caller's array. */
  method NormalizeDueDates(a: array<Task>, parse: string -> int)
    modifies a
    ensures a[..] == NormalizeAll(old(a[..]), parse)
  {
    for i := 0 to a.Length
      invariant forall k :: 0 <= k < i ==> a[k] == Normalized(old(a[k]), parse)
      invariant forall k :: i <= k < a.Length ==> a[k] == old(a[k])
    {
      a[i] := Normalized(a[i], parse);
    }
  }
}
