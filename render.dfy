/**
 * The data step of `renderTasksAsBubbles`: normalise the caller's task array
 * in place, sort it in place, compute the x domain, and derive the circle
 * and label attributes of every task.
 */
module Render {
  import opened Wrappers
  import opened Tasks
  import opened Ordering
  import opened Layout

  /** The task list as the chart draws it: due dates parsed, then sorted. */
  function Prepared(s: seq<Task>, parse: string -> int): (r: seq<Task>)
    ensures AllParsed(r)
  {
    SortByDue(NormalizeAll(s, parse))
  }

  /** Preparing keeps the task count and every task (up to its parsed due
      date), orders them by due date, and keeps the input order of tasks
      due at the same instant. */
  lemma PreparedKeepsTasks(s: seq<Task>, parse: string -> int)
    ensures |Prepared(s, parse)| == |s|
    ensures SortedByDue(Prepared(s, parse))
    ensures multiset(Prepared(s, parse)) == multiset(NormalizeAll(s, parse))
    ensures forall k :: OfDue(Prepared(s, parse), k) == OfDue(NormalizeAll(s, parse), k)
  {
    var n := NormalizeAll(s, parse);
    SortByDueSorted(n);
    SortByDuePermutes(n);
    forall k
      ensures OfDue(SortByDue(n), k) == OfDue(n, k)
    {
      SortByDueStable(n, k);
    }
  }

  /** On the prepared list the domain runs from a day before the first task
      to a day after the last, and an increasing x scale draws the bubbles
      left to right. */
  lemma PreparedChart(s: seq<Task>, parse: string -> int,
                      xScale: int -> real, yScale: int -> real, offsetMs: int)
    requires |s| > 0 && NonDecreasing(xScale)
    ensures var r := Prepared(s, parse);
      && TimeDomain(r) == Domain(DueMs(r[0]) - MsPerDay, DueMs(r[|r| - 1]) + MsPerDay)
      && var b := Bubbles(r, xScale, yScale, offsetMs);
         forall i, j :: 0 <= i < j < |b| ==> b[i].cx <= b[j].cx
  {
    var r := Prepared(s, parse);
    PreparedKeepsTasks(s, parse);
    DomainOfSorted(r);
    BubblesLeftToRight(r, xScale, yScale, offsetMs);
  }

  /** Two tasks as the store sends them, a HIGH one due
      "2024-03-10T09:00:00Z" and a LOW one due "2024-03-08T14:00:00Z", with
      `parse` reading those texts as their instants: the LOW one is drawn
      first, green, then the HIGH one, red. */
  lemma TwoTaskExample(parse: string -> int, xScale: int -> real, yScale: int -> real)
    requires parse("2024-03-10T09:00:00Z") == 1_710_061_200_000
    requires parse("2024-03-08T14:00:00Z") == 1_709_906_400_000
    ensures var high := Task("a", "", Text("2024-03-10T09:00:00Z"), Some("HIGH"), false, "1");
      var low := Task("b", "", Text("2024-03-08T14:00:00Z"), Some("LOW"), false, "1");
      var r := Prepared([high, low], parse);
      && r == [low.(dueDate := At(1_709_906_400_000)), high.(dueDate := At(1_710_061_200_000))]
      && Bubbles(r, xScale, yScale, 0)[0].fill == "green"
      && Bubbles(r, xScale, yScale, 0)[1].fill == "red"
  {
    var high := Task("a", "", At(1_710_061_200_000), Some("HIGH"), false, "1");
    var low := Task("b", "", At(1_709_906_400_000), Some("LOW"), false, "1");
    var n := NormalizeAll([high.(dueDate := Text("2024-03-10T09:00:00Z")),
                           low.(dueDate := Text("2024-03-08T14:00:00Z"))], parse);
    assert n == [high, low];
    assert n[..1] == [high];
    assert [high][..0] == [];
    assert Insert([], high) == [high];
    assert SortByDue([high]) == [high];
    assert Insert([high], low) == Insert([], low) + [high];
  }

  /** `renderTasksAsBubbles`, up to the drawing calls: the caller's array is
      left normalised and sorted, and the domain and every bubble's
      attributes are those of the sorted list. The x scale is built from the
      domain; `xScaleFor` stands for `d3.scaleTime()` over the drawing
      width. On an empty list `d3.min` and `d3.max` give `undefined`, so
      there is no domain (`None`), and no bubble is drawn. */
  method RenderTasksAsBubbles(a: array<Task>, parse: string -> int, offsetMs: int,
                              xScaleFor: Domain -> (int -> real), yScale: int -> real)
    returns (domain: Option<Domain>, bubbles: seq<Bubble>)
    modifies a
    ensures a[..] == Prepared(old(a[..]), parse)
    ensures a.Length == 0 ==> domain == None && bubbles == []
    ensures a.Length > 0 ==> domain == Some(TimeDomain(a[..]))
    ensures a.Length > 0 ==> bubbles == Bubbles(a[..], xScaleFor(domain.value), yScale, offsetMs)
  {
    NormalizeDueDates(a, parse);
    SortInPlace(a);
    if a.Length == 0 {
      domain, bubbles := None, [];
    } else {
      var d := TimeDomain(a[..]);
      domain := Some(d);
      bubbles := Bubbles(a[..], xScaleFor(d), yScale, offsetMs);
    }
  }
}
