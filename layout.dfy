/**
 * Where and how each task is drawn: the horizontal time domain, the
 * time-of-day key of the vertical axis, the radius and fill chosen from the
 * priority, and the position of the title label. The two d3 time scales are
 * parameters (`int -> real`); only their monotonicity is assumed, by the
 * lemmas that need it.
 */
module Layout {
  import opened Wrappers
  import opened Tasks
  import opened Ordering

  const MsPerMinute := 60_000
  const MsPerHour := 3_600_000
  /** `d3.timeDay.offset(d, ±1)`, taken as a fixed day (no daylight-saving
      change inside it). */
  const MsPerDay := 86_400_000
  const MinutesPerDay := 1440

  /** Bubble radius by priority, and the radius of any other priority. */
  const PriorityScale: map<string, int> := map["HIGH" := 50, "MEDIUM" := 35, "LOW" := 20]
  const DefaultRadius := 30
  /** Gap between a bubble's lowest point and its title label. */
  const LabelGap := 15

  /** A scale that never maps a later input left of (or above) an earlier one. */
  ghost predicate NonDecreasing(f: int -> real)
  {
    forall u, v :: u <= v ==> f(u) <= f(v)
  }

  // ---------------------------------------------------------------------
  // Horizontal domain
  // ---------------------------------------------------------------------

  datatype Domain = Domain(start: int, end: int)

  /** `d3.min(tasks, task => task.dueDate)`. */
  function EarliestDue(s: seq<Task>): (m: int)
    requires |s| > 0 && AllParsed(s)
    ensures forall i :: 0 <= i < |s| ==> m <= DueMs(s[i])
    ensures exists i :: 0 <= i < |s| && DueMs(s[i]) == m
  {
    if |s| == 1 then DueMs(s[0])
    else
      var rest := EarliestDue(s[1..]);
      assert forall i :: 1 <= i < |s| ==> s[i] == s[1..][i - 1];
      if DueMs(s[0]) <= rest then DueMs(s[0]) else rest
  }

  /** `d3.max(tasks, task => task.dueDate)`. */
  function LatestDue(s: seq<Task>): (m: int)
    requires |s| > 0 && AllParsed(s)
    ensures forall i :: 0 <= i < |s| ==> DueMs(s[i]) <= m
    ensures exists i :: 0 <= i < |s| && DueMs(s[i]) == m
  {
    if |s| == 1 then DueMs(s[0])
    else
      var rest := LatestDue(s[1..]);
      assert forall i :: 1 <= i < |s| ==> s[i] == s[1..][i - 1];
      if DueMs(s[0]) >= rest then DueMs(s[0]) else rest
  }

  /** The x-scale domain: a day before the earliest due date to a day after
      the latest. Every task lies strictly inside it, and each end is a day
      away from some task's due date. */
  function TimeDomain(s: seq<Task>): (d: Domain)
    requires |s| > 0 && AllParsed(s)
    ensures forall i :: 0 <= i < |s| ==>
      d.start + MsPerDay <= DueMs(s[i]) <= d.end - MsPerDay
    ensures forall i :: 0 <= i < |s| ==> d.start < DueMs(s[i]) < d.end
    ensures exists i :: 0 <= i < |s| && DueMs(s[i]) == d.start + MsPerDay
    ensures exists i :: 0 <= i < |s| && DueMs(s[i]) == d.end - MsPerDay
  {
    Domain(EarliestDue(s) - MsPerDay, LatestDue(s) + MsPerDay)
  }

  /** On the sorted list the domain is set by its first and last tasks. */
  lemma DomainOfSorted(s: seq<Task>)
    requires |s| > 0 && AllParsed(s) && SortedByDue(s)
    ensures TimeDomain(s) == Domain(DueMs(s[0]) - MsPerDay, DueMs(s[|s| - 1]) + MsPerDay)
  {
  }

  // ---------------------------------------------------------------------
  // Vertical key: the local time of day
  // ---------------------------------------------------------------------

  /** `getHours()`: whole hours of the local day; `offsetMs` is the local
      time zone's offset from UTC. */
  function Hours(t: int, offsetMs: int): (h: int)
    ensures 0 <= h < 24
  {
    ((t + offsetMs) / MsPerHour) % 24
  }

  /** `getMinutes()`: whole minutes of the local hour. */
  function Minutes(t: int, offsetMs: int): (m: int)
    ensures 0 <= m < 60
  {
    ((t + offsetMs) / MsPerMinute) % 60
  }

  /** Minutes after midnight of `new Date(0, 0, 0, hours, minutes)`: the
      point the y scale, spanning midnight to midnight, places the bubble
      at. */
  function TimeOfDay(t: int, offsetMs: int): (k: int)
    ensures 0 <= k < MinutesPerDay
  {
    Hours(t, offsetMs) * 60 + Minutes(t, offsetMs)
  }

  /** Integer division and remainder are determined by any decomposition
      `x == q * n + r` with `0 <= r < n`. */
  lemma DivModUnique(x: int, n: int, q: int, r: int)
    requires n > 0 && 0 <= r < n && x == q * n + r
    ensures x / n == q && x % n == r
  {
    var q', r' := x / n, x % n;
    assert x == q' * n + r';
    if q' < q {
      MulGap(q, q', n);
    } else if q' > q {
      MulGap(q', q, n);
    }
  }

  lemma {:induction false} MulGap(a: int, b: int, n: int)
    requires a > b && n > 0
    ensures a * n >= b * n + n
    decreases a - b
  {
    assert a * n == (a - 1) * n + n;
    if a - 1 > b {
      MulGap(a - 1, b, n);
    }
  }

  /** The key is the local minute counted from the epoch, taken modulo a
      day: seconds and milliseconds do not enter it. */
  lemma TimeOfDayIsMinuteOfDay(t: int, offsetMs: int)
    ensures TimeOfDay(t, offsetMs) == ((t + offsetMs) / MsPerMinute) % MinutesPerDay
  {
    var l := t + offsetMs;
    var m := l / MsPerMinute;
    var h := m / 60;
    DivModUnique(l, MsPerHour, h, (m % 60) * MsPerMinute + l % MsPerMinute);
    DivModUnique(m, MinutesPerDay, h / 24, (h % 24) * 60 + m % 60);
  }

  /** A local clock reading of `hour:minute` on any day, at any second and
      millisecond, has key `hour * 60 + minute`. */
  lemma {:induction false} TimeOfDayOfClock(t: int, offsetMs: int, day: int, hour: int, minute: int, sub: int)
    requires 0 <= hour < 24 && 0 <= minute < 60 && 0 <= sub < MsPerMinute
    requires t + offsetMs == day * MsPerDay + hour * MsPerHour + minute * MsPerMinute + sub
    ensures TimeOfDay(t, offsetMs) == hour * 60 + minute
  {
    var m := day * MinutesPerDay + hour * 60 + minute;
    DivModUnique(t + offsetMs, MsPerMinute, m, sub);
    DivModUnique(m, MinutesPerDay, day, hour * 60 + minute);
    TimeOfDayIsMinuteOfDay(t, offsetMs);
  }

  /** Moving a due date by whole days leaves its key unchanged. */
  lemma {:induction false} TimeOfDayIgnoresDate(t: int, offsetMs: int, days: int)
    ensures TimeOfDay(t + days * MsPerDay, offsetMs) == TimeOfDay(t, offsetMs)
  {
    var l := t + offsetMs;
    var m := l / MsPerMinute;
    DivModUnique(l + days * MsPerDay, MsPerMinute, m + days * MinutesPerDay, l % MsPerMinute);
    DivModUnique(m + days * MinutesPerDay, MinutesPerDay, m / MinutesPerDay + days, m % MinutesPerDay);
    TimeOfDayIsMinuteOfDay(t, offsetMs);
    TimeOfDayIsMinuteOfDay(t + days * MsPerDay, offsetMs);
  }

  // ---------------------------------------------------------------------
  // Radius, fill and label
  // ---------------------------------------------------------------------

  /** `priorityScale[d.priority] || 30`. */
  function Radius(priority: Option<string>): (r: int)
    ensures 20 <= r <= 50
  {
    match priority
    case Some(p) => if p in PriorityScale then PriorityScale[p] else DefaultRadius
    case None => DefaultRadius
  }

  /** The radius rule, case by case. */
  lemma RadiusByPriority(priority: Option<string>)
    ensures Radius(priority) == 50 <==> priority == Some("HIGH")
    ensures Radius(priority) == 35 <==> priority == Some("MEDIUM")
    ensures Radius(priority) == 20 <==> priority == Some("LOW")
    ensures Radius(priority) == DefaultRadius <==>
      priority !in {Some("HIGH"), Some("MEDIUM"), Some("LOW")}
  {
  }

  /** The fill rule: red for HIGH, green for LOW, yellow for everything else. */
  function Fill(priority: Option<string>): (c: string)
    ensures c in {"red", "green", "yellow"}
  {
    if priority == Some("HIGH") then "red"
    else if priority == Some("LOW") then "green"
    else "yellow"
  }

  /** Colour and size agree at the extremes: the largest bubbles are red,
      the smallest green, all others (MEDIUM, unknown, missing) yellow. */
  lemma FillMatchesRadius(priority: Option<string>)
    ensures Fill(priority) == "red" <==> Radius(priority) == 50
    ensures Fill(priority) == "green" <==> Radius(priority) == 20
    ensures Fill(priority) == "yellow" <==> Radius(priority) in {30, 35}
  {
  }

  /** The title label's y: below the bubble's centre by its radius plus the
      gap, hence at least 35 below the centre. */
  function LabelY(cy: real, priority: Option<string>): (y: real)
    ensures y >= cy + 35.0
    ensures y - (cy + Radius(priority) as real) == LabelGap as real
  {
    cy + Radius(priority) as real + LabelGap as real
  }

  // ---------------------------------------------------------------------
  // Bubbles
  // ---------------------------------------------------------------------

  /** The attributes the renderer sets on a task's circle and title text. */
  datatype Bubble = Bubble(
    cx: real, cy: real, r: int, fill: string,
    labelX: real, labelY: real, title: string)

  function BubbleOf(t: Task, xScale: int -> real, yScale: int -> real, offsetMs: int): Bubble
    requires t.dueDate.At?
  {
    var cy := yScale(TimeOfDay(DueMs(t), offsetMs));
    Bubble(xScale(DueMs(t)), cy, Radius(t.priority), Fill(t.priority),
      xScale(DueMs(t)), LabelY(cy, t.priority), t.title)
  }

  /** One bubble per task, in list order: placed by due instant across and
      by local time of day down, sized and coloured by priority, with the
      task's title centred under it. */
  function Bubbles(s: seq<Task>, xScale: int -> real, yScale: int -> real, offsetMs: int): (r: seq<Bubble>)
    requires AllParsed(s)
    ensures |r| == |s|
    ensures forall i :: 0 <= i < |s| ==>
      && r[i].cx == xScale(DueMs(s[i]))
      && r[i].cy == yScale(TimeOfDay(DueMs(s[i]), offsetMs))
      && r[i].r == Radius(s[i].priority)
      && r[i].fill == Fill(s[i].priority)
      && r[i].labelX == r[i].cx
      && r[i].labelY == r[i].cy + r[i].r as real + LabelGap as real
      && r[i].labelY >= r[i].cy + 35.0
      && r[i].title == s[i].title
  {
    seq(|s|, i requires 0 <= i < |s| => BubbleOf(s[i], xScale, yScale, offsetMs))
  }

  /** Every label sits under its own bubble, horizontally centred on it, a
      radius plus 15 below the centre and so at least 35 below it; the
      bubble shows the task's title, priority size and colour. */
  lemma LabelsBelowBubbles(s: seq<Task>, xScale: int -> real, yScale: int -> real, offsetMs: int)
    requires AllParsed(s)
    ensures forall b :: b in Bubbles(s, xScale, yScale, offsetMs) ==>
      && b.labelX == b.cx
      && b.labelY == b.cy + b.r as real + LabelGap as real
      && b.labelY >= b.cy + 35.0
    ensures forall i :: 0 <= i < |s| ==>
      var b := Bubbles(s, xScale, yScale, offsetMs)[i];
      b.title == s[i].title && b.r == Radius(s[i].priority) && b.fill == Fill(s[i].priority)
  {
  }

  /** On the sorted list an increasing x scale puts the bubbles left to
      right. */
  lemma BubblesLeftToRight(s: seq<Task>, xScale: int -> real, yScale: int -> real, offsetMs: int)
    requires AllParsed(s) && SortedByDue(s) && NonDecreasing(xScale)
    ensures var r := Bubbles(s, xScale, yScale, offsetMs);
      forall i, j :: 0 <= i < j < |r| ==> r[i].cx <= r[j].cx
  {
  }

  /** The height of a bubble depends on its local time of day only: tasks at
      the same clock minute share it, and an increasing y scale puts an
      earlier time of day no lower on the chart's scale. */
  lemma BubbleHeightByTimeOfDay(s: seq<Task>, xScale: int -> real, yScale: int -> real, offsetMs: int)
    requires AllParsed(s) && NonDecreasing(yScale)
    ensures var r := Bubbles(s, xScale, yScale, offsetMs);
      forall i, j :: 0 <= i < |r| && 0 <= j < |r| ==>
        (TimeOfDay(DueMs(s[i]), offsetMs) == TimeOfDay(DueMs(s[j]), offsetMs) ==> r[i].cy == r[j].cy)
        && (TimeOfDay(DueMs(s[i]), offsetMs) <= TimeOfDay(DueMs(s[j]), offsetMs) ==> r[i].cy <= r[j].cy)
  {
  }
}
