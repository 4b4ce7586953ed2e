/**
 * `tasks.sort((a, b) => a.dueDate - b.dueDate)`: a stable sort by due
 * instant, ascending. `SortByDue` is the reference result (insertion from the
 * right); `SortedAndStableIsUnique` shows that every sorted, stable
 * rearrangement equals it, so it stands for whatever stable algorithm the
 * JavaScript engine uses. `SortInPlace` computes it on the array.
 */
module Ordering {
  import opened Tasks

  /** Due instants never decrease along `s`. */
  predicate SortedByDue(s: seq<Task>)
    requires AllParsed(s)
  {
    forall i, j :: 0 <= i < j < |s| ==> DueMs(s[i]) <= DueMs(s[j])
  }

  /** The tasks of `s` due at instant `k`, in their order in `s`. */
  function OfDue(s: seq<Task>, k: int): seq<Task>
  {
    if s == [] then []
    else OfDue(s[..|s| - 1], k) + (if s[|s| - 1].dueDate == At(k) then [s[|s| - 1]] else [])
  }

  /** A task is listed by `OfDue(s, k)` exactly when it is in `s` and due
      at `k`. */
  lemma {:induction false} OfDueMember(s: seq<Task>, k: int, e: Task)
    ensures e in OfDue(s, k) <==> e in s && e.dueDate == At(k)
    decreases |s|
  {
    if s != [] {
      OfDueMember(s[..|s| - 1], k, e);
      assert s == s[..|s| - 1] + [s[|s| - 1]];
    }
  }

  /** `x` placed after every task of `p` that is due no later than it. */
  function Insert(p: seq<Task>, x: Task): (r: seq<Task>)
    requires AllParsed(p) && x.dueDate.At?
    ensures |r| == |p| + 1 && AllParsed(r)
    decreases |p|
  {
    if p == [] || DueMs(p[|p| - 1]) <= DueMs(x) then p + [x]
    else
      assert p == p[..|p| - 1] + [p[|p| - 1]];
      Insert(p[..|p| - 1], x) + [p[|p| - 1]]
  }

  /** The stable ascending order of `s` by due instant. */
  function SortByDue(s: seq<Task>): (r: seq<Task>)
    requires AllParsed(s)
    ensures |r| == |s| && AllParsed(r)
    decreases |s|
  {
    if s == [] then []
    else
      assert s == s[..|s| - 1] + [s[|s| - 1]];
      Insert(SortByDue(s[..|s| - 1]), s[|s| - 1])
  }

  /** Inserting adds `x` and nothing else. */
  lemma {:induction false} InsertPermutes(p: seq<Task>, x: Task)
    requires AllParsed(p) && x.dueDate.At?
    ensures multiset(Insert(p, x)) == multiset(p) + multiset{x}
    decreases |p|
  {
    if p == [] || DueMs(p[|p| - 1]) <= DueMs(x) {
    } else {
      var init, last := p[..|p| - 1], p[|p| - 1];
      assert p == init + [last];
      InsertPermutes(init, x);
    }
  }

  /** The sort is a permutation of its input. */
  lemma {:induction false} SortByDuePermutes(s: seq<Task>)
    requires AllParsed(s)
    ensures multiset(SortByDue(s)) == multiset(s)
    decreases |s|
  {
    if s != [] {
      var init, last := s[..|s| - 1], s[|s| - 1];
      assert s == init + [last];
      SortByDuePermutes(init);
      InsertPermutes(SortByDue(init), last);
    }
  }

  lemma {:induction false} OfDueAppend(a: seq<Task>, b: seq<Task>, k: int)
    ensures OfDue(a + b, k) == OfDue(a, k) + OfDue(b, k)
    decreases |b|
  {
    if b == [] {
      assert a + b == a;
    } else {
      var b', y := b[..|b| - 1], b[|b| - 1];
      assert (a + b)[..|a + b| - 1] == a + b';
      OfDueAppend(a, b', k);
    }
  }

  /** Inserting keeps the order sorted. */
  lemma {:induction false} InsertSorted(p: seq<Task>, x: Task)
    requires AllParsed(p) && x.dueDate.At? && SortedByDue(p)
    ensures SortedByDue(Insert(p, x))
    decreases |p|
  {
    if p == [] || DueMs(p[|p| - 1]) <= DueMs(x) {
    } else {
      var init, last := p[..|p| - 1], p[|p| - 1];
      InsertSorted(init, x);
      var q := Insert(init, x);
      InsertPermutes(init, x);
      forall e | e in q
        ensures DueMs(e) <= DueMs(last)
      {
        assert e in multiset(q);
        if e != x {
          assert e in multiset(init);
          assert e in init;
        }
      }
      var r := q + [last];
      forall i, j | 0 <= i < j < |r|
        ensures DueMs(r[i]) <= DueMs(r[j])
      {
        if j == |r| - 1 {
          assert r[i] in q;
        }
      }
    }
  }

  /** Inserting adds `x` after the tasks already due at its instant. */
  lemma {:induction false} InsertStable(p: seq<Task>, x: Task, k: int)
    requires AllParsed(p) && x.dueDate.At?
    ensures OfDue(Insert(p, x), k) == OfDue(p, k) + OfDue([x], k)
    decreases |p|
  {
    if p == [] || DueMs(p[|p| - 1]) <= DueMs(x) {
      OfDueAppend(p, [x], k);
    } else {
      var init, last := p[..|p| - 1], p[|p| - 1];
      var q := Insert(init, x);
      assert p == init + [last];
      assert Insert(p, x) == q + [last];
      InsertStable(init, x, k);
      OfDueAppend(q, [last], k);
      OfDueAppend(init, [last], k);
      var i, ox, ol := OfDue(init, k), OfDue([x], k), OfDue([last], k);
      assert OfDue(Insert(p, x), k) == i + ox + ol;
      assert OfDue(p, k) + ox == i + ol + ox;
      OfDueSingle(x, k);
      OfDueSingle(last, k);
      SwapWithEmpty(i, ox, ol);
    }
  }

  /** Two pieces, one of them empty, follow `i` in either order. */
  lemma SwapWithEmpty(i: seq<Task>, u: seq<Task>, v: seq<Task>)
    requires u == [] || v == []
    ensures i + u + v == i + v + u
  {
    if u == [] {
      assert i + u == i;
    } else {
      assert i + v == i;
    }
  }

  /** The result is in ascending order of due instant. */
  lemma {:induction false} SortByDueSorted(s: seq<Task>)
    requires AllParsed(s)
    ensures SortedByDue(SortByDue(s))
    decreases |s|
  {
    if s != [] {
      SortByDueSorted(s[..|s| - 1]);
      InsertSorted(SortByDue(s[..|s| - 1]), s[|s| - 1]);
    }
  }

  /** The sort is stable: the tasks due at any one instant keep their
      input order. */
  lemma {:induction false} SortByDueStable(s: seq<Task>, k: int)
    requires AllParsed(s)
    ensures OfDue(SortByDue(s), k) == OfDue(s, k)
    decreases |s|
  {
    if s != [] {
      var init, last := s[..|s| - 1], s[|s| - 1];
      assert s == init + [last];
      SortByDueStable(init, k);
      InsertStable(SortByDue(init), last, k);
      OfDueAppend(init, [last], k);
    }
  }

  /** Every task of a sorted list is due no later than its last one. */
  lemma LastIsLatest(a: seq<Task>, e: Task)
    requires AllParsed(a) && SortedByDue(a) && e in a
    ensures DueMs(e) <= DueMs(a[|a| - 1])
  {
  }

  /** The tasks of a one-task list due at `k`. */
  lemma OfDueSingle(x: Task, k: int)
    ensures OfDue([x], k) == if x.dueDate == At(k) then [x] else []
  {
  }

  /** Two non-empty sorted lists that agree instant by instant end with the
      same task, and still agree once it is dropped. */
  lemma LastsAgree(a: seq<Task>, x: Task, b: seq<Task>, y: Task)
    requires AllParsed(a + [x]) && AllParsed(b + [y])
    requires SortedByDue(a + [x]) && SortedByDue(b + [y])
    requires forall k :: OfDue(a + [x], k) == OfDue(b + [y], k)
    ensures x == y
    ensures forall k :: OfDue(a, k) == OfDue(b, k)
  {
    var ra, rb := a + [x], b + [y];
    OfDueMember(rb, DueMs(y), y);
    OfDueMember(ra, DueMs(y), y);
    LastIsLatest(ra, y);
    OfDueMember(ra, DueMs(x), x);
    OfDueMember(rb, DueMs(x), x);
    LastIsLatest(rb, x);
    assert x.dueDate == y.dueDate;
    forall k
      ensures OfDue(a, k) == OfDue(b, k) && (k == DueMs(x) ==> x == y)
    {
      OfDueAppend(a, [x], k);
      OfDueAppend(b, [y], k);
      OfDueSingle(x, k);
      OfDueSingle(y, k);
      var ea, eb := OfDue(a, k), OfDue(b, k);
      if k == DueMs(x) {
        assert OfDue(ra, k) == OfDue(rb, k);
        assert OfDue(ra, k) == ea + [x] && OfDue(rb, k) == eb + [y];
        assert x == (ea + [x])[|ea|] && y == (eb + [y])[|eb|];
        assert |ea| == |eb|;
        assert ea == OfDue(ra, k)[..|ea|];
        assert eb == OfDue(rb, k)[..|eb|];
      } else {
        assert OfDue([x], k) == [] && OfDue([y], k) == [];
        assert OfDue(ra, k) == ea && OfDue(rb, k) == eb;
        assert OfDue(ra, k) == OfDue(rb, k);
      }
    }
  }

  /** Two sorted lists that agree, instant by instant, on the tasks due
      then and their order are the same list. */
  lemma {:induction false} SortedAndStableAgree(a: seq<Task>, b: seq<Task>)
    requires AllParsed(a) && AllParsed(b) && SortedByDue(a) && SortedByDue(b)
    requires forall k :: OfDue(a, k) == OfDue(b, k)
    ensures a == b
    decreases |a|
  {
    if a == [] || b == [] {
      if a != [] {
        OfDueMember(a, DueMs(a[0]), a[0]);
        OfDueMember(b, DueMs(a[0]), a[0]);
      }
      if b != [] {
        OfDueMember(b, DueMs(b[0]), b[0]);
        OfDueMember(a, DueMs(b[0]), b[0]);
      }
    } else {
      var a', x := a[..|a| - 1], a[|a| - 1];
      var b', y := b[..|b| - 1], b[|b| - 1];
      assert a == a' + [x] && b == b' + [y];
      LastsAgree(a', x, b', y);
      assert SortedByDue(a') && SortedByDue(b');
      SortedAndStableAgree(a', b');
    }
  }

  /** Any sorted, stable rearrangement of `s` is `SortByDue(s)`: a stable
      sort with this comparator has exactly one possible result. */
  lemma SortedAndStableIsUnique(s: seq<Task>, r: seq<Task>)
    requires AllParsed(s) && AllParsed(r) && SortedByDue(r)
    requires forall k :: OfDue(r, k) == OfDue(s, k)
    ensures r == SortByDue(s)
  {
    SortByDueSorted(s);
    forall k
      ensures OfDue(r, k) == OfDue(SortByDue(s), k)
    {
      SortByDueStable(s, k);
    }
    SortedAndStableAgree(r, SortByDue(s));
  }

  /** Insertion puts `x` right after the last task due no later than it. */
  lemma {:induction false} InsertSplit(p: seq<Task>, x: Task, j: nat)
    requires j <= |p| && AllParsed(p) && x.dueDate.At?
    requires j == 0 || DueMs(p[j - 1]) <= DueMs(x)
    requires forall k :: j <= k < |p| ==> DueMs(p[k]) > DueMs(x)
    ensures Insert(p, x) == p[..j] + [x] + p[j..]
    decreases |p|
  {
    if j < |p| {
      var init, last := p[..|p| - 1], p[|p| - 1];
      InsertSplit(init, x, j);
      assert init[..j] == p[..j];
      assert p[j..] == init[j..] + [last];
    }
  }

  /** One step of the insertion sort: the task at index `i` is moved left
      past every task of the sorted prefix due strictly later. */
  method InsertAt(a: array<Task>, i: nat)
    requires i < a.Length && AllParsed(a[..i + 1])
    modifies a
    ensures a[..i + 1] == Insert(old(a[..i]), old(a[i]))
    ensures a[i + 1..] == old(a[i + 1..])
  {
    ghost var p := a[..i];
    var x := a[i];
    assert x == a[..i + 1][i] && AllParsed(p);
    var j := ShiftLater(a, i, x);
    a[j] := x;
    InsertSplit(p, x, j);
    ShiftedIsSplit(a[..i + 1], p, x, j);
  }

  /** Moves the tasks at the end of `a[..i]` that are due strictly later
      than `x` one slot to the right, and returns the slot left for `x`. */
  method ShiftLater(a: array<Task>, i: nat, x: Task) returns (j: nat)
    requires i < a.Length && x.dueDate.At?
    requires forall k :: 0 <= k < i ==> a[k].dueDate.At?
    modifies a
    ensures j <= i
    ensures forall k :: 0 <= k < j ==> a[k] == old(a[k])
    ensures forall k :: j < k <= i ==> a[k] == old(a[k - 1])
    ensures forall k :: i < k < a.Length ==> a[k] == old(a[k])
    ensures j == 0 || DueMs(old(a[j - 1])) <= DueMs(x)
    ensures forall k :: j <= k < i ==> DueMs(old(a[k])) > DueMs(x)
  {
    j := i;
    while j > 0 && DueMs(a[j - 1]) > DueMs(x)
      invariant 0 <= j <= i
      invariant forall k :: 0 <= k < j ==> a[k] == old(a[k])
      invariant forall k :: j < k <= i ==> a[k] == old(a[k - 1])
      invariant forall k :: i < k < a.Length ==> a[k] == old(a[k])
      invariant forall k :: j <= k < i ==> DueMs(old(a[k])) > DueMs(x)
    {
      a[j] := a[j - 1];
      j := j - 1;
    }
  }

  /** After the shifting loop and the final write, the first `|p| + 1`
      slots hold `p` with `x` placed at index `j`. */
  lemma ShiftedIsSplit(c: seq<Task>, p: seq<Task>, x: Task, j: nat)
    requires j <= |p| && |c| == |p| + 1 && c[j] == x
    requires forall k :: 0 <= k < j ==> c[k] == p[k]
    requires forall k :: j < k < |c| ==> c[k] == p[k - 1]
    ensures c == p[..j] + [x] + p[j..]
  {
    var q := p[..j] + [x] + p[j..];
    forall k | 0 <= k < |c|
      ensures c[k] == q[k]
    {
      if k > j {
        assert q[k] == p[k - 1];
      }
    }
  }

  /** Sorting one more task of `s` inserts it into the sorted prefix. */
  lemma SortByDueStep(s: seq<Task>, i: nat)
    requires i < |s| && AllParsed(s)
    ensures AllParsed(s[..i]) && AllParsed(s[..i + 1])
    ensures SortByDue(s[..i + 1]) == Insert(SortByDue(s[..i]), s[i])
  {
    assert s[..i + 1][..i] == s[..i];
  }

  /** The sort of the renderer, in place on the caller's array. */
  method SortInPlace(a: array<Task>)
    requires AllParsed(a[..])
    modifies a
    ensures a[..] == SortByDue(old(a[..]))
  {
    ghost var orig := a[..];
    var i := 0;
    while i < a.Length
      invariant 0 <= i <= a.Length
      invariant a[..i] == SortByDue(orig[..i])
      invariant a[i..] == orig[i..]
    {
      SortByDueStep(orig, i);
      assert a[..i + 1] == a[..i] + [orig[i]];
      InsertAt(a, i);
      i := i + 1;
    }
    assert a[..] == a[..a.Length] && orig == orig[..a.Length];
  }
}
