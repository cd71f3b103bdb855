/**
  The priority queue of waiting jobs: a binary heap in a slice, proved to behave as a list
  sorted by priority (highest first) and, for equal priority, by order of arrival.
 */
module JobQueue {
  import opened Types

  /** A job as the queue sees it; `seqNo` is the order in which it entered the dispatcher. */
  datatype Entry = Entry(id: JobId, priority: nat, seqNo: nat)

  predicate Before(a: Entry, b: Entry) {
    if a.priority != b.priority then a.priority > b.priority else a.seqNo < b.seqNo
  }

  // ---------- the sorted list ----------

  ghost predicate IsSorted(s: seq<Entry>) {
    forall i, j | 0 <= i < j < |s| :: Before(s[i], s[j])
  }

  ghost predicate DistinctSeqNos(s: seq<Entry>) {
    forall i, j | 0 <= i < j < |s| :: s[i].seqNo != s[j].seqNo
  }

  ghost predicate NewSeqNo(s: seq<Entry>, e: Entry) {
    forall x | x in s :: x.seqNo != e.seqNo
  }

  function Insert(s: seq<Entry>, e: Entry): seq<Entry> {
    if s == [] || Before(e, s[0]) then [e] + s else [s[0]] + Insert(s[1..], e)
  }

  function Sorted(s: seq<Entry>): seq<Entry> {
    if s == [] then [] else Insert(Sorted(s[1..]), s[0])
  }

  lemma {:induction false} InsertKeepsMultiset(s: seq<Entry>, e: Entry)
    ensures multiset(Insert(s, e)) == multiset(s) + multiset{e}
  {
    if s == [] || Before(e, s[0]) {
    } else {
      InsertKeepsMultiset(s[1..], e);
      assert s == [s[0]] + s[1..];
    }
  }

  lemma InsertMembers(s: seq<Entry>, e: Entry)
    ensures forall x :: x in Insert(s, e) <==> x in s || x == e
  {
    InsertKeepsMultiset(s, e);
    forall x ensures x in Insert(s, e) <==> x in s || x == e {
      assert x in Insert(s, e) <==> x in multiset(Insert(s, e));
      assert x in s <==> x in multiset(s);
    }
  }

  lemma {:induction false} InsertKeepsSorted(s: seq<Entry>, e: Entry)
    requires IsSorted(s) && NewSeqNo(s, e)
    ensures IsSorted(Insert(s, e))
  {
    if s == [] || Before(e, s[0]) {
    } else {
      InsertKeepsSorted(s[1..], e);
      InsertMembers(s[1..], e);
      var r := Insert(s[1..], e);
      forall j | 0 <= j < |r| ensures Before(s[0], r[j]) {
        assert r[j] in r;
        if r[j] in s[1..] { var i :| 0 <= i < |s[1..]| && s[1..][i] == r[j]; assert s[1 + i] == r[j]; }
      }
    }
  }

  lemma {:induction false} SortedMultiset(s: seq<Entry>)
    ensures multiset(Sorted(s)) == multiset(s)
  {
    if s != [] {
      SortedMultiset(s[1..]);
      InsertKeepsMultiset(Sorted(s[1..]), s[0]);
      assert s == [s[0]] + s[1..];
    }
  }

  lemma {:induction false} SortedIsSorted(s: seq<Entry>)
    requires DistinctSeqNos(s)
    ensures IsSorted(Sorted(s))
  {
    if s != [] {
      SortedIsSorted(s[1..]);
      SortedMultiset(s[1..]);
      forall x | x in Sorted(s[1..]) ensures x.seqNo != s[0].seqNo {
        assert x in multiset(s[1..]);
      }
      InsertKeepsSorted(Sorted(s[1..]), s[0]);
    }
  }

  lemma SameHead(a: seq<Entry>, b: seq<Entry>)
    requires IsSorted(a) && IsSorted(b) && a != [] && b != [] && a[0] in b && b[0] in a
    ensures a[0] == b[0]
  {
    var i :| 0 <= i < |b| && b[i] == a[0];
    var j :| 0 <= j < |a| && a[j] == b[0];
  }

  lemma TailMultiset(a: seq<Entry>)
    requires a != []
    ensures multiset(a[1..]) == multiset(a) - multiset{a[0]}
  {
    assert a == [a[0]] + a[1..];
  }

  /** A sorted list is determined by its elements. */
  lemma {:induction false} SortedIsUnique(a: seq<Entry>, b: seq<Entry>)
    requires IsSorted(a) && IsSorted(b) && multiset(a) == multiset(b)
    ensures a == b
  {
    assert |a| == |multiset(a)| && |b| == |multiset(b)|;
    if a != [] {
      assert a[0] in multiset(b) && b[0] in multiset(a);
      SameHead(a, b);
      TailMultiset(a);
      TailMultiset(b);
      SortedIsUnique(a[1..], b[1..]);
      assert a == [a[0]] + a[1..] && b == [b[0]] + b[1..];
    }
  }

  // ---------- the heap ----------

  function Parent(i: nat): nat
    requires i > 0
  {
    (i - 1) / 2
  }

  ghost predicate HeapAt(h: seq<Entry>, i: nat)
    requires 0 < i < |h|
  {
    !Before(h[i], h[Parent(i)])
  }

  ghost predicate IsHeap(h: seq<Entry>) {
    forall i | 0 < i < |h| :: HeapAt(h, i)
  }

  lemma PrefixIsHeap(h: seq<Entry>, n: nat)
    requires n <= |h| && forall i | 0 < i < n :: HeapAt(h, i)
    ensures IsHeap(h[..n])
  {
    forall i | 0 < i < n ensures HeapAt(h[..n], i) {
      assert HeapAt(h, i);
    }
  }

  lemma {:induction false} RootIsFirst(h: seq<Entry>, i: nat)
    requires IsHeap(h) && DistinctSeqNos(h) && i < |h|
    ensures i > 0 ==> Before(h[0], h[i])
    decreases i
  {
    if i > 0 {
      assert HeapAt(h, i);
      RootIsFirst(h, Parent(i));
    }
  }

  function Swap(h: seq<Entry>, i: nat, j: nat): (r: seq<Entry>)
    requires i < |h| && j < |h|
    ensures |r| == |h| && r[i] == h[j] && r[j] == h[i] && forall k | 0 <= k < |h| && k != i && k != j :: r[k] == h[k]
  {
    h[i := h[j]][j := h[i]]
  }

  lemma SwapKeepsMultiset(h: seq<Entry>, i: nat, j: nat)
    requires i < |h| && j < |h|
    ensures multiset(Swap(h, i, j)) == multiset(h)
  {
    assert multiset(h[i := h[j]]) == multiset(h) - multiset{h[i]} + multiset{h[j]};
    assert multiset(Swap(h, i, j)) == multiset(h[i := h[j]]) - multiset{h[i := h[j]][j]} + multiset{h[i]};
  }

  lemma DistinctIsAMultisetProperty(a: seq<Entry>, b: seq<Entry>)
    requires multiset(a) == multiset(b) && DistinctSeqNos(a)
    ensures DistinctSeqNos(b)
  {
    assert a == a[..] && b == b[..];
    forall i, j | 0 <= i < j < |b| ensures b[i].seqNo != b[j].seqNo {
      AtMostOnce(a, b[i]);
      if b[i] == b[j] { TwoOccurrences(b, i, j); }
      assert b[i] in multiset(a) && b[j] in multiset(a);
    }
  }

  lemma TwoOccurrences(b: seq<Entry>, i: nat, j: nat)
    requires i < j < |b| && b[i] == b[j]
    ensures multiset(b)[b[i]] >= 2
  {
    assert b == b[..j] + b[j..];
    assert b[i] in b[..j] && b[j] in b[j..];
  }

  lemma {:induction false} AtMostOnce(a: seq<Entry>, x: Entry)
    requires DistinctSeqNos(a)
    ensures multiset(a)[x] <= 1
  {
    if a != [] {
      assert a == [a[0]] + a[1..];
      AtMostOnce(a[1..], x);
      if a[0] == x {
        assert x !in a[1..];
      }
    }
  }

  ghost predicate ChildrenNotBefore(h: seq<Entry>, n: nat, i: nat, e: Entry)
    requires n <= |h|
  {
    (2 * i + 1 < n ==> !Before(h[2 * i + 1], e)) && (2 * i + 2 < n ==> !Before(h[2 * i + 2], e))
  }

  /** The first `n` entries form a heap, except that the entry at `i` may be after its children. */
  ghost predicate HeapExcept(h: seq<Entry>, n: nat, i: nat) {
    && n <= |h|
    && (forall k | 0 < k < n && Parent(k) != i :: HeapAt(h, k))
    && (0 < i < |h| ==> ChildrenNotBefore(h, n, i, h[Parent(i)]))
  }

  /** `j` is the child of `i` that is not after the other one. */
  ghost predicate FirstChild(h: seq<Entry>, n: nat, i: nat, j: nat) {
    i < j < n <= |h| && (j == 2 * i + 1 || j == 2 * i + 2) && ChildrenNotBefore(h, n, i, h[j])
  }

  lemma ChosenChildIsFirst(h: seq<Entry>, n: nat, i: nat, j: nat)
    requires n <= |h| && j < n
    requires (j == 2 * i + 1 && (j + 1 < n ==> !Before(h[j + 1], h[j]))) || (j == 2 * i + 2 && Before(h[j], h[j - 1]))
    ensures FirstChild(h, n, i, j)
  {
  }

  lemma NoChildren(n: nat, i: nat)
    requires n <= 2 * i + 1
    ensures forall k | 0 < k < n :: Parent(k) != i
  {
  }

  lemma SiftStops(h: seq<Entry>, n: nat, i: nat, j: nat)
    requires HeapExcept(h, n, i) && FirstChild(h, n, i, j) && !Before(h[j], h[i])
    ensures forall k | 0 < k < n :: HeapAt(h, k)
  {
  }

  lemma SiftContinues(h: seq<Entry>, n: nat, i: nat, j: nat)
    requires HeapExcept(h, n, i) && FirstChild(h, n, i, j) && Before(h[j], h[i])
    ensures HeapExcept(Swap(h, i, j), n, j)
  {
    var r := Swap(h, i, j);
    forall k | 0 < k < n && Parent(k) != j ensures HeapAt(r, k) {
      if Parent(k) != i {
        assert HeapAt(h, k);
      }
    }
    if 2 * j + 1 < n { assert HeapAt(h, 2 * j + 1); }
    if 2 * j + 2 < n { assert HeapAt(h, 2 * j + 2); }
  }

  /** The first `|h|` entries form a heap, except that the entry at `j` may be before its parent. */
  ghost predicate HeapBelow(h: seq<Entry>, j: nat) {
    && j < |h|
    && (forall i | 0 < i < |h| && i != j :: HeapAt(h, i))
    && (j > 0 ==> ChildrenNotBefore(h, |h|, j, h[Parent(j)]))
  }

  lemma RiseContinues(h: seq<Entry>, j: nat)
    requires HeapBelow(h, j) && j > 0 && Before(h[j], h[Parent(j)])
    ensures HeapBelow(Swap(h, Parent(j), j), Parent(j))
  {
    var p := Parent(j);
    var r := Swap(h, p, j);
    forall i | 0 < i < |r| && i != p ensures HeapAt(r, i) {
      if i != j { assert HeapAt(h, i); }
    }
    if p > 0 {
      assert HeapAt(h, p);
      if 2 * p + 1 < |h| && 2 * p + 1 != j { assert HeapAt(h, 2 * p + 1); }
      if 2 * p + 2 < |h| && 2 * p + 2 != j { assert HeapAt(h, 2 * p + 2); }
    }
  }

  /** Moves the last entry up until its parent is not after it. */
  method SiftUp(pushed: seq<Entry>) returns (h: seq<Entry>)
    requires pushed != [] && forall i | 0 < i < |pushed| - 1 :: HeapAt(pushed, i)
    ensures IsHeap(h) && multiset(h) == multiset(pushed)
  {
    h := pushed;
    var j: nat := |h| - 1;
    while j > 0 && Before(h[j], h[Parent(j)])
      invariant HeapBelow(h, j) && multiset(h) == multiset(pushed)
      decreases j
    {
      SwapKeepsMultiset(h, Parent(j), j);
      RiseContinues(h, j);
      h := Swap(h, Parent(j), j);
      j := Parent(j);
    }
  }

  /** Moves the root down within the first `n` entries until neither child is before it. */
  method SiftDown(swapped: seq<Entry>, n: nat) returns (h: seq<Entry>)
    requires n <= |swapped| && forall i | 0 < i < n && Parent(i) != 0 :: HeapAt(swapped, i)
    ensures |h| == |swapped| && h[n..] == swapped[n..] && multiset(h) == multiset(swapped)
    ensures forall i | 0 < i < n :: HeapAt(h, i)
  {
    h := swapped;
    var i := 0;
    while 2 * i + 1 < n
      invariant |h| == |swapped| && h[n..] == swapped[n..] && multiset(h) == multiset(swapped)
      invariant HeapExcept(h, n, i)
      decreases n - i
    {
      var j := 2 * i + 1;
      if j + 1 < n && Before(h[j + 1], h[j]) {
        j := j + 1;
      }
      ChosenChildIsFirst(h, n, i, j);
      if !Before(h[j], h[i]) {
        SiftStops(h, n, i, j);
        return;
      }
      SwapKeepsMultiset(h, i, j);
      SiftContinues(h, n, i, j);
      assert Swap(h, i, j)[n..] == h[n..];
      h := Swap(h, i, j);
      i := j;
    }
    NoChildren(n, i);
  }

  /** Whatever holds the rest of a heap, the root heads the sorted list of it. */
  lemma RootHeads(h: seq<Entry>, rest: seq<Entry>)
    requires h != [] && IsHeap(h) && DistinctSeqNos(h) && DistinctSeqNos(rest)
    requires multiset(h) == multiset(rest) + multiset{h[0]}
    ensures Sorted(h) == [h[0]] + Sorted(rest)
  {
    SortedMultiset(h);
    SortedMultiset(rest);
    SortedIsSorted(h);
    SortedIsSorted(rest);
    AtMostOnce(h, h[0]);
    forall x | x in Sorted(rest) ensures Before(h[0], x) {
      assert x in multiset(rest) && x in multiset(h);
      var i :| 0 <= i < |h| && h[i] == x;
      assert multiset(h)[h[0]] == multiset(rest)[h[0]] + 1;
      RootIsFirst(h, i);
    }
    assert IsSorted([h[0]] + Sorted(rest));
    SortedIsUnique(Sorted(h), [h[0]] + Sorted(rest));
  }

  // ---------- the queue ----------

  ghost predicate IsQueue(h: seq<Entry>) {
    IsHeap(h) && DistinctSeqNos(h)
  }

  lemma SortedLength(h: seq<Entry>)
    ensures |Sorted(h)| == |h|
  {
    SortedMultiset(h);
    assert |multiset(h)| == |h| && |multiset(Sorted(h))| == |Sorted(h)|;
  }

  lemma HeadIsRoot(h: seq<Entry>)
    requires IsQueue(h) && h != []
    ensures Sorted(h) != [] && Sorted(h)[0] == h[0]
  {
    assert h == [h[0]] + h[1..];
    RootHeads(h, h[1..]);
  }

  lemma PushedIsInserted(before: seq<Entry>, job: Entry, h: seq<Entry>)
    requires DistinctSeqNos(before) && NewSeqNo(before, job) && DistinctSeqNos(h) && multiset(h) == multiset(before + [job])
    ensures Sorted(h) == Insert(Sorted(before), job)
  {
    SortedMultiset(h);
    SortedMultiset(before);
    SortedIsSorted(h);
    SortedIsSorted(before);
    InsertKeepsMultiset(Sorted(before), job);
    assert NewSeqNo(Sorted(before), job) by {
      forall x | x in Sorted(before) ensures x.seqNo != job.seqNo { assert x in multiset(before); }
    }
    InsertKeepsSorted(Sorted(before), job);
    SortedIsUnique(Sorted(h), Insert(Sorted(before), job));
  }

  /** Adds a job to the heap. */
  method Push(jobs: seq<Entry>, job: Entry) returns (h: seq<Entry>)
    requires IsQueue(jobs) && NewSeqNo(jobs, job)
    ensures IsQueue(h) && Sorted(h) == Insert(Sorted(jobs), job)
  {
    h := jobs + [job];
    forall i | 0 < i < |jobs| ensures HeapAt(h, i) { assert HeapAt(jobs, i); }
    h := SiftUp(h);
    DistinctIsAMultisetProperty(jobs + [job], h);
    PushedIsInserted(jobs, job, h);
  }

  /** Takes the root out of the heap. */
  method Pop(jobs: seq<Entry>) returns (next: Entry, h: seq<Entry>)
    requires IsQueue(jobs) && jobs != []
    ensures IsQueue(h) && Sorted(jobs) == [next] + Sorted(h)
  {
    var n := |jobs| - 1;
    SwapKeepsMultiset(jobs, 0, n);
    h := Swap(jobs, 0, n);
    forall i | 0 < i < n && Parent(i) != 0 ensures HeapAt(h, i) { assert HeapAt(jobs, i); }
    h := SiftDown(h, n);
    ghost var sifted := h;
    next := h[n];
    h := h[..n];
    assert next == sifted[n..][0] == jobs[0];
    assert sifted == h + [next];
    DistinctIsAMultisetProperty(jobs, sifted);
    PrefixIsHeap(sifted, n);
    RootHeads(jobs, h);
  }

  class PriorityQueue {
    var jobs: seq<Entry>

    ghost predicate Valid()
      reads this
    {
      IsQueue(jobs)
    }

    /** The jobs in the order in which they leave. */
    ghost function Contents(): seq<Entry>
      reads this
    {
      Sorted(jobs)
    }

    constructor ()
      ensures Valid() && Contents() == []
    {
      jobs := [];
    }

    method Len() returns (n: nat)
      requires Valid()
      ensures n == |Contents()|
    {
      n := |jobs|;
      SortedLength(jobs);
    }

    method Enqueue(job: Entry)
      requires Valid() && NewSeqNo(jobs, job)
      modifies this
      ensures Valid() && Contents() == Insert(old(Contents()), job)
    {
      jobs := Push(jobs, job);
    }

    /** The next job, or none when the queue is empty. */
    method Peek() returns (next: Option<Entry>)
      requires Valid()
      ensures next == if Contents() == [] then None else Some(Contents()[0])
    {
      if |jobs| == 0 {
        return None;
      }
      next := Some(jobs[0]);
      HeadIsRoot(jobs);
    }

    /** Takes the next job out; the queue must not be empty. */
    method Dequeue() returns (next: Entry)
      requires Valid() && Contents() != []
      modifies this
      ensures Valid() && old(Contents()) == [next] + Contents()
    {
      next, jobs := Pop(jobs);
    }
  }
}
