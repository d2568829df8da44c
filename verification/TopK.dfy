// engine/op_order.go: ORDER BY, OFFSET and LIMIT over a bounded max-heap.
module TopK {
  import opened MergeHeaps
  import opened Seqs

  // Asymmetric, and not-less is transitive, on the given items.
  ghost predicate WeakOrder<T(!new)>(less: (T, T) -> bool, items: multiset<T>)
  {
    && (forall a, b :: a in items && b in items && less(a, b) ==> !less(b, a))
    && (forall a, b, c :: a in items && b in items && c in items && !less(a, b) && !less(b, c) ==> !less(a, c))
  }

  ghost predicate Sorted<T>(less: (T, T) -> bool, s: seq<T>)
  {
    forall i, j :: 0 <= i < j < |s| ==> !less(s[j], s[i])
  }

  // No item of low comes after one of high.
  ghost predicate Below<T(!new)>(less: (T, T) -> bool, low: multiset<T>, high: multiset<T>)
  {
    forall k, d :: k in low && d in high ==> !less(d, k)
  }

  // No other of the first n items comes after the i-th.
  predicate IsMax<T>(less: (T, T) -> bool, items: seq<T>, n: nat, i: nat)
    requires n <= |items|
  {
    i < n && forall j :: 0 <= j < n ==> !less(items[i], items[j])
  }

  lemma {:induction false} MaxExists<T(!new)>(less: (T, T) -> bool, items: seq<T>, n: nat) returns (i: nat)
    requires 0 < n <= |items| && WeakOrder(less, multiset(items))
    ensures IsMax(less, items, n, i)
    decreases n
  {
    assert forall j :: 0 <= j < n ==> items[j] in multiset(items);
    i := 0;
    if n > 1 {
      i := MaxExists(less, items, n - 1);
      if less(items[i], items[n - 1]) {
        i := n - 1;
      }
    }
  }

  lemma WeakOrderOfSome<T(!new)>(less: (T, T) -> bool, all: multiset<T>, some: multiset<T>)
    requires WeakOrder(less, all) && some <= all
    ensures WeakOrder(less, some)
  {
    assert forall x :: x in some ==> x in all;
  }

  lemma AppendSorts<T(!new)>(less: (T, T) -> bool, low: seq<T>, high: seq<T>)
    requires Sorted(less, low) && Sorted(less, high) && Below(less, multiset(low), multiset(high))
    ensures Sorted(less, low + high)
  {
    assert forall i :: 0 <= i < |low| ==> low[i] in multiset(low);
    assert forall j :: 0 <= j < |high| ==> high[j] in multiset(high);
  }

  // Every finite bag has a sorted arrangement.
  lemma {:induction false} SortExists<T(!new)>(less: (T, T) -> bool, s: seq<T>) returns (sorted: seq<T>)
    requires WeakOrder(less, multiset(s))
    ensures multiset(sorted) == multiset(s) && Sorted(less, sorted)
    decreases |s|
  {
    if s == [] {
      return [];
    }
    var i := MaxExists(less, s, |s|);
    var rest := Without(s, i);
    WithoutOne(s, i);
    WeakOrderOfSome(less, multiset(s), multiset(rest));
    var low := SortExists(less, rest);
    MaxIsAbove(less, s, i, rest);
    AppendSorts(less, low, [s[i]]);
    sorted := low + [s[i]];
  }

  lemma MaxIsAbove<T(!new)>(less: (T, T) -> bool, s: seq<T>, i: nat, rest: seq<T>)
    requires IsMax(less, s, |s|, i) && multiset(rest) <= multiset(s)
    ensures Below(less, multiset(rest), multiset([s[i]]))
  {
    forall k | k in multiset(rest) ensures !less(s[i], k) {
      assert k in multiset(s);
      var j :| 0 <= j < |s| && s[j] == k;
    }
  }

  // ---------------------------------------------------------------- the heap, by its contract

  // container/heap over HeapValsProjected: a bag whose root is an item that none comes after.
  class MaxHeap<T(!new)> {
    const less: (T, T) -> bool
    var items: seq<T>

    constructor (less: (T, T) -> bool)
      ensures this.less == less && items == []
    {
      this.less, items := less, [];
    }

    method Push(x: T)
      modifies this
      ensures items == old(items) + [x]
    {
      items := items + [x];
    }

    method Root() returns (i: nat)
      requires items != [] && WeakOrder(less, multiset(items))
      ensures IsMax(less, items, |items|, i)
    {
      ghost var m := MaxExists(less, items, |items|);
      i :| i < |items| && IsMax(less, items, |items|, i);
    }

    method Pop() returns (x: T)
      requires items != [] && WeakOrder(less, multiset(items))
      modifies this
      ensures |items| == old(|items|) - 1 && old(multiset(items)) == multiset(items) + multiset{x}
      ensures Below(less, multiset(items), multiset{x})
    {
      var i := Root();
      x := items[i];
      WithoutOne(items, i);
      MaxIsAbove(less, items, i, Without(items, i));
      assert multiset([x]) == multiset{x};
      items := Without(items, i);
    }

    // Sort(from): pop off items and place them, in reverse, at the end, until only from are left.
    method Sort(from: nat) returns (tail: seq<T>)
      requires WeakOrder(less, multiset(items))
      modifies this
      ensures multiset(items) + multiset(tail) == old(multiset(items)) && |items| == (if old(|items|) < from then old(|items|) else from)
      ensures Sorted(less, tail) && Below(less, multiset(items), multiset(tail))
    {
      tail := [];
      while |items| > from
        invariant multiset(items) + multiset(tail) == old(multiset(items))
        invariant |items| >= from || |items| == old(|items|)
        invariant Sorted(less, tail) && Below(less, multiset(items), multiset(tail))
        invariant WeakOrder(less, multiset(items))
        invariant tail == [] ==> |items| == old(|items|)
        decreases |items|
      {
        ghost var was := multiset(items);
        var x := Pop();
        WeakOrderOfSome(less, was, multiset(items));
        PopKeepsBelow(less, was, multiset(items), x, tail);
        tail := [x] + tail;
      }
    }
  }

  lemma PopKeepsBelow<T(!new)>(less: (T, T) -> bool, was: multiset<T>, items: multiset<T>, x: T, tail: seq<T>)
    requires was == items + multiset{x} && Below(less, items, multiset{x}) && Below(less, was, multiset(tail)) && Sorted(less, tail)
    ensures Sorted(less, [x] + tail) && Below(less, items, multiset([x] + tail))
  {
    assert multiset([x]) == multiset{x} && x in was;
    assert forall k :: k in items ==> k in was;
    assert multiset([x] + tail) == multiset{x} + multiset(tail);
    AppendSorts(less, [x], tail);
  }

  // ---------------------------------------------------------------- the bounded heap

  // What is kept comes before what was dropped.
  lemma DropRest<T(!new)>(less: (T, T) -> bool, all: multiset<T>, kept: multiset<T>, dropped: multiset<T>, max: T, x: T)
    requires WeakOrder(less, all) && kept + dropped + multiset{x} <= all && Below(less, kept, dropped)
    requires max in kept && (forall k :: k in kept ==> !less(max, k)) && !less(x, max)
    ensures Below(less, kept, dropped + multiset{x})
  {
    assert forall y :: y in kept + dropped + multiset{x} ==> y in all;
    assert x in multiset{x} && x in all && max in all;
    forall k | k in kept ensures !less(x, k) {
      assert k in kept + dropped + multiset{x};
    }
  }

  lemma TakeIn<T(!new)>(less: (T, T) -> bool, all: multiset<T>, kept: multiset<T>, dropped: multiset<T>, max: T, x: T)
    requires WeakOrder(less, all) && kept + dropped + multiset{x} <= all && Below(less, kept, dropped)
    requires max in kept && less(x, max)
    ensures Below(less, kept + multiset{x}, dropped)
  {
    assert forall y :: y in kept + dropped + multiset{x} ==> y in all;
    assert x in multiset{x} && x in all && max in all;
    forall d | d in dropped ensures !less(d, x) {
      assert d in kept + dropped + multiset{x};
      assert !less(d, max) && !less(max, x);
    }
  }

  lemma PopOut<T(!new)>(less: (T, T) -> bool, was: multiset<T>, kept: multiset<T>, dropped: multiset<T>, x: T)
    requires was == kept + multiset{x} && Below(less, was, dropped) && Below(less, kept, multiset{x})
    ensures Below(less, kept, dropped + multiset{x})
  {
    assert forall k :: k in kept ==> k in was;
  }

  // The heap holds kept, the rows dropped so far are dropped, and kept comes first.
  ghost predicate Bounded<T(!new)>(less: (T, T) -> bool, kept: multiset<T>, dropped: multiset<T>, size: nat, cap: nat)
  {
    Below(less, kept, dropped) && size <= cap && (size < cap ==> dropped == multiset{})
  }

  // Push when the heap is small, or empty, or the row comes before its greatest.
  method NeedPush<T(!new)>(heap: MaxHeap<T>, offsetPlusLimit: nat, row: T, ghost all: multiset<T>, ghost dropped: multiset<T>) returns (needPush: bool)
    requires WeakOrder(heap.less, all) && multiset(heap.items) + dropped + multiset{row} <= all
    requires Bounded(heap.less, multiset(heap.items), dropped, |heap.items|, offsetPlusLimit)
    ensures needPush && offsetPlusLimit > 0 ==> Below(heap.less, multiset(heap.items) + multiset{row}, dropped)
    ensures !needPush ==> Below(heap.less, multiset(heap.items), dropped + multiset{row}) && |heap.items| == offsetPlusLimit
  {
    var heapLen := |heap.items|;
    ghost var kept := multiset(heap.items);
    WeakOrderOfSome(heap.less, all, kept);
    needPush := heapLen < offsetPlusLimit || heapLen == 0;
    if !needPush {
      var i := heap.Root();
      var max := heap.items[i];
      RootIsMax(heap.less, heap.items, i);
      assert max in kept;
      needPush := heap.less(row, max);
      if needPush {
        TakeIn(heap.less, all, kept, dropped, max, row);
      } else {
        DropRest(heap.less, all, kept, dropped, max, row);
      }
    } else {
      NothingDropped(heap.less, kept, dropped, heapLen, offsetPlusLimit, row);
    }
  }

  lemma NothingDropped<T(!new)>(less: (T, T) -> bool, kept: multiset<T>, dropped: multiset<T>, size: nat, cap: nat, row: T)
    requires Bounded(less, kept, dropped, size, cap) && (size < cap || size == 0) && (size == 0 ==> kept == multiset{})
    ensures size < cap ==> Below(less, kept + multiset{row}, dropped)
  {
  }

  // The row goes in, and the greatest out if the heap is now too big.
  method PushRow<T(!new)>(heap: MaxHeap<T>, offsetPlusLimit: nat, row: T, ghost all: multiset<T>, ghost dropped: multiset<T>) returns (ghost dropped': multiset<T>)
    requires WeakOrder(heap.less, all) && multiset(heap.items) + dropped + multiset{row} <= all
    requires Bounded(heap.less, multiset(heap.items), dropped, |heap.items|, offsetPlusLimit)
    requires offsetPlusLimit > 0 ==> Below(heap.less, multiset(heap.items) + multiset{row}, dropped)
    modifies heap
    ensures Bounded(heap.less, multiset(heap.items), dropped', |heap.items|, offsetPlusLimit)
    ensures multiset(heap.items) + dropped' == old(multiset(heap.items)) + dropped + multiset{row}
    ensures |heap.items| == Min(old(|heap.items|) + 1, offsetPlusLimit)
  {
    var heapLen := |heap.items|;
    dropped' := dropped;
    ghost var was := multiset(heap.items) + multiset{row};
    heap.Push(row);
    assert multiset(heap.items) == was;
    if heapLen + 1 > offsetPlusLimit {
      WeakOrderOfSome(heap.less, all, was);
      var x := heap.Pop();
      if offsetPlusLimit > 0 {
        PopOut(heap.less, was, multiset(heap.items), dropped, x);
      } else {
        assert heap.items == [];
      }
      dropped' := dropped + multiset{x};
    }
  }

  method OrderRow<T(!new)>(heap: MaxHeap<T>, offsetPlusLimit: nat, row: T, ghost all: multiset<T>, ghost dropped: multiset<T>) returns (ghost dropped': multiset<T>)
    requires WeakOrder(heap.less, all) && multiset(heap.items) + dropped + multiset{row} <= all
    requires Bounded(heap.less, multiset(heap.items), dropped, |heap.items|, offsetPlusLimit)
    modifies heap
    ensures Bounded(heap.less, multiset(heap.items), dropped', |heap.items|, offsetPlusLimit)
    ensures multiset(heap.items) + dropped' == old(multiset(heap.items)) + dropped + multiset{row}
    ensures |heap.items| == Min(old(|heap.items|) + 1, offsetPlusLimit)
  {
    var needPush := NeedPush(heap, offsetPlusLimit, row, all, dropped);
    if needPush {
      dropped' := PushRow(heap, offsetPlusLimit, row, all, dropped);
    } else {
      dropped' := dropped + multiset{row};
    }
  }

  lemma RootIsMax<T(!new)>(less: (T, T) -> bool, items: seq<T>, i: nat)
    requires IsMax(less, items, |items|, i)
    ensures forall k :: k in multiset(items) ==> !less(items[i], k)
  {
  }

  function Min(a: int, b: int): int
  {
    if a < b then a else b
  }

  // offset + limit, or the greatest int64 when that overflows.
  function OffsetPlusLimit(offset: Key, limit: Key): (c: int)
    requires 0 <= offset && 0 <= limit
    ensures c == Min(offset + limit, MAX_INT64)
  {
    var sum := Wrap(offset + limit);
    if sum < 0 then MAX_INT64 else sum
  }

  // Every row goes by; the heap keeps the least offset + limit of them.
  method FillHeap<T(!new)>(heap: MaxHeap<T>, offsetPlusLimit: nat, rows: seq<T>) returns (ghost dropped: multiset<T>)
    requires WeakOrder(heap.less, multiset(rows)) && heap.items == []
    modifies heap
    ensures multiset(heap.items) + dropped == multiset(rows) && Below(heap.less, multiset(heap.items), dropped)
    ensures |heap.items| == Min(|rows|, offsetPlusLimit)
  {
    dropped := multiset{};
    for r: nat := 0 to |rows|
      invariant multiset(heap.items) + dropped == multiset(rows[..r])
      invariant Bounded(heap.less, multiset(heap.items), dropped, |heap.items|, offsetPlusLimit)
      invariant |heap.items| == Min(r, offsetPlusLimit)
    {
      PrefixIsSome(rows, r);
      dropped := OrderRow(heap, offsetPlusLimit, rows[r], multiset(rows), dropped);
    }
    assert rows[..|rows|] == rows;
  }

  lemma PrefixIsSome<T>(s: seq<T>, n: nat)
    requires n < |s|
    ensures multiset(s[..n + 1]) == multiset(s[..n]) + multiset{s[n]}
    ensures multiset(s[..n + 1]) <= multiset(s)
  {
    assert s[..n + 1] == s[..n] + [s[n]];
    assert s == s[..n + 1] + s[n + 1..];
  }

  // Without ORDER BY the rows pass straight through, counted.
  method OffsetLimit<T>(rows: seq<T>, offset: Key, limit: Key) returns (out: seq<T>)
    requires 0 <= offset && 0 <= limit && |rows| <= MAX_INT64
    ensures out == rows[Min(offset, |rows|)..Min(offset + limit, |rows|)]
  {
    var offsetPlusLimit := OffsetPlusLimit(offset, limit);
    out := [];
    var examined := 0;
    for r: nat := 0 to |rows|
      invariant examined == r && out == rows[Min(offset, r)..Min(offsetPlusLimit, r)]
    {
      if examined >= offset && examined < offsetPlusLimit {
        out := out + [rows[r]];
      }
      examined := examined + 1;
    }
  }

  // The loop over the sorted slots from offset on, up to limit of them.
  method EmitSlots<T>(tail: seq<T>, offset: Key, limit: Key, heapLen: nat) returns (out: seq<T>)
    requires 0 <= offset && 0 <= limit && heapLen <= MAX_INT64 && |tail| == (if heapLen < offset then 0 else heapLen - offset)
    ensures out == tail[..Min(limit, |tail|)]
  {
    out := [];
    var n := 0;
    var i := offset;
    while i < heapLen
      invariant offset <= i && n == i - offset <= |tail| && out == tail[..n] && n <= limit
    {
      if limit < MAX_INT64 {
        if n >= limit {
          break;
        }
      }
      out := out + [tail[i - offset]];
      n := n + 1;
      i := i + 1;
    }
  }

  ghost predicate SortOf<T(!new)>(less: (T, T) -> bool, rows: seq<T>, sorted: seq<T>)
  {
    multiset(sorted) == multiset(rows) && Sorted(less, sorted)
  }

  // Past the first offset elements, the next limit of them or as many as there are.
  function Page<T>(s: seq<T>, offset: nat, limit: nat): (p: seq<T>)
    ensures |p| == if |s| <= offset then 0 else if |s| - offset <= limit then |s| - offset else limit
    ensures forall i :: 0 <= i < |p| ==> p[i] == s[offset + i]
  {
    s[Min(offset, |s|)..Min(offset + limit, |s|)]
  }

  // Whichever way ties are broken, each position of the page holds the same place in the order.
  lemma {:induction false} PagesTie<T(!new)>(less: (T, T) -> bool, rows: seq<T>, a: seq<T>, b: seq<T>, offset: nat, limit: nat)
    requires WeakOrder(less, multiset(rows)) && SortOf(less, rows, a) && SortOf(less, rows, b)
    ensures |Page(a, offset, limit)| == |Page(b, offset, limit)|
    ensures forall i :: 0 <= i < |Page(a, offset, limit)| ==>
              !less(Page(a, offset, limit)[i], Page(b, offset, limit)[i]) && !less(Page(b, offset, limit)[i], Page(a, offset, limit)[i])
  {
    SameLength(a, b);
    forall i | 0 <= i < |a| ensures !less(a[i], b[i]) && !less(b[i], a[i]) {
      NotBefore(less, rows, a, b, i);
      NotBefore(less, rows, b, a, i);
    }
  }

  // Otherwise b's first i items would hold a's first i + 1.
  lemma {:induction false} NotBefore<T(!new)>(less: (T, T) -> bool, rows: seq<T>, a: seq<T>, b: seq<T>, i: nat)
    requires WeakOrder(less, multiset(rows)) && SortOf(less, rows, a) && SortOf(less, rows, b) && |a| == |b| && i < |a|
    ensures !less(a[i], b[i])
  {
    if less(a[i], b[i]) {
      var low, rest, first, high := a[..i + 1], a[i + 1..], b[..i], b[i..];
      assert a == low + rest && b == first + high;
      forall k, l | 0 <= k <= i <= l < |b| ensures a[k] != b[l] {
        StrictlyBefore(less, rows, a, b, i, k, l);
      }
      forall x | x in low ensures x !in high {
        var k :| 0 <= k <= i && low[k] == x;
        assert a[k] == x;
      }
      FitsIn(low, rest, first, high);
      assert false;
    }
  }

  lemma {:induction false} StrictlyBefore<T(!new)>(less: (T, T) -> bool, rows: seq<T>, a: seq<T>, b: seq<T>, i: nat, k: nat, l: nat)
    requires WeakOrder(less, multiset(rows)) && SortOf(less, rows, a) && SortOf(less, rows, b) && |a| == |b|
    requires k <= i <= l < |a| && less(a[i], b[i])
    ensures a[k] != b[l]
  {
    var x, y, z, w := a[k], a[i], b[i], b[l];
    assert x in multiset(a) && y in multiset(a) && z in multiset(b) && w in multiset(b);
    assert !less(y, x) || k == i;
    assert !less(w, z) || i == l;
    assert less(x, z);
  }

  // What shares nothing with high is in first.
  lemma {:induction false} FitsIn<T>(low: seq<T>, rest: seq<T>, first: seq<T>, high: seq<T>)
    requires multiset(low + rest) == multiset(first + high)
    requires forall x :: x in low ==> x !in high
    ensures |low| <= |first|
  {
    assert multiset(low) + multiset(rest) == multiset(low + rest) == multiset(first) + multiset(high);
    forall x ensures multiset(low)[x] <= multiset(first)[x] {
      if multiset(low)[x] > 0 {
        assert x in low && multiset(high)[x] == 0;
        assert (multiset(low) + multiset(rest))[x] == (multiset(first) + multiset(high))[x];
      }
    }
    NoLarger(low, first);
  }

  lemma NoLarger<T>(a: seq<T>, b: seq<T>)
    requires multiset(a) <= multiset(b)
    ensures |a| <= |b|
  {
    assert multiset(b) == multiset(a) + (multiset(b) - multiset(a));
    assert |multiset(a)| == |a| && |multiset(b)| == |b|;
  }

  // The rows from position offset on, limit of them at most, of the fully sorted input.
  method OrderOffsetLimit<T(==, !new)>(less: (T, T) -> bool, rows: seq<T>, offset: Key, limit: Key) returns (out: seq<T>)
    requires WeakOrder(less, multiset(rows)) && 0 <= offset && 0 <= limit && |rows| <= MAX_INT64
    ensures exists sorted :: SortOf(less, rows, sorted) && out == Page(sorted, offset, limit)
  {
    var offsetPlusLimit := OffsetPlusLimit(offset, limit);
    var heap := new MaxHeap(less);
    ghost var dropped := FillHeap(heap, offsetPlusLimit, rows);
    var heapLen := |heap.items|;
    ghost var kept := multiset(heap.items);
    WeakOrderOfSome(less, multiset(rows), kept);
    var tail := heap.Sort(offset);
    ghost var sorted := Arrange(less, rows, heap.items, tail, kept, dropped);
    ghost var low := |heap.items|;
    SizesAdd(heap.items, tail, kept, heapLen);
    out := EmitSlots(tail, offset, limit, heapLen);
    OutIsSlice(sorted, low, tail, offset, limit, heapLen, out);
    assert SortOf(less, rows, sorted) && out == Page(sorted, offset, limit);
  }

  lemma OutIsSlice<T>(sorted: seq<T>, low: nat, tail: seq<T>, offset: Key, limit: Key, heapLen: nat, out: seq<T>)
    requires 0 <= offset && 0 <= limit && |sorted| <= MAX_INT64 && heapLen == Min(|sorted|, OffsetPlusLimit(offset, limit))
    requires low == (if heapLen < offset then heapLen else offset) && low + |tail| == heapLen && sorted[low..low + |tail|] == tail
    requires out == tail[..Min(limit, |tail|)]
    ensures out == sorted[Min(offset, |sorted|)..Min(offset + limit, |sorted|)]
  {
    SliceOfSlice(sorted, low, heapLen, out);
    if |sorted| < offset {
      assert out == [] && sorted[|sorted|..|sorted|] == [];
    } else {
      assert heapLen >= offset || limit == 0;
    }
  }

  lemma SizesAdd<T>(a: seq<T>, b: seq<T>, m: multiset<T>, n: nat)
    requires multiset(a) + multiset(b) == m && |m| == n
    ensures |a| + |b| == n
  {
    assert |multiset(a)| == |a| && |multiset(b)| == |b|;
  }

  lemma SliceOfSlice<T>(s: seq<T>, i: nat, j: nat, p: seq<T>)
    requires i <= j <= |s| && |p| <= j - i && p == s[i..j][..|p|]
    ensures p == s[i..i + |p|]
  {
  }

  // What was left unsorted, what Sort put in order, and what was dropped, as one sorted arrangement.
  lemma Arrange<T(!new)>(less: (T, T) -> bool, rows: seq<T>, low: seq<T>, tail: seq<T>, kept: multiset<T>, dropped: multiset<T>) returns (sorted: seq<T>)
    requires WeakOrder(less, multiset(rows)) && kept + dropped == multiset(rows) && Below(less, kept, dropped)
    requires multiset(low) + multiset(tail) == kept && Sorted(less, tail) && Below(less, multiset(low), multiset(tail))
    ensures multiset(sorted) == multiset(rows) && |sorted| == |rows| && Sorted(less, sorted)
    ensures |low| + |tail| <= |sorted| && sorted[|low|..|low| + |tail|] == tail
  {
    WeakOrderOfSome(less, multiset(rows), multiset(low));
    WeakOrderOfSome(less, multiset(rows), dropped);
    var first := SortExists(less, low);
    var rest := SeqOf(dropped);
    var last := SortExists(less, rest);
    SameLength(first, low);
    AppendSorts(less, first, tail);
    assert multiset(first + tail) == kept;
    AppendSorts(less, first + tail, last);
    sorted := first + tail + last;
    SameLength(sorted, rows);
  }

  ghost function SeqOf<T>(m: multiset<T>): (s: seq<T>)
    ensures multiset(s) == m
    decreases |m|
  {
    if m == multiset{} then [] else var x :| x in m; [x] + SeqOf(m - multiset{x})
  }
}
