// engine/op_merge_scan.go: K sorted children merged into one ordered stream.
module MergeScan {
  import opened MergeHeaps
  import opened MergeRows

  // ---------------------------------------------------------------- cursors

  ghost predicate Cursors<V>(keyed: seq<seq<Rec<V>>>, pos: seq<nat>)
  {
    |pos| == |keyed| && forall c :: 0 <= c < |keyed| ==> pos[c] <= |keyed[c]|
  }

  ghost predicate Live<V>(keyed: seq<seq<Rec<V>>>, pos: seq<nat>, c: nat)
  {
    c < |keyed| == |pos| && pos[c] < |keyed[c]|
  }

  // What the frontier heap holds: the head of each live cursor among the first k.
  ghost function Heads<V>(keyed: seq<seq<Rec<V>>>, pos: seq<nat>, k: nat): multiset<Rec<nat>>
  {
    if k == 0 then multiset{}
    else Heads(keyed, pos, k - 1) + HeadOf(keyed, pos, k - 1)
  }

  // What the cursors have delivered so far.
  ghost function Taken<V>(keyed: seq<seq<Rec<V>>>, pos: seq<nat>, k: nat): multiset<Rec<V>>
    requires Cursors(keyed, pos) && k <= |keyed|
  {
    if k == 0 then multiset{} else Taken(keyed, pos, k - 1) + multiset(keyed[k - 1][..pos[k - 1]])
  }

  ghost function AllRows<V>(keyed: seq<seq<Rec<V>>>, k: nat): multiset<Rec<V>>
    requires k <= |keyed|
  {
    if k == 0 then multiset{} else AllRows(keyed, k - 1) + multiset(keyed[k - 1])
  }

  lemma {:induction false} HeadsMember<V>(keyed: seq<seq<Rec<V>>>, pos: seq<nat>, k: nat, r: Rec<nat>)
    ensures r in Heads(keyed, pos, k) <==>
            r.vals < k && Live(keyed, pos, r.vals) && r.key == keyed[r.vals][pos[r.vals]].key
    decreases k
  {
    if k > 0 {
      HeadsMember(keyed, pos, k - 1, r);
    }
  }

  lemma {:induction false} HeadsElsewhere<V>(keyed: seq<seq<Rec<V>>>, pos: seq<nat>, c: nat, p: nat, k: nat)
    requires c < |pos| && k <= c
    ensures Heads(keyed, pos[c := p], k) == Heads(keyed, pos, k)
    decreases k
  {
    if k > 0 {
      HeadsElsewhere(keyed, pos, c, p, k - 1);
    }
  }

  ghost function HeadOf<V>(keyed: seq<seq<Rec<V>>>, pos: seq<nat>, c: nat): multiset<Rec<nat>>
  {
    if Live(keyed, pos, c) then multiset{Rec(keyed[c][pos[c]].key, c)} else multiset{}
  }

  // Moving one cursor exchanges its own head only.
  lemma {:induction false} HeadsMove<V>(keyed: seq<seq<Rec<V>>>, pos: seq<nat>, c: nat, p: nat, k: nat)
    requires c < |pos| && c < k
    ensures Heads(keyed, pos[c := p], k) + HeadOf(keyed, pos, c) == Heads(keyed, pos, k) + HeadOf(keyed, pos[c := p], c)
    decreases k
  {
    var pos', more := pos[c := p], HeadOf(keyed, pos, k - 1);
    if c == k - 1 {
      HeadsElsewhere(keyed, pos, c, p, k - 1);
      Exchange(Heads(keyed, pos, c), HeadOf(keyed, pos', c), more);
    } else {
      HeadsMove(keyed, pos, c, p, k - 1);
      assert HeadOf(keyed, pos', k - 1) == more;
      AddBoth(Heads(keyed, pos', k - 1), HeadOf(keyed, pos, c), Heads(keyed, pos, k - 1), HeadOf(keyed, pos', c), more);
    }
  }

  lemma Exchange<T>(a: multiset<T>, b: multiset<T>, c: multiset<T>)
    ensures (a + b) + c == (a + c) + b
  {
  }

  lemma AddBoth<T>(a: multiset<T>, b: multiset<T>, c: multiset<T>, d: multiset<T>, more: multiset<T>)
    requires a + b == c + d
    ensures (a + more) + b == (c + more) + d
  {
    assert (a + more) + b == (a + b) + more;
    assert (c + more) + d == (c + d) + more;
  }

  lemma {:induction false} TakenElsewhere<V>(keyed: seq<seq<Rec<V>>>, pos: seq<nat>, c: nat, k: nat)
    requires Cursors(keyed, pos) && Live(keyed, pos, c) && k <= c
    ensures Taken(keyed, pos[c := pos[c] + 1], k) == Taken(keyed, pos, k)
    decreases k
  {
    if k > 0 {
      TakenElsewhere(keyed, pos, c, k - 1);
    }
  }

  lemma {:induction false} TakenMove<V>(keyed: seq<seq<Rec<V>>>, pos: seq<nat>, c: nat, k: nat)
    requires Cursors(keyed, pos) && Live(keyed, pos, c) && c < k <= |keyed|
    ensures Taken(keyed, pos[c := pos[c] + 1], k) == Taken(keyed, pos, k) + multiset{keyed[c][pos[c]]}
    decreases k
  {
    if c == k - 1 {
      TakenElsewhere(keyed, pos, c, k - 1);
      assert keyed[c][..pos[c] + 1] == keyed[c][..pos[c]] + [keyed[c][pos[c]]];
    } else {
      TakenMove(keyed, pos, c, k - 1);
    }
  }

  lemma {:induction false} TakenNothing<V>(keyed: seq<seq<Rec<V>>>, pos: seq<nat>, k: nat)
    requires Cursors(keyed, pos) && k <= |keyed| && forall c :: 0 <= c < |pos| ==> pos[c] == 0
    ensures Taken(keyed, pos, k) == multiset{}
    decreases k
  {
    if k > 0 {
      TakenNothing(keyed, pos, k - 1);
    }
  }

  lemma {:induction false} TakenEverything<V>(keyed: seq<seq<Rec<V>>>, pos: seq<nat>, k: nat)
    requires Cursors(keyed, pos) && k <= |keyed| && forall c :: 0 <= c < |keyed| ==> !Live(keyed, pos, c)
    ensures Taken(keyed, pos, k) == AllRows(keyed, k)
    decreases k
  {
    if k > 0 {
      TakenEverything(keyed, pos, k - 1);
      assert !Live(keyed, pos, k - 1);
      assert keyed[k - 1][..pos[k - 1]] == keyed[k - 1];
    }
  }

  // ---------------------------------------------------------------- the frontier

  ghost predicate Frontier<V>(heap: MergeHeap<nat>, keyed: seq<seq<Rec<V>>>, pos: seq<nat>)
    reads heap
  {
    heap.Valid() && Cursors(keyed, pos) && heap.Contents() == Heads(keyed, pos, |keyed|)
  }

  method OpenCursors<V>(keyed: seq<seq<Rec<V>>>) returns (heap: MergeHeap<nat>, pos: seq<nat>)
    ensures fresh(heap) && Frontier(heap, keyed, pos) && forall c :: 0 <= c < |pos| ==> pos[c] == 0
  {
    heap := new MergeHeap();
    pos := seq(|keyed|, i => 0);
    for ci := 0 to |keyed|
      invariant fresh(heap) && heap.Valid() && heap.Contents() == Heads(keyed, pos, ci)
    {
      ghost var had := heap.Contents();
      if pos[ci] < |keyed[ci]| {
        heap.Push(keyed[ci][pos[ci]].key, ci);
      }
      assert heap.Contents() == had + HeadOf(keyed, pos, ci);
    }
  }

  // The entry popped is a live cursor's head, and no live head is smaller.
  lemma {:induction false} LeastHead<V>(keyed: seq<seq<Rec<V>>>, pos: seq<nat>, e: Rec<nat>)
    requires e in Heads(keyed, pos, |keyed|)
    requires forall r :: r in Heads(keyed, pos, |keyed|) ==> e.key <= r.key
    ensures Live(keyed, pos, e.vals) && e.key == keyed[e.vals][pos[e.vals]].key
    ensures forall c: nat :: Live(keyed, pos, c) ==> e.key <= keyed[c][pos[c]].key
  {
    HeadsMember(keyed, pos, |keyed|, e);
    forall c: nat | Live(keyed, pos, c) ensures e.key <= keyed[c][pos[c]].key {
      HeadsMember(keyed, pos, |keyed|, Rec(keyed[c][pos[c]].key, c));
    }
  }

  // What is left after that pop is every head of the advanced cursors but the advanced one's own.
  lemma {:induction false} HeadsAfterPop<V>(keyed: seq<seq<Rec<V>>>, pos: seq<nat>, c: nat, rest: multiset<Rec<nat>>)
    requires Cursors(keyed, pos) && Live(keyed, pos, c)
    requires rest + HeadOf(keyed, pos, c) == Heads(keyed, pos, |keyed|)
    ensures var pos' := pos[c := pos[c] + 1];
            Cursors(keyed, pos') && Heads(keyed, pos', |keyed|) == rest + HeadOf(keyed, pos', c)
  {
    var p: nat := pos[c] + 1;
    HeadsMove(keyed, pos, c, p, |keyed|);
    Cancel(Heads(keyed, pos[c := p], |keyed|), rest + HeadOf(keyed, pos[c := p], c), HeadOf(keyed, pos, c));
  }

  // Pop the frontier's least head, advance its cursor, and push its new head back.
  method Next<V>(heap: MergeHeap<nat>, keyed: seq<seq<Rec<V>>>, pos: seq<nat>)
    returns (ci: nat, rec: Rec<V>, pos': seq<nat>)
    requires Frontier(heap, keyed, pos) && |heap.keys| > 0
    modifies heap
    ensures Live(keyed, pos, ci) && rec == keyed[ci][pos[ci]] && pos' == pos[ci := pos[ci] + 1]
    ensures Frontier(heap, keyed, pos')
    ensures forall c: nat :: Live(keyed, pos, c) ==> rec.key <= keyed[c][pos[c]].key
  {
    ghost var heads := heap.Contents();
    var key;
    key, ci := heap.PopMin();
    assert Rec(key, ci) in heads;
    LeastHead(keyed, pos, Rec(key, ci));
    HeadsAfterPop(keyed, pos, ci, heap.Contents());
    rec := keyed[ci][pos[ci]];
    pos' := pos[ci := pos[ci] + 1];
    if pos'[ci] < |keyed[ci]| {
      heap.Push(keyed[ci][pos'[ci]].key, ci);
    }
  }

  lemma {:induction false} NoHead<V>(keyed: seq<seq<Rec<V>>>, pos: seq<nat>, c: nat)
    requires Live(keyed, pos, c)
    ensures Heads(keyed, pos, |keyed|) != multiset{}
  {
    HeadsMember(keyed, pos, |keyed|, Rec(keyed[c][pos[c]].key, c));
  }

  // An empty frontier means that every cursor is exhausted.
  lemma FrontierEmpty<V>(heap: MergeHeap<nat>, keyed: seq<seq<Rec<V>>>, pos: seq<nat>)
    requires Frontier(heap, keyed, pos) && |heap.keys| == 0
    ensures forall c: nat :: !Live(keyed, pos, c)
  {
    assert heap.Contents() == multiset{};
    forall c: nat ensures !Live(keyed, pos, c) {
      if Live(keyed, pos, c) {
        NoHead(keyed, pos, c);
      }
    }
  }

  // ---------------------------------------------------------------- the strict heap merge

  // The rows of out that came from child c, in the order they were yielded.
  ghost function Picked<V>(out: seq<Rec<V>>, from: seq<nat>, c: nat, n: nat): seq<Rec<V>>
    requires n <= |out| == |from|
  {
    if n == 0 then []
    else Picked(out, from, c, n - 1) + (if from[n - 1] == c then [out[n - 1]] else [])
  }

  lemma {:induction false} PickedExtends<V>(out: seq<Rec<V>>, from: seq<nat>, r: Rec<V>, f: nat, c: nat, n: nat)
    requires n <= |out| == |from|
    ensures Picked(out + [r], from + [f], c, n) == Picked(out, from, c, n)
    decreases n
  {
    if n > 0 {
      PickedExtends(out, from, r, f, c, n - 1);
    }
  }

  // out interleaves the delivered prefixes, keeping each child's own order.
  ghost predicate Interleaves<V>(out: seq<Rec<V>>, from: seq<nat>, keyed: seq<seq<Rec<V>>>, pos: seq<nat>)
    requires Cursors(keyed, pos)
  {
    && |out| == |from|
    && multiset(out) == Taken(keyed, pos, |keyed|)
    && forall c: nat :: c < |keyed| ==> Picked(out, from, c, |out|) == keyed[c][..pos[c]]
  }

  lemma {:induction false} PickedNext<V>(out: seq<Rec<V>>, from: seq<nat>, child: seq<Rec<V>>, p: nat, r: Rec<V>, f: nat, c: nat)
    requires |out| == |from| && p <= |child| && Picked(out, from, c, |out|) == child[..p]
    requires f == c ==> p < |child| && r == child[p]
    ensures Picked(out + [r], from + [f], c, |out| + 1) == child[..if f == c then p + 1 else p]
  {
    PickedExtends(out, from, r, f, c, |out|);
    assert f == c ==> child[..p + 1] == child[..p] + [r];
  }

  lemma {:induction false} InterleavesNext<V>(out: seq<Rec<V>>, from: seq<nat>, keyed: seq<seq<Rec<V>>>, pos: seq<nat>, ci: nat)
    requires Cursors(keyed, pos) && Live(keyed, pos, ci) && Interleaves(out, from, keyed, pos)
    ensures Cursors(keyed, pos[ci := pos[ci] + 1])
    ensures Interleaves(out + [keyed[ci][pos[ci]]], from + [ci], keyed, pos[ci := pos[ci] + 1])
  {
    var r := keyed[ci][pos[ci]];
    var pos' := pos[ci := pos[ci] + 1];
    TakenMove(keyed, pos, ci, |keyed|);
    assert multiset(out + [r]) == Taken(keyed, pos', |keyed|);
    forall c: nat | c < |keyed| ensures Picked(out + [r], from + [ci], c, |out + [r]|) == keyed[c][..pos'[c]] {
      PickedNext(out, from, keyed[c], pos[c], r, ci, c);
    }
  }

  // What was delivered is ascending and not above lastKey.
  ghost predicate DeliveredUpTo<V>(keyed: seq<seq<Rec<V>>>, pos: seq<nat>, lastKey: Key)
    requires Cursors(keyed, pos)
  {
    forall c: nat :: c < |keyed| ==> Ascending(keyed[c][..pos[c]]) && AllBelow(keyed[c][..pos[c]], lastKey)
  }

  lemma {:induction false} DeliveredNext<V>(keyed: seq<seq<Rec<V>>>, pos: seq<nat>, ci: nat, lastKey: Key)
    requires Cursors(keyed, pos) && Live(keyed, pos, ci) && DeliveredUpTo(keyed, pos, lastKey)
    requires lastKey <= keyed[ci][pos[ci]].key
    ensures DeliveredUpTo(keyed, pos[ci := pos[ci] + 1], keyed[ci][pos[ci]].key)
  {
    var r := keyed[ci][pos[ci]];
    AscendingExtends(keyed[ci][..pos[ci]], r);
    assert keyed[ci][..pos[ci] + 1] == keyed[ci][..pos[ci]] + [r];
  }

  // No live head is below lastKey.
  ghost predicate HeadsAbove<V>(keyed: seq<seq<Rec<V>>>, pos: seq<nat>, lastKey: Key)
  {
    forall c: nat :: Live(keyed, pos, c) ==> lastKey <= keyed[c][pos[c]].key
  }

  lemma {:induction false} HeadsAboveNext<V>(keyed: seq<seq<Rec<V>>>, pos: seq<nat>, ci: nat)
    requires Cursors(keyed, pos) && Live(keyed, pos, ci) && AllAscending(keyed) && HeadsAbove(keyed, pos, keyed[ci][pos[ci]].key)
    ensures HeadsAbove(keyed, pos[ci := pos[ci] + 1], keyed[ci][pos[ci]].key)
  {
    var pos' := pos[ci := pos[ci] + 1];
    forall c: nat | Live(keyed, pos', c) ensures keyed[ci][pos[ci]].key <= keyed[c][pos'[c]].key {
      assert c != ci ==> Live(keyed, pos, c);
    }
  }

  lemma {:induction false} AllDelivered<V>(out: seq<Rec<V>>, from: seq<nat>, keyed: seq<seq<Rec<V>>>, pos: seq<nat>, lastKey: Key)
    requires Cursors(keyed, pos) && Interleaves(out, from, keyed, pos) && DeliveredUpTo(keyed, pos, lastKey)
    requires forall c: nat :: !Live(keyed, pos, c)
    ensures AllAscending(keyed) && multiset(out) == AllRows(keyed, |keyed|)
    ensures forall c: nat :: c < |keyed| ==> Picked(out, from, c, |out|) == keyed[c]
  {
    TakenEverything(keyed, pos, |keyed|);
    forall c: nat | c < |keyed| ensures keyed[c][..pos[c]] == keyed[c] {
      assert !Live(keyed, pos, c);
    }
  }

  lemma {:induction false} NothingDelivered<V>(keyed: seq<seq<Rec<V>>>, pos: seq<nat>, lastKey: Key)
    requires Cursors(keyed, pos) && forall c :: 0 <= c < |pos| ==> pos[c] == 0
    ensures Interleaves([], [], keyed, pos) && DeliveredUpTo(keyed, pos, lastKey)
  {
    TakenNothing(keyed, pos, |keyed|);
  }

  lemma AscendingStep<V>(out: seq<Rec<V>>, r: Rec<V>)
    requires Ascending(out) && (|out| > 0 ==> out[|out| - 1].key <= r.key)
    ensures Ascending(out + [r])
  {
  }

  // The merge loop's state between two pops.
  ghost predicate Merging<V>(out: seq<Rec<V>>, from: seq<nat>, keyed: seq<seq<Rec<V>>>, pos: seq<nat>, lastKey: Key, emitted: bool)
  {
    && Cursors(keyed, pos)
    && Interleaves(out, from, keyed, pos) && DeliveredUpTo(keyed, pos, lastKey)
    && Ascending(out)
    && (emitted <==> |out| > 0)
    && lastKey == (if emitted then out[|out| - 1].key else MIN_INT64)
    && (AllAscending(keyed) ==> HeadsAbove(keyed, pos, lastKey))
  }

  lemma {:induction false} MergingNext<V>(out: seq<Rec<V>>, from: seq<nat>, keyed: seq<seq<Rec<V>>>, pos: seq<nat>, lastKey: Key, emitted: bool, ci: nat)
    requires Merging(out, from, keyed, pos, lastKey, emitted) && Live(keyed, pos, ci)
    requires lastKey <= keyed[ci][pos[ci]].key && HeadsAbove(keyed, pos, keyed[ci][pos[ci]].key)
    ensures Merging(out + [keyed[ci][pos[ci]]], from + [ci], keyed, pos[ci := pos[ci] + 1], keyed[ci][pos[ci]].key, true)
  {
    AscendingStep(out, keyed[ci][pos[ci]]);
    InterleavesNext(out, from, keyed, pos, ci);
    DeliveredNext(keyed, pos, ci, lastKey);
    if AllAscending(keyed) {
      HeadsAboveNext(keyed, pos, ci);
    }
  }

  // How many rows the cursors have not delivered.
  ghost function Left<V>(keyed: seq<seq<Rec<V>>>, pos: seq<nat>, k: nat): nat
    requires Cursors(keyed, pos) && k <= |keyed|
  {
    if k == 0 then 0 else Left(keyed, pos, k - 1) + (|keyed[k - 1]| - pos[k - 1])
  }

  lemma {:induction false} LeftNext<V>(keyed: seq<seq<Rec<V>>>, pos: seq<nat>, c: nat, k: nat)
    requires Cursors(keyed, pos) && Live(keyed, pos, c) && k <= |keyed|
    ensures Left(keyed, pos[c := pos[c] + 1], k) == Left(keyed, pos, k) - (if c < k then 1 else 0)
    decreases k
  {
    if k > 0 {
      LeftNext(keyed, pos, c, k - 1);
    }
  }

  // mergeScanHeap: what it yields is ascending whatever the children hold, it fails exactly when some
  // child steps backwards, and otherwise it yields every keyed row once, each child's in its own order.
  method MergeScanHeap<V>(keyed: seq<seq<Rec<V>>>) returns (out: seq<Rec<V>>, err: MergeErr, ghost from: seq<nat>)
    ensures Ascending(out) && |from| == |out|
    ensures err.Ok? <==> AllAscending(keyed)
    ensures err.Ok? ==> multiset(out) == AllRows(keyed, |keyed|)
    ensures err.Ok? ==> forall c: nat :: c < |keyed| ==> Picked(out, from, c, |out|) == keyed[c]
  {
    var heap, pos := OpenCursors(keyed);
    var lastKey: Key, emitted := MIN_INT64, false;
    out, err, from := [], Ok, [];
    NothingDelivered(keyed, pos, lastKey);
    while |heap.keys| > 0
      invariant fresh(heap) && Frontier(heap, keyed, pos)
      invariant Merging(out, from, keyed, pos, lastKey, emitted)
      decreases Left(keyed, pos, |keyed|)
    {
      ghost var was := pos;
      var ci, rec;
      ci, rec, pos := Next(heap, keyed, pos);
      if emitted && rec.key < lastKey {
        err := OutOfOrder(ci, rec.key, lastKey);
        return;
      }
      MergingNext(out, from, keyed, was, lastKey, emitted, ci);
      LeftNext(keyed, was, ci, |keyed|);
      out := out + [rec];
      from := from + [ci];
      lastKey, emitted := rec.key, true;
    }
    FrontierEmpty(heap, keyed, pos);
    AllDelivered(out, from, keyed, pos, lastKey);
  }
}
