// engine/op_merge_scan.go: near-sorted children merged under a watermark, K at a time or streamed.
module MergeNear {
  import opened MergeHeaps
  import opened MergeRows
  import opened MergeScan
  import opened MergeReorder
  import opened MergeTrips

  ghost predicate AllWithinBound<V>(keyed: seq<seq<Rec<V>>>, bound: Key)
  {
    forall c :: 0 <= c < |keyed| ==> WithinBound(keyed[c], bound)
  }

  // Nothing that is still to come is below k.
  ghost predicate TailsAbove<V>(keyed: seq<seq<Rec<V>>>, pos: seq<nat>, k: Key)
    requires Cursors(keyed, pos)
  {
    forall c: nat, p: nat :: c < |keyed| && pos[c] <= p < |keyed[c]| ==> k <= keyed[c][p].key
  }

  // With no live child left the watermark is +inf; otherwise the frontier's least key less the bound.
  function KwayMark(heads: seq<Key>, effBound: Key): Key
  {
    if |heads| == 0 then MAX_INT64 else Watermark(heads[0], effBound)
  }

  lemma {:induction false} MarkIsSafe<V>(keyed: seq<seq<Rec<V>>>, pos: seq<nat>, front: Key, bound: Key)
    requires Cursors(keyed, pos) && bound >= 0 && AllWithinBound(keyed, bound)
    requires forall c: nat :: Live(keyed, pos, c) ==> front <= keyed[c][pos[c]].key
    ensures TailsAbove(keyed, pos, Watermark(front, bound))
  {
    forall c: nat, p: nat | c < |keyed| && pos[c] <= p < |keyed[c]| ensures Watermark(front, bound) <= keyed[c][p].key {
      assert Live(keyed, pos, c);
      assert WithinBound(keyed[c], bound);
      assert pos[c] < p ==> keyed[c][pos[c]].key - bound <= keyed[c][p].key;
    }
  }

  // The frontier's root is not above any live head.
  lemma {:induction false} FrontIsLeast<V>(heap: MergeHeap<nat>, keyed: seq<seq<Rec<V>>>, pos: seq<nat>)
    requires Frontier(heap, keyed, pos) && |heap.keys| > 0
    ensures forall c: nat :: Live(keyed, pos, c) ==> heap.keys[0] <= keyed[c][pos[c]].key
  {
    heap.MinIsLeast();
    forall c: nat | Live(keyed, pos, c) ensures heap.keys[0] <= keyed[c][pos[c]].key {
      HeadsMember(keyed, pos, |keyed|, Rec(keyed[c][pos[c]].key, c));
    }
  }

  // The loop's watermark is the one that the least live head brings.
  lemma {:induction false} FrontMark<V>(heap: MergeHeap<nat>, keyed: seq<seq<Rec<V>>>, pos: seq<nat>, bound: Key)
    requires Frontier(heap, keyed, pos)
    ensures IsMark(keyed, pos, bound, KwayMark(heap.keys, bound))
  {
    if |heap.keys| == 0 {
      FrontierEmpty(heap, keyed, pos);
    } else {
      FrontIsLeast(heap, keyed, pos);
      var r := Zip(heap.keys, heap.vals)[0];
      assert r in heap.Contents();
      HeadsMember(keyed, pos, |keyed|, r);
      assert Least(keyed, pos, r.vals);
    }
  }

  // The trip so far is the loop's, and it tells of the run whether a row was late.
  ghost predicate Tracks<V>(keyed: seq<seq<Rec<V>>>, bound: Key, pos: seq<nat>, run: Run<V>, order: seq<Rec<V>>, marks: seq<Key>, t: Trip<V>)
  {
    && Greedy(keyed, bound, t) && t.At() == pos && t.order == order
    && (run.warned == 0 ==> t.marks == marks && NoneLate(t))
    && (run.warned > 0 ==> !NoneLate(t))
  }

  ghost predicate Logged<V>(keyed: seq<seq<Rec<V>>>, bound: Key, t: Trip<V>, run: Run<V>, log: Log<V>)
  {
    KwayLog(keyed, bound, t, log) && log.Now() == run.At()
  }

  // One turn: a row enters, after which the run is in', and the buffer is drained to wm.
  ghost predicate Turned<V>(keyed: seq<seq<Rec<V>>>, t: Trip<V>, run: Run<V>, t': Trip<V>, in': Run<V>, wm: Key, run': Run<V>)
  {
    && t'.path != [] && t'.order != [] && t'.marks != []
    && t' == t.Further(t'.At(), t'.order[|t'.order| - 1], t'.marks[|t'.marks| - 1])
    && Admits(run.At(), t'.order[|t'.order| - 1], in'.At())
    && IsMark(keyed, t'.At(), in'.effBound, wm) && Drains(t'.order, in'.At(), wm, run'.At())
  }

  lemma {:induction false} LoggedNext<V>(keyed: seq<seq<Rec<V>>>, bound: Key, t: Trip<V>, run: Run<V>, log: Log<V>, t': Trip<V>, in': Run<V>, wm: Key, run': Run<V>)
    requires Logged(keyed, bound, t, run, log) && Greedy(keyed, bound, t) && Turned(keyed, t, run, t', in', wm, run')
    ensures Logged(keyed, bound, t', run', log.Further(in'.At(), wm, run'.At()))
  {
    KwayLogNext(keyed, bound, t, log, t'.At(), t'.order[|t'.order| - 1], t'.marks[|t'.marks| - 1], in'.At(), wm, run'.At());
  }

  // What MergeScanKway promises of a trip and a log: the run follows them, and is clean if no row was late.
  ghost predicate KwayRun<V>(keyed: seq<seq<Rec<V>>>, bound: Key, t: Trip<V>, log: Log<V>, run: Run<V>)
  {
    && Greedy(keyed, bound, t) && AllTaken(keyed, t.At()) && (run.Clean() <==> NoneLate(t))
    && (run.err.Ok? ==> Logged(keyed, bound, t, run, log))
  }

  // One row further; m is the mark that the declared bound gives, wm the one in effect.
  lemma {:induction false} TracksNext<V>(keyed: seq<seq<Rec<V>>>, bound: Key, pos: seq<nat>, run: Run<V>, order: seq<Rec<V>>, marks: seq<Key>, t: Trip<V>,
                                         c: nat, m: Key, held: multiset<Rec<V>>)
    requires Tracks(keyed, bound, pos, run, order, marks, t) && run.Holds(held, order, marks)
    requires Least(keyed, pos, c) && IsMark(keyed, pos[c := pos[c] + 1], bound, m)
    ensures var t' := t.Further(pos[c := pos[c] + 1], keyed[c][pos[c]], m);
            && Greedy(keyed, bound, t') && t'.At() == pos[c := pos[c] + 1] && t'.order == order + [keyed[c][pos[c]]]
            && (NoneLate(t') <==> run.warned == 0 && !(run.emitted && keyed[c][pos[c]].key < run.lastKey))
            && (run.warned == 0 ==> t'.marks == marks + [m])
  {
    var pos', r := pos[c := pos[c] + 1], keyed[c][pos[c]];
    GreedyNext(keyed, bound, t, c, m);
    if run.warned == 0 {
      NextIsLate(t, pos', r, m, run.out);
    } else {
      LateStays(t, pos', r, m);
    }
  }

  lemma {:induction false} NothingToCome<V>(keyed: seq<seq<Rec<V>>>, pos: seq<nat>, k: Key)
    requires Cursors(keyed, pos) && forall c: nat :: !Live(keyed, pos, c)
    ensures TailsAbove(keyed, pos, k)
  {
    assert forall c: nat :: c < |keyed| && !Live(keyed, pos, c) ==> pos[c] >= |keyed[c]|;
  }

  lemma {:induction false} KwayMarkIsSafe<V>(heap: MergeHeap<nat>, keyed: seq<seq<Rec<V>>>, pos: seq<nat>, bound: Key)
    requires Frontier(heap, keyed, pos) && bound >= 0 && AllWithinBound(keyed, bound)
    ensures TailsAbove(keyed, pos, KwayMark(heap.keys, bound))
  {
    if |heap.keys| == 0 {
      FrontierEmpty(heap, keyed, pos);
      NothingToCome(keyed, pos, MAX_INT64);
    } else {
      FrontIsLeast(heap, keyed, pos);
      MarkIsSafe(keyed, pos, heap.keys[0], bound);
    }
  }

  // A single child's watermarks: the next row's key less the bound.
  function KwayMarks<V>(rows: seq<Rec<V>>, bound: Key): (r: seq<Key>)
    ensures |r| == |rows|
  {
    seq(|rows|, l requires 0 <= l < |rows| => if l + 1 < |rows| then Watermark(rows[l + 1].key, bound) else MAX_INT64)
  }

  lemma {:induction false} OnlyHead<V>(heap: MergeHeap<nat>, keyed: seq<seq<Rec<V>>>, pos: seq<nat>, bound: Key)
    requires Frontier(heap, keyed, pos) && |keyed| == 1 && 0 < pos[0]
    ensures KwayMark(heap.keys, bound) == KwayMarks(keyed[0], bound)[pos[0] - 1]
  {
    assert Heads(keyed, pos, 1) == Heads(keyed, pos, 0) + HeadOf(keyed, pos, 0);
    assert |heap.Contents()| == |Zip(heap.keys, heap.vals)| == |heap.keys|;
    if Live(keyed, pos, 0) {
      assert Zip(heap.keys, heap.vals)[0] in heap.Contents();
    }
  }

  lemma {:induction false} KwayMarkFits<V>(heap: MergeHeap<nat>, keyed: seq<seq<Rec<V>>>, pos: seq<nat>, bound: Key)
    requires Frontier(heap, keyed, pos) && bound >= 0
    ensures AllWithinBound(keyed, bound) ==> TailsAbove(keyed, pos, KwayMark(heap.keys, bound))
    ensures |keyed| == 1 && 0 < pos[0] ==> KwayMark(heap.keys, bound) == KwayMarks(keyed[0], bound)[pos[0] - 1]
  {
    if AllWithinBound(keyed, bound) {
      KwayMarkIsSafe(heap, keyed, pos, bound);
    }
    if |keyed| == 1 && 0 < pos[0] {
      OnlyHead(heap, keyed, pos, bound);
    }
  }

  // A single child so far, in a clean run: n rows were taken in its own order, none of them late.
  ghost predicate Alone<V>(rows: seq<Rec<V>>, bound: Key, n: nat, order: seq<Rec<V>>, marks: seq<Key>)
    requires n <= |rows|
  {
    order == rows[..n] && marks == KwayMarks(rows, bound)[..n] && NeverLate(rows, KwayMarks(rows, bound), n)
  }

  lemma {:induction false} AloneNext<V>(rows: seq<Rec<V>>, bound: Key, n: nat, order: seq<Rec<V>>, marks: seq<Key>, out: seq<Rec<V>>)
    requires n < |rows| && Alone(rows, bound, n, order, marks) && Explained(out, order, marks)
    ensures LateAt(rows, KwayMarks(rows, bound), n) <==> |out| > 0 && rows[n].key < out[|out| - 1].key
    ensures !LateAt(rows, KwayMarks(rows, bound), n) ==>
              Alone(rows, bound, n + 1, order + [rows[n]], marks + [KwayMarks(rows, bound)[n]])
  {
    LateSoFar(rows, KwayMarks(rows, bound), n);
    LateIsBelowLast(out, order, marks, rows[n].key);
  }

  // Children within the declared bound: nothing was late, and nothing to come will be.
  ghost predicate InBound<V>(keyed: seq<seq<Rec<V>>>, pos: seq<nat>, bound: Key, run: Run<V>)
    requires Cursors(keyed, pos)
  {
    AllWithinBound(keyed, bound) ==> run.warned == 0 && run.effBound == bound && (run.emitted ==> TailsAbove(keyed, pos, run.lastKey))
  }

  ghost predicate InOrder<V>(keyed: seq<seq<Rec<V>>>, pos: seq<nat>, bound: Key, order: seq<Rec<V>>, marks: seq<Key>)
    requires Cursors(keyed, pos)
  {
    |keyed| == 1 ==> Alone(keyed[0], bound, pos[0], order, marks)
  }

  // What the loop keeps besides the buffer: the rows taken, and why none of them is late.
  ghost predicate Nearing<V>(keyed: seq<seq<Rec<V>>>, pos: seq<nat>, bound: Key, run: Run<V>, order: seq<Rec<V>>, marks: seq<Key>)
    requires Cursors(keyed, pos)
  {
    && |order| == |marks| && multiset(order) == Taken(keyed, pos, |keyed|)
    && InBound(keyed, pos, bound, run)
    && (run.strict ==> run.warned == 0)
    && (run.warned == 0 ==> run.effBound == bound && InOrder(keyed, pos, bound, order, marks))
    && (run.warned > 0 && |keyed| == 1 ==> !NeverLate(keyed[0], KwayMarks(keyed[0], bound), pos[0]))
  }

  lemma {:induction false} NotLateWithinBound<V>(keyed: seq<seq<Rec<V>>>, pos: seq<nat>, bound: Key, run: Run<V>, ci: nat)
    requires Cursors(keyed, pos) && Live(keyed, pos, ci) && InBound(keyed, pos, bound, run)
    requires AllWithinBound(keyed, bound)
    ensures !(run.emitted && keyed[ci][pos[ci]].key < run.lastKey)
  {
  }

  lemma {:induction false} TailsShrink<V>(keyed: seq<seq<Rec<V>>>, pos: seq<nat>, ci: nat, k: Key)
    requires Cursors(keyed, pos) && Live(keyed, pos, ci) && TailsAbove(keyed, pos, k)
    ensures TailsAbove(keyed, pos[ci := pos[ci] + 1], k)
  {
  }

  // One row further: in' is the run once the row has entered, run' once the buffer has been drained to wm.
  lemma {:induction false} InBoundNext<V>(keyed: seq<seq<Rec<V>>>, pos: seq<nat>, bound: Key, run: Run<V>, ci: nat, in': Run<V>, run': Run<V>, wm: Key)
    requires Cursors(keyed, pos) && Live(keyed, pos, ci) && InBound(keyed, pos, bound, run)
    requires !(run.emitted && keyed[ci][pos[ci]].key < run.lastKey) ==> in' == run
    requires run'.Since(in') && (run'.emitted ==> run'.lastKey <= wm || (in'.emitted && run'.lastKey == in'.lastKey))
    requires AllWithinBound(keyed, bound) ==> TailsAbove(keyed, pos[ci := pos[ci] + 1], wm)
    ensures InBound(keyed, pos[ci := pos[ci] + 1], bound, run')
  {
    var pos' := pos[ci := pos[ci] + 1];
    if AllWithinBound(keyed, bound) {
      NotLateWithinBound(keyed, pos, bound, run, ci);
      if run.emitted {
        TailsShrink(keyed, pos, ci, run.lastKey);
      }
      if run'.emitted {
        TailsBelow(keyed, pos', wm, run'.lastKey);
      }
    }
  }

  lemma {:induction false} TailsBelow<V>(keyed: seq<seq<Rec<V>>>, pos: seq<nat>, wm: Key, k: Key)
    requires Cursors(keyed, pos) && TailsAbove(keyed, pos, wm)
    ensures k <= wm ==> TailsAbove(keyed, pos, k)
  {
  }

  lemma {:induction false} InOrderNext<V>(keyed: seq<seq<Rec<V>>>, pos: seq<nat>, bound: Key, out: seq<Rec<V>>, order: seq<Rec<V>>, marks: seq<Key>, ci: nat, wm: Key)
    requires Cursors(keyed, pos) && Live(keyed, pos, ci) && InOrder(keyed, pos, bound, order, marks) && Explained(out, order, marks)
    requires |out| > 0 ==> out[|out| - 1].key <= keyed[ci][pos[ci]].key
    requires |keyed| == 1 ==> wm == KwayMarks(keyed[0], bound)[pos[0]]
    ensures InOrder(keyed, pos[ci := pos[ci] + 1], bound, order + [keyed[ci][pos[ci]]], marks + [wm])
  {
    if |keyed| == 1 {
      AloneNext(keyed[0], bound, pos[0], order, marks, out);
    }
  }

  // Row n was late, or an earlier one.
  lemma {:induction false} LateOnceMore<V>(rows: seq<Rec<V>>, bound: Key, n: nat, run: Run<V>, order: seq<Rec<V>>, marks: seq<Key>, held: multiset<Rec<V>>)
    requires n < |rows| && run.Holds(held, order, marks)
    requires if run.warned == 0 then Alone(rows, bound, n, order, marks) && run.emitted && rows[n].key < run.lastKey
             else !NeverLate(rows, KwayMarks(rows, bound), n)
    ensures !NeverLate(rows, KwayMarks(rows, bound), n + 1)
  {
    if run.warned == 0 {
      AloneNext(rows, bound, n, order, marks, run.out);
    } else {
      var j: nat :| j < n && LateAt(rows, KwayMarks(rows, bound), j);
    }
  }

  lemma {:induction false} NearingNext<V>(keyed: seq<seq<Rec<V>>>, pos: seq<nat>, bound: Key, run: Run<V>, order: seq<Rec<V>>, marks: seq<Key>,
                                          ci: nat, in': Run<V>, run': Run<V>, wm: Key, held: multiset<Rec<V>>)
    requires Cursors(keyed, pos) && Live(keyed, pos, ci) && Nearing(keyed, pos, bound, run, order, marks) && run.Holds(held, order, marks)
    requires !(run.emitted && keyed[ci][pos[ci]].key < run.lastKey) ==> in' == run
    requires run.emitted && keyed[ci][pos[ci]].key < run.lastKey ==> !run.strict && !in'.strict && in'.warned == run.warned + 1
    requires run'.Since(in') && (run'.emitted ==> run'.lastKey <= wm || (in'.emitted && run'.lastKey == in'.lastKey))
    requires AllWithinBound(keyed, bound) ==> TailsAbove(keyed, pos[ci := pos[ci] + 1], wm)
    requires |keyed| == 1 && in'.warned == 0 ==> wm == KwayMarks(keyed[0], bound)[pos[0]]
    ensures Nearing(keyed, pos[ci := pos[ci] + 1], bound, run', order + [keyed[ci][pos[ci]]], marks + [wm])
  {
    TakenMove(keyed, pos, ci, |keyed|);
    InBoundNext(keyed, pos, bound, run, ci, in', run', wm);
    if in'.warned == 0 {
      InOrderNext(keyed, pos, bound, run.out, order, marks, ci, wm);
    } else if |keyed| == 1 {
      LateOnceMore(keyed[0], bound, pos[0], run, order, marks, held);
    }
  }

  // A strict run that refuses a row: some child is out of bound, and alone that row is late.
  lemma {:induction false} NearingFails<V>(keyed: seq<seq<Rec<V>>>, pos: seq<nat>, bound: Key, run: Run<V>, order: seq<Rec<V>>, marks: seq<Key>,
                                           ci: nat, held: multiset<Rec<V>>)
    requires Cursors(keyed, pos) && Live(keyed, pos, ci) && Nearing(keyed, pos, bound, run, order, marks) && run.Holds(held, order, marks)
    requires run.strict && run.emitted && keyed[ci][pos[ci]].key < run.lastKey
    ensures !AllWithinBound(keyed, bound)
    ensures |keyed| == 1 ==> !NeverLate(keyed[0], KwayMarks(keyed[0], bound), |keyed[0]|)
  {
    if AllWithinBound(keyed, bound) {
      NotLateWithinBound(keyed, pos, bound, run, ci);
    }
    if |keyed| == 1 {
      AloneNext(keyed[0], bound, pos[0], order, marks, run.out);
    }
  }

  lemma {:induction false} NearingEnds<V>(keyed: seq<seq<Rec<V>>>, pos: seq<nat>, bound: Key, run: Run<V>, order: seq<Rec<V>>, marks: seq<Key>)
    requires Cursors(keyed, pos) && Nearing(keyed, pos, bound, run, order, marks) && forall c: nat :: !Live(keyed, pos, c)
    ensures multiset(order) == AllRows(keyed, |keyed|)
    ensures |keyed| == 1 ==> (run.warned == 0 <==> NeverLate(keyed[0], KwayMarks(keyed[0], bound), |keyed[0]|))
  {
    TakenEverything(keyed, pos, |keyed|);
    if |keyed| == 1 {
      assert !Live(keyed, pos, 0);
    }
  }

  // The last watermark, +inf, empties the buffer.
  lemma NothingHeldAtEnd<V>(buf: MergeHeap<V>, watermark: Key)
    requires buf.Valid() && forall r :: r in buf.Contents() ==> r.key > watermark
    ensures watermark == MAX_INT64 ==> |buf.keys| == 0
  {
    if watermark == MAX_INT64 {
      assert forall r :: r in buf.Contents() ==> r.key <= MAX_INT64;
      assert buf.Contents() == multiset{};
      assert |Zip(buf.keys, buf.vals)| == |buf.Contents()|;
    }
  }

  // Row r entered, or was refused because it was late in a strict run.
  ghost predicate Entered<V>(run: Run<V>, r: Rec<V>, in': Run<V>)
  {
    && in'.strict == run.strict && in'.out == run.out
    && (in'.err.Ok? <==> !(run.strict && run.emitted && r.key < run.lastKey))
    && (!(run.emitted && r.key < run.lastKey) ==> in' == run)
    && (run.emitted && r.key < run.lastKey && !run.strict ==> in'.warned == run.warned + 1)
    && (in'.err.Ok? ==> Admits(run.At(), r, in'.At()))
  }

  // The watermark wm is the frontier's under the bound in effect, m under the declared bound.
  ghost predicate Marked<V>(keyed: seq<seq<Rec<V>>>, pos: seq<nat>, bound: Key, effBound: Key, wm: Key, m: Key)
    requires Cursors(keyed, pos)
  {
    && IsMark(keyed, pos, effBound, wm) && IsMark(keyed, pos, bound, m) && (effBound == bound ==> wm == m)
    && (effBound == bound && AllWithinBound(keyed, bound) ==> TailsAbove(keyed, pos, wm))
    && (effBound == bound && |keyed| == 1 && 0 < pos[0] ==> wm == KwayMarks(keyed[0], bound)[pos[0] - 1])
  }

  // The buffer was drained to wm.
  ghost predicate Emptied<V>(in': Run<V>, order: seq<Rec<V>>, wm: Key, run': Run<V>)
  {
    && run'.err.Ok? && run'.Since(in') && Drains(order, in'.At(), wm, run'.At())
    && (run'.emitted ==> run'.lastKey <= wm || (in'.emitted && run'.lastKey == in'.lastKey))
  }

  // The least head enters the buffer unless it is late in a strict run.
  method KwayTake<V>(heap: MergeHeap<nat>, buf: MergeHeap<V>, keyed: seq<seq<Rec<V>>>, pos: seq<nat>, run: Run<V>, ghost order: seq<Rec<V>>, ghost marks: seq<Key>)
    returns (pos': seq<nat>, run': Run<V>, ci: nat)
    requires (heap as object) != buf
    requires Frontier(heap, keyed, pos) && |heap.keys| > 0 && buf.Valid() && run.err.Ok?
    requires run.Holds(buf.Contents(), order, marks)
    modifies heap, buf
    ensures Least(keyed, pos, ci) && pos' == pos[ci := pos[ci] + 1] && Frontier(heap, keyed, pos') && buf.Valid()
    ensures Entered(run, keyed[ci][pos[ci]], run')
    ensures run'.err.Ok? ==> run'.Holds(buf.Contents(), order + [keyed[ci][pos[ci]]], marks)
  {
    var rec;
    ci, rec, pos' := Next(heap, keyed, pos);
    run' := Ingest(buf, run, ci, rec, order, marks);
  }

  // What the frontier makes safe leaves the buffer.
  method KwayDrain<V>(heap: MergeHeap<nat>, buf: MergeHeap<V>, ghost keyed: seq<seq<Rec<V>>>, ghost pos: seq<nat>, run: Run<V>, ghost maxBound: Key, ghost order: seq<Rec<V>>, ghost marks: seq<Key>)
    returns (run': Run<V>, ghost wm: Key)
    requires (heap as object) != buf && maxBound >= 0 && |order| == |marks| + 1
    requires Frontier(heap, keyed, pos) && buf.Valid() && run.err.Ok? && run.Holds(buf.Contents(), order, marks)
    modifies buf
    ensures Frontier(heap, keyed, pos) && buf.Valid() && (|heap.keys| == 0 ==> |buf.keys| == 0)
    ensures Emptied(run, order, wm, run') && run'.Holds(buf.Contents(), order, marks + [wm])
    ensures Marked(keyed, pos, maxBound, run.effBound, wm, KwayMark(heap.keys, maxBound))
  {
    var watermark := KwayMark(heap.keys, run.effBound);
    wm := watermark;
    KwayMarkFits(heap, keyed, pos, maxBound);
    FrontMark(heap, keyed, pos, run.effBound);
    FrontMark(heap, keyed, pos, maxBound);
    run' := EmitSafe(buf, run, watermark, order, marks);
    NothingHeldAtEnd(buf, watermark);
  }

  lemma {:induction false} TurnTracks<V>(keyed: seq<seq<Rec<V>>>, bound: Key, pos: seq<nat>, run: Run<V>, order: seq<Rec<V>>, marks: seq<Key>, t: Trip<V>,
                                         ci: nat, held: multiset<Rec<V>>, in': Run<V>, wm: Key, m: Key, run': Run<V>)
    requires Tracks(keyed, bound, pos, run, order, marks, t) && run.Holds(held, order, marks)
    requires Least(keyed, pos, ci) && Entered(run, keyed[ci][pos[ci]], in') && in'.err.Ok?
    requires IsMark(keyed, pos[ci := pos[ci] + 1], bound, m) && (in'.warned == 0 ==> wm == m)
    requires Emptied(in', order + [keyed[ci][pos[ci]]], wm, run') && (in'.strict ==> in'.warned == 0)
    ensures Tracks(keyed, bound, pos[ci := pos[ci] + 1], run', order + [keyed[ci][pos[ci]]], marks + [wm], t.Further(pos[ci := pos[ci] + 1], keyed[ci][pos[ci]], m))
  {
    TracksNext(keyed, bound, pos, run, order, marks, t, ci, m, held);
  }

  lemma {:induction false} TurnNears<V>(keyed: seq<seq<Rec<V>>>, bound: Key, pos: seq<nat>, run: Run<V>, order: seq<Rec<V>>, marks: seq<Key>,
                                        ci: nat, held: multiset<Rec<V>>, in': Run<V>, wm: Key, m: Key, run': Run<V>)
    requires Cursors(keyed, pos) && Nearing(keyed, pos, bound, run, order, marks) && run.Holds(held, order, marks)
    requires Least(keyed, pos, ci) && Entered(run, keyed[ci][pos[ci]], in') && in'.err.Ok?
    requires Marked(keyed, pos[ci := pos[ci] + 1], bound, in'.effBound, wm, m)
    requires Emptied(in', order + [keyed[ci][pos[ci]]], wm, run')
    ensures Nearing(keyed, pos[ci := pos[ci] + 1], bound, run', order + [keyed[ci][pos[ci]]], marks + [wm])
    ensures in'.warned == 0 ==> wm == m
  {
    if AllWithinBound(keyed, bound) {
      NotLateWithinBound(keyed, pos, bound, run, ci);
    }
    NearingNext(keyed, pos, bound, run, order, marks, ci, in', run', wm, held);
  }

  lemma {:induction false} TurnDone<V>(keyed: seq<seq<Rec<V>>>, bound: Key, pos: seq<nat>, run: Run<V>, order: seq<Rec<V>>, marks: seq<Key>, t: Trip<V>,
                                       ci: nat, held: multiset<Rec<V>>, in': Run<V>, wm: Key, m: Key, run': Run<V>, t': Trip<V>)
    requires Cursors(keyed, pos) && Nearing(keyed, pos, bound, run, order, marks) && run.Holds(held, order, marks)
    requires Tracks(keyed, bound, pos, run, order, marks, t)
    requires Least(keyed, pos, ci) && Entered(run, keyed[ci][pos[ci]], in') && in'.err.Ok?
    requires Marked(keyed, pos[ci := pos[ci] + 1], bound, in'.effBound, wm, m)
    requires Emptied(in', order + [keyed[ci][pos[ci]]], wm, run')
    requires t' == t.Further(pos[ci := pos[ci] + 1], keyed[ci][pos[ci]], m)
    ensures Nearing(keyed, pos[ci := pos[ci] + 1], bound, run', order + [keyed[ci][pos[ci]]], marks + [wm])
    ensures Tracks(keyed, bound, pos[ci := pos[ci] + 1], run', order + [keyed[ci][pos[ci]]], marks + [wm], t')
    ensures Turned(keyed, t, run, t', in', wm, run')
  {
    TurnNears(keyed, bound, pos, run, order, marks, ci, held, in', wm, m, run');
    TurnTracks(keyed, bound, pos, run, order, marks, t, ci, held, in', wm, m, run');
  }

  lemma {:induction false} TurnFails<V>(keyed: seq<seq<Rec<V>>>, bound: Key, pos: seq<nat>, run: Run<V>, order: seq<Rec<V>>, marks: seq<Key>, t: Trip<V>,
                                        ci: nat, held: multiset<Rec<V>>, in': Run<V>, m: Key)
    requires Cursors(keyed, pos) && Nearing(keyed, pos, bound, run, order, marks) && run.Holds(held, order, marks)
    requires Tracks(keyed, bound, pos, run, order, marks, t) && Least(keyed, pos, ci)
    requires Entered(run, keyed[ci][pos[ci]], in') && !in'.err.Ok? && IsMark(keyed, pos[ci := pos[ci] + 1], bound, m)
    ensures in'.strict && !AllWithinBound(keyed, bound)
    ensures |keyed| == 1 ==> !NeverLate(keyed[0], KwayMarks(keyed[0], bound), |keyed[0]|)
    ensures var t' := t.Further(pos[ci := pos[ci] + 1], keyed[ci][pos[ci]], m); Greedy(keyed, bound, t') && !NoneLate(t')
  {
    TracksNext(keyed, bound, pos, run, order, marks, t, ci, m, held);
    NearingFails(keyed, pos, bound, run, order, marks, ci, held);
  }

  // One turn of the loop: the least head enters the buffer, and what the frontier makes safe leaves it.
  method KwayTurn<V>(heap: MergeHeap<nat>, buf: MergeHeap<V>, keyed: seq<seq<Rec<V>>>, pos: seq<nat>, run: Run<V>, ghost maxBound: Key, ghost order: seq<Rec<V>>, ghost marks: seq<Key>, ghost t: Trip<V>)
    returns (pos': seq<nat>, run': Run<V>, ghost order': seq<Rec<V>>, ghost marks': seq<Key>, ghost t': Trip<V>, ghost in': Run<V>, ghost wm: Key)
    requires (heap as object) != buf
    requires Frontier(heap, keyed, pos) && |heap.keys| > 0 && buf.Valid() && run.err.Ok? && maxBound >= 0
    requires run.Holds(buf.Contents(), order, marks) && Nearing(keyed, pos, maxBound, run, order, marks)
    requires Tracks(keyed, maxBound, pos, run, order, marks, t)
    modifies heap, buf
    ensures run'.strict == run.strict && buf.Valid()
    ensures run'.err.Ok? ==> Tracks(keyed, maxBound, pos', run', order', marks', t') && Turned(keyed, t, run, t', in', wm, run')
    ensures !run'.err.Ok? ==> Greedy(keyed, maxBound, t') && !NoneLate(t')
    ensures Cursors(keyed, pos') && Left(keyed, pos', |keyed|) < Left(keyed, pos, |keyed|)
    ensures run'.err.Ok? ==>
              && Frontier(heap, keyed, pos') && (|heap.keys| == 0 ==> |buf.keys| == 0)
              && run'.Holds(buf.Contents(), order', marks') && Nearing(keyed, pos', maxBound, run', order', marks')
    ensures !run'.err.Ok? ==> run'.strict && !AllWithinBound(keyed, maxBound) && run'.out == run.out
    ensures !run'.err.Ok? && |keyed| == 1 ==> !NeverLate(keyed[0], KwayMarks(keyed[0], maxBound), |keyed[0]|)
  {
    var ci;
    ghost var held := buf.Contents();
    pos', run', ci := KwayTake(heap, buf, keyed, pos, run, order, marks);
    LeftNext(keyed, pos, ci, |keyed|);
    ghost var m := KwayMark(heap.keys, maxBound);
    in', order', marks', wm := run', order + [keyed[ci][pos[ci]]], marks, m;
    t' := t.Further(pos', keyed[ci][pos[ci]], m);
    if !run'.err.Ok? {
      FrontMark(heap, keyed, pos', maxBound);
      TurnFails(keyed, maxBound, pos, run, order, marks, t, ci, held, in', m);
      return;
    }
    run', wm := KwayDrain(heap, buf, keyed, pos', run', maxBound, order', marks);
    TurnDone(keyed, maxBound, pos, run, order, marks, t, ci, held, in', wm, m, run', t');
    marks' := marks + [wm];
  }

  // mergeScanWatermarked's loop over the K cursors. Strict output ascends whatever the children hold; a
  // clean run, and any widening run, yields every keyed row once; children within the declared bound
  // raise nothing. A run is clean exactly when, taking a least head each time, no row is below one that a
  // watermark has passed; a child alone can be taken in one way only.
  method MergeScanKway<V>(keyed: seq<seq<Rec<V>>>, maxBound: Key, strict: bool) returns (run: Run<V>)
    requires maxBound >= 0
    ensures run.strict == strict && (strict || run.warned == 0 ==> Ascending(run.out))
    ensures run.err.Ok? ==> multiset(run.out) == AllRows(keyed, |keyed|)
    ensures !strict ==> run.err.Ok?
    ensures AllWithinBound(keyed, maxBound) ==> run.err.Ok? && run.warned == 0
    ensures exists t: Trip<V>, log: Log<V> :: KwayRun(keyed, maxBound, t, log, run)
    ensures |keyed| == 1 ==> (run.Clean() <==> NeverLate(keyed[0], KwayMarks(keyed[0], maxBound), |keyed[0]|))
    ensures strict && run.err.Ok? ==> run.warned == 0
  {
    var heap, pos := OpenCursors(keyed);
    var buf: MergeHeap<V> := new MergeHeap();
    ghost var order, marks, t, log;
    run, pos, order, marks, t, log := KwayLoop(heap, buf, keyed, pos, maxBound, strict);
    if run.err.Ok? {
      NearingEnds(keyed, pos, maxBound, run, order, marks);
      ghost var done := run;
      run := EmitSafe(buf, run, MAX_INT64, order, marks);
      assert run == done;
    } else {
      t := Finish(keyed, maxBound, t);
    }
    assert KwayRun(keyed, maxBound, t, log, run);
  }

  // Turns until the frontier is empty or a row is refused.
  method KwayLoop<V>(heap: MergeHeap<nat>, buf: MergeHeap<V>, keyed: seq<seq<Rec<V>>>, start: seq<nat>, maxBound: Key, strict: bool)
    returns (run: Run<V>, pos: seq<nat>, ghost order: seq<Rec<V>>, ghost marks: seq<Key>, ghost t: Trip<V>, ghost log: Log<V>)
    requires (heap as object) != buf && maxBound >= 0 && buf.Valid() && buf.keys == []
    requires Frontier(heap, keyed, start) && forall c :: 0 <= c < |start| ==> start[c] == 0
    modifies heap, buf
    ensures run.strict == strict && buf.Valid() && Greedy(keyed, maxBound, t)
    ensures run.err.Ok? ==>
              && Cursors(keyed, pos) && AllTaken(keyed, pos) && |buf.keys| == 0
              && run.Holds(buf.Contents(), order, marks) && Nearing(keyed, pos, maxBound, run, order, marks)
              && Tracks(keyed, maxBound, pos, run, order, marks, t) && Logged(keyed, maxBound, t, run, log)
    ensures !run.err.Ok? ==> run.strict && !AllWithinBound(keyed, maxBound) && Ascending(run.out) && !NoneLate(t)
    ensures !run.err.Ok? && |keyed| == 1 ==> !NeverLate(keyed[0], KwayMarks(keyed[0], maxBound), |keyed[0]|)
  {
    pos := start;
    run := StartRun(strict, maxBound);
    order, marks := [], [];
    TakenNothing(keyed, pos, |keyed|);
    t, log := Trip([pos], order, marks), Log([run.At()], [], []);
    while |heap.keys| > 0
      invariant Frontier(heap, keyed, pos)
      invariant buf.Valid() && run.err.Ok? && run.strict == strict
      invariant run.Holds(buf.Contents(), order, marks) && Nearing(keyed, pos, maxBound, run, order, marks)
      invariant Tracks(keyed, maxBound, pos, run, order, marks, t) && Logged(keyed, maxBound, t, run, log)
      invariant |heap.keys| == 0 ==> |buf.keys| == 0
      decreases Left(keyed, pos, |keyed|)
    {
      ghost var was, before, in', wm := run, t, run, 0;
      pos, run, order, marks, t, in', wm := KwayTurn(heap, buf, keyed, pos, run, maxBound, order, marks, t);
      if !run.err.Ok? {
        return;
      }
      LoggedNext(keyed, maxBound, before, was, log, t, in', wm, run);
      log := log.Further(in'.At(), wm, run.At());
    }
    FrontierEmpty(heap, keyed, pos);
  }
}
