// engine/op_merge_scan.go: the watermark and the reorder buffer for near-sorted children.
module MergeReorder {
  import opened MergeHeaps
  import opened MergeRows

  // mergeWatermark below a live frontier: int64 subtraction with the source's underflow guard.
  function Watermark(front: Key, effBound: Key): (wm: Key)
    ensures effBound >= 0 ==> wm == if front - effBound < MIN_INT64 then MIN_INT64 else front - effBound
  {
    var wm := Wrap(front - effBound);
    if effBound > 0 && wm > front then MIN_INT64 else wm
  }

  // Every key is at most bound behind each earlier one.
  ghost predicate WithinBound<V>(rows: seq<Rec<V>>, bound: Key)
  {
    forall i, j :: 0 <= i < j < |rows| ==> rows[i].key - bound <= rows[j].key
  }

  // Row i was in the buffer when it was drained up to marks[l].
  ghost predicate Passed<V>(order: seq<Rec<V>>, marks: seq<Key>, i: nat, l: nat)
  {
    i <= l < |marks| && i < |order| && order[i].key <= marks[l]
  }

  ghost predicate Late<V>(order: seq<Rec<V>>, marks: seq<Key>, k: Key)
  {
    exists i: nat, l: nat :: Passed(order, marks, i, l) && k < order[i].key
  }

  // Ascending output, and nothing held back that belongs before its end.
  ghost predicate Settled<V>(out: seq<Rec<V>>, held: multiset<Rec<V>>)
  {
    Ascending(out) && (|out| > 0 ==> AllAbove(held, out[|out| - 1].key))
  }

  // The last key yielded is the greatest one that a watermark has passed.
  ghost predicate Explained<V>(out: seq<Rec<V>>, order: seq<Rec<V>>, marks: seq<Key>)
  {
    && (forall i: nat, l: nat :: Passed(order, marks, i, l) ==> |out| > 0 && order[i].key <= out[|out| - 1].key)
    && (|out| > 0 ==> exists i: nat, l: nat :: Passed(order, marks, i, l) && order[i].key == out[|out| - 1].key)
  }

  // Row j falls behind row i, which marks[l] had passed before.
  ghost predicate LateBy<V>(rows: seq<Rec<V>>, marks: seq<Key>, i: nat, l: nat, j: nat)
  {
    i <= l < j < |rows| && l < |marks| && rows[j].key < rows[i].key <= marks[l]
  }

  ghost predicate LateAt<V>(rows: seq<Rec<V>>, marks: seq<Key>, j: nat)
  {
    exists i: nat, l: nat :: LateBy(rows, marks, i, l, j)
  }

  lemma {:induction false} LateSoFar<V>(rows: seq<Rec<V>>, marks: seq<Key>, j: nat)
    requires |marks| == |rows| && j < |rows|
    ensures Late(rows[..j], marks[..j], rows[j].key) <==> LateAt(rows, marks, j)
  {
    if Late(rows[..j], marks[..j], rows[j].key) {
      var i: nat, l: nat :| Passed(rows[..j], marks[..j], i, l) && rows[j].key < rows[..j][i].key;
      assert LateBy(rows, marks, i, l, j);
    }
    if LateAt(rows, marks, j) {
      var i: nat, l: nat :| LateBy(rows, marks, i, l, j);
      assert Passed(rows[..j], marks[..j], i, l) && rows[j].key < rows[..j][i].key;
    }
  }

  ghost predicate NeverLate<V>(rows: seq<Rec<V>>, marks: seq<Key>, n: nat)
  {
    forall j: nat :: j < n ==> !LateAt(rows, marks, j)
  }

  lemma LateIsBelowLast<V>(out: seq<Rec<V>>, order: seq<Rec<V>>, marks: seq<Key>, k: Key)
    requires Explained(out, order, marks)
    ensures Late(order, marks, k) <==> |out| > 0 && k < out[|out| - 1].key
  {
  }

  lemma SettledPop<V>(out: seq<Rec<V>>, held: multiset<Rec<V>>, r: Rec<V>, rest: multiset<Rec<V>>)
    requires Settled(out, held) && held == rest + multiset{r} && AllAbove(held, r.key)
    ensures Settled(out + [r], rest) && (|out| > 0 ==> out[|out| - 1].key <= r.key)
  {
    assert r in held;
    forall x | x in rest ensures r.key <= x.key {
      assert x in held;
    }
    assert (out + [r])[|out|] == r;
  }

  lemma SettledPush<V>(out: seq<Rec<V>>, held: multiset<Rec<V>>, r: Rec<V>)
    requires Settled(out, held) && (|out| > 0 ==> out[|out| - 1].key <= r.key)
    ensures Settled(out, held + multiset{r})
  {
  }

  lemma ExplainedPush<V>(out: seq<Rec<V>>, order: seq<Rec<V>>, marks: seq<Key>, r: Rec<V>)
    requires Explained(out, order, marks) && |marks| <= |order|
    ensures Explained(out, order + [r], marks)
  {
    forall i: nat, l: nat | Passed(order + [r], marks, i, l)
      ensures |out| > 0 && (order + [r])[i].key <= out[|out| - 1].key
    {
      assert Passed(order, marks, i, l);
    }
    if |out| > 0 {
      var i: nat, l: nat :| Passed(order, marks, i, l) && order[i].key == out[|out| - 1].key;
      assert Passed(order + [r], marks, i, l);
    }
  }

  // The bound in effect, what was yielded and the warnings raised, between two steps.
  datatype Stand<V> = Stand(bound: Key, out: seq<Rec<V>>, warned: nat)

  // A whole run: the stand before each row and at the end, the stand in the middle of each turn, and the
  // watermark of each turn.
  datatype Log<V> = Log(at: seq<Stand<V>>, mid: seq<Stand<V>>, marks: seq<Key>)
  {
    function Now(): Stand<V>
      requires at != []
    {
      at[|at| - 1]
    }

    function Further(m: Stand<V>, wm: Key, s: Stand<V>): Log<V>
    {
      Log(at + [s], mid + [m], marks + [wm])
    }
  }

  // What entered and was not yet yielded.
  ghost function Held<V>(entered: seq<Rec<V>>, out: seq<Rec<V>>): multiset<Rec<V>>
  {
    multiset(entered) - multiset(out)
  }

  // A row with key k belongs before something already yielded.
  ghost predicate Behind<V>(out: seq<Rec<V>>, k: Key)
  {
    |out| > 0 && k < out[|out| - 1].key
  }

  // Exactly the held rows at or below the watermark are yielded, ascending; a warning is due if the first of
  // them belongs before what was yielded earlier.
  ghost predicate Drains<V>(entered: seq<Rec<V>>, s: Stand<V>, wm: Key, s': Stand<V>)
  {
    && multiset(s'.out) <= multiset(entered)
    && s'.bound == s.bound && |s.out| <= |s'.out| && s.out == s'.out[..|s.out|]
    && Ascending(s'.out[|s.out|..]) && AllBelow(s'.out[|s.out|..], wm)
    && (forall r :: r in Held(entered, s'.out) ==> r.key > wm)
    && s'.warned == if |s.out| < |s'.out| && Behind(s.out, s'.out[|s.out|].key) then s.warned + 1 else s.warned
  }

  // Row r enters. If it is late, that is a warning, and the bound grows to the int64 difference by which it
  // fell behind, unless it is that wide already.
  ghost predicate Admits<V>(s: Stand<V>, r: Rec<V>, s': Stand<V>)
  {
    && s'.out == s.out
    && (!Behind(s.out, r.key) ==> s'.bound == s.bound && s'.warned == s.warned)
    && (Behind(s.out, r.key) ==>
          && s'.warned == s.warned + 1
          && s.bound <= s'.bound && Wrap(s.out[|s.out| - 1].key - r.key) <= s'.bound
          && (s'.bound == s.bound || s'.bound == Wrap(s.out[|s.out| - 1].key - r.key)))
  }

  // From was, the rows the watermark passes are moving to the output.
  ghost predicate Draining<V>(was: seq<Rec<V>>, out: seq<Rec<V>>, held: multiset<Rec<V>>, order: seq<Rec<V>>, wm: Key, calm: bool)
  {
    && |was| <= |out| && was == out[..|was|]
    && (|out| > |was| ==> out[|out| - 1].key <= wm && AllAbove(held, out[|out| - 1].key))
    && Ascending(out[|was|..])
    && multiset(out) + held == multiset(order)
    && (calm ==> Settled(out, held) && (|was| > 0 ==> was[|was| - 1].key <= out[|out| - 1].key))
  }

  lemma {:induction false} DrainedPush<V>(was: seq<Rec<V>>, out: seq<Rec<V>>, r: Rec<V>)
    requires |was| <= |out| && Ascending(out[|was|..]) && (|out| > |was| ==> out[|out| - 1].key <= r.key)
    ensures Ascending((out + [r])[|was|..])
  {
    assert (out + [r])[|was|..] == out[|was|..] + [r];
    if |out| > |was| {
      AscendingLast(out[|was|..]);
    }
    AscendingExtends(out[|was|..], r);
  }

  lemma {:induction false} DrainingStep<V>(was: seq<Rec<V>>, out: seq<Rec<V>>, held: multiset<Rec<V>>, order: seq<Rec<V>>, wm: Key, calm: bool, r: Rec<V>, rest: multiset<Rec<V>>)
    requires Draining(was, out, held, order, wm, calm) && r.key <= wm
    requires held == rest + multiset{r} && AllAbove(held, r.key)
    ensures Draining(was, out + [r], rest, order, wm, calm)
    ensures (calm && |out| > 0) || |out| > |was| ==> out[|out| - 1].key <= r.key
  {
    if calm {
      SettledPop(out, held, r, rest);
    }
    assert r in held;
    DrainedPush(was, out, r);
    forall x | x in rest ensures r.key <= x.key {
      assert x in held;
    }
    assert (out + [r])[|out|] == r;
    assert multiset(out + [r]) + rest == multiset(out) + held;
  }

  // Draining up to a watermark leaves the last key explained.
  lemma {:induction false} ExplainedDrain<V>(was: seq<Rec<V>>, out: seq<Rec<V>>, held: multiset<Rec<V>>, order: seq<Rec<V>>, marks: seq<Key>, wm: Key)
    requires Explained(was, order, marks) && |order| == |marks| + 1
    requires Draining(was, out, held, order, wm, true)
    requires forall r :: r in held ==> r.key > wm
    ensures Explained(out, order, marks + [wm])
  {
    forall i: nat, l: nat | Passed(order, marks + [wm], i, l)
      ensures |out| > 0 && order[i].key <= out[|out| - 1].key
    {
      if l < |marks| {
        assert Passed(order, marks, i, l);
      } else {
        assert order[i] in multiset(order);
        assert order[i] in multiset(out);
        AscendingLast(out);
      }
    }
    if |out| > |was| {
      assert out[|out| - 1] in multiset(out);
      assert out[|out| - 1] in multiset(order);
      var i: nat :| i < |order| && order[i] == out[|out| - 1];
      assert Passed(order, marks + [wm], i, |marks|);
    } else if |out| > 0 {
      var i: nat, l: nat :| Passed(order, marks, i, l) && order[i].key == was[|was| - 1].key;
      assert Passed(order, marks + [wm], i, l);
    }
  }

  // The variables that both watermarked loops share with their closures: the bound in effect, the last
  // key yielded if any, what was yielded, and how many late rows were let through with a warning.
  datatype Run<V> = Run(strict: bool, effBound: Key, lastKey: Key, emitted: bool, out: seq<Rec<V>>, warned: nat, err: MergeErr)
  {
    ghost predicate Calm()
    {
      strict || warned == 0
    }

    // Nothing was refused, and nothing let through with a warning.
    ghost predicate Clean()
    {
      err.Ok? && warned == 0
    }

    ghost predicate Tracked()
    {
      && effBound >= 0
      && (emitted <==> |out| > 0)
      && (emitted ==> lastKey == out[|out| - 1].key)
      && (!strict ==> err.Ok?)
    }

    // After the rows of order entered the buffer, drained up to marks[l] after each.
    ghost predicate Holds(held: multiset<Rec<V>>, order: seq<Rec<V>>, marks: seq<Key>)
    {
      && Tracked()
      && |marks| <= |order|
      && multiset(out) + held == multiset(order)
      && (Calm() ==> Settled(out, held) && Explained(out, order, marks))
    }

    ghost function At(): Stand<V>
    {
      Stand(effBound, out, warned)
    }

    // Less a change of effBound, only the output has grown.
    ghost predicate Since(was: Run<V>)
    {
      && strict == was.strict && effBound == was.effBound
      && |was.out| <= |out| && was.out == out[..|was.out|]
      && (was.Calm() ==> warned == was.warned)
      && warned == if |was.out| < |out| && Behind(was.out, out[|was.out|].key) then was.warned + 1 else was.warned
    }
  }

  function StartRun<V>(strict: bool, maxBound: Key): Run<V>
  {
    Run(strict, maxBound, 0, false, [], 0, Ok)
  }

  lemma Drained<V>(buf: MergeHeap<V>, watermark: Key)
    requires buf.Valid() && (|buf.keys| > 0 ==> buf.keys[0] > watermark)
    ensures forall r :: r in buf.Contents() ==> r.key > watermark
  {
    buf.MinIsLeast();
  }

  lemma {:induction false} YieldStep<V>(was: Run<V>, run: Run<V>, run': Run<V>, r: Rec<V>, held: multiset<Rec<V>>, rest: multiset<Rec<V>>, order: seq<Rec<V>>, wm: Key)
    requires run.Tracked() && run.err.Ok? && run.Since(was) && r.key <= wm
    requires Draining(was.out, run.out, held, order, wm, was.Calm())
    requires held == rest + multiset{r} && AllAbove(held, r.key)
    requires run' == run.(out := run.out + [r], lastKey := r.key, emitted := true,
                          warned := if run.emitted && r.key < run.lastKey then run.warned + 1 else run.warned)
    ensures run'.Tracked() && run'.Since(was)
    ensures Draining(was.out, run'.out, rest, order, wm, was.Calm())
    ensures was.Calm() ==> !(run.emitted && r.key < run.lastKey)
  {
    DrainingStep(was.out, run.out, held, order, wm, was.Calm(), r, rest);
    assert was.out == run'.out[..|was.out|];
  }

  // Yield the least buffered row. The tripwire never fires in a strict run.
  method EmitLeast<V>(buf: MergeHeap<V>, run: Run<V>, ghost was: Run<V>, ghost order: seq<Rec<V>>, wm: Key) returns (run': Run<V>, ghost r: Rec<V>)
    requires buf.Valid() && |buf.keys| > 0 && buf.keys[0] <= wm
    requires run.Tracked() && run.err.Ok? && run.Since(was)
    requires Draining(was.out, run.out, buf.Contents(), order, wm, was.Calm())
    modifies buf
    ensures buf.Valid() && run'.Tracked() && run'.err.Ok? && run'.Since(was)
    ensures Draining(was.out, run'.out, buf.Contents(), order, wm, was.Calm())
    ensures old(buf.Contents()) == buf.Contents() + multiset{r} && |buf.keys| == |old(buf.keys)| - 1
  {
    ghost var held := buf.Contents();
    buf.MinIsLeast();
    var k: Key, row: V := buf.PopMin();
    r := Rec(k, row);
    YieldStep(was, run, run.(out := run.out + [r], lastKey := k, emitted := true,
                             warned := if run.emitted && k < run.lastKey then run.warned + 1 else run.warned),
              r, held, buf.Contents(), order, wm);
    run' := run;
    if run.emitted && k < run.lastKey {
      if run.strict {
        run' := run'.(err := OutOfOrder(-1, k, run.lastKey));
        return;
      }
      run' := run'.(warned := run.warned + 1);
    }
    run' := run'.(out := run.out + [Rec(k, row)], lastKey := k, emitted := true);
  }

  lemma {:induction false} DrainedDrains<V>(run: Run<V>, run': Run<V>, held: multiset<Rec<V>>, order: seq<Rec<V>>, wm: Key)
    requires run'.Since(run) && Draining(run.out, run'.out, held, order, wm, run.Calm())
    requires forall r :: r in held ==> r.key > wm
    ensures Drains(order, run.At(), wm, run'.At())
  {
    assert Held(order, run'.out) == held;
    if |run'.out| > |run.out| {
      AscendingLast(run'.out[|run.out|..]);
    }
  }

  lemma {:induction false} LastAfterDrain<V>(run: Run<V>, run': Run<V>, order: seq<Rec<V>>, wm: Key)
    requires run.Tracked() && run'.Tracked() && Drains(order, run.At(), wm, run'.At())
    ensures run'.emitted ==> run'.lastKey <= wm || (run.emitted && run'.lastKey == run.lastKey)
  {
    if |run'.out| == |run.out| {
      assert run'.out == run.out;
    } else {
      var tail := run'.out[|run.out|..];
      assert AllBelow(tail, wm) && tail[|tail| - 1] == run'.out[|run'.out| - 1];
    }
  }

  lemma {:induction false} NothingDrained<V>(run: Run<V>, held: multiset<Rec<V>>, order: seq<Rec<V>>, marks: seq<Key>, wm: Key)
    requires run.Holds(held, order, marks)
    ensures Draining(run.out, run.out, held, order, wm, run.Calm())
  {
  }

  lemma {:induction false} EmittedHolds<V>(run: Run<V>, before: multiset<Rec<V>>, run': Run<V>, held: multiset<Rec<V>>, order: seq<Rec<V>>, marks: seq<Key>, wm: Key)
    requires run.Holds(before, order, marks) && run'.Tracked() && run'.Since(run)
    requires Draining(run.out, run'.out, held, order, wm, run.Calm())
    requires forall r :: r in held ==> r.key > wm
    requires |order| == |marks| + 1 || (|order| == |marks| && run' == run)
    ensures run'.Holds(held, order, if |marks| < |order| then marks + [wm] else marks)
  {
    if run.Calm() && |marks| < |order| {
      ExplainedDrain(run.out, run'.out, held, order, marks, wm);
    }
  }

  method DrainTo<V>(buf: MergeHeap<V>, run: Run<V>, watermark: Key, ghost order: seq<Rec<V>>) returns (run': Run<V>)
    requires buf.Valid() && run.Tracked() && run.err.Ok?
    requires Draining(run.out, run.out, buf.Contents(), order, watermark, run.Calm())
    modifies buf
    ensures buf.Valid() && run'.Tracked() && run'.err.Ok? && run'.Since(run)
    ensures Draining(run.out, run'.out, buf.Contents(), order, watermark, run.Calm())
    ensures buf.Contents() <= old(buf.Contents()) && (old(buf.keys) == [] ==> run' == run)
    ensures forall r :: r in buf.Contents() ==> r.key > watermark
  {
    run' := run;
    while |buf.keys| > 0 && buf.keys[0] <= watermark
      invariant buf.Valid() && run'.Tracked() && run'.err.Ok? && run'.Since(run)
      invariant Draining(run.out, run'.out, buf.Contents(), order, watermark, run.Calm())
      invariant buf.Contents() <= old(buf.Contents()) && (old(buf.keys) == [] ==> run' == run && buf.keys == [])
      decreases |buf.keys|
    {
      ghost var r;
      run', r := EmitLeast(buf, run', run, order, watermark);
    }
    Drained(buf, watermark);
  }

  // emitSafe: pop and yield every buffered row that the watermark has passed, least key first.
  method EmitSafe<V>(buf: MergeHeap<V>, run: Run<V>, watermark: Key, ghost order: seq<Rec<V>>, ghost marks: seq<Key>)
    returns (run': Run<V>)
    requires buf.Valid() && run.err.Ok? && run.Holds(buf.Contents(), order, marks)
    requires |order| == |marks| + 1 || (|order| == |marks| && |buf.keys| == 0)
    modifies buf
    ensures buf.Valid() && run'.err.Ok? && run'.Holds(buf.Contents(), order, if |marks| < |order| then marks + [watermark] else marks)
    ensures run'.Since(run) && Drains(order, run.At(), watermark, run'.At())
    ensures run'.emitted ==> run'.lastKey <= watermark || (run.emitted && run'.lastKey == run.lastKey)
    ensures |old(buf.keys)| == 0 ==> run' == run
    ensures forall r :: r in buf.Contents() ==> r.key > watermark && r in old(buf.Contents())
  {
    ghost var before := buf.Contents();
    NothingDrained(run, before, order, marks, watermark);
    run' := DrainTo(buf, run, watermark, order);
    EmittedHolds(run, before, run', buf.Contents(), order, marks, watermark);
    DrainedDrains(run, run', buf.Contents(), order, watermark);
    LastAfterDrain(run, run', order, watermark);
  }

  lemma {:induction false} HoldsPush<V>(run: Run<V>, run': Run<V>, held: multiset<Rec<V>>, order: seq<Rec<V>>, marks: seq<Key>, r: Rec<V>)
    requires run.Holds(held, order, marks) && run'.Tracked() && run'.out == run.out && run'.strict == run.strict
    requires run'.Calm() ==> run.Calm() && !(run.emitted && r.key < run.lastKey)
    ensures run'.Holds(held + multiset{r}, order + [r], marks)
  {
    if run'.Calm() {
      SettledPush(run.out, held, r);
      ExplainedPush(run.out, order, marks, r);
    }
  }

  // A row enters the buffer; one below what was already yielded is refused or, when widening, let in
  // with a warning and a wider bound.
  method Ingest<V>(buf: MergeHeap<V>, run: Run<V>, child: int, rec: Rec<V>, ghost order: seq<Rec<V>>, ghost marks: seq<Key>)
    returns (run': Run<V>)
    requires buf.Valid() && run.err.Ok? && run.Holds(buf.Contents(), order, marks)
    modifies buf
    ensures buf.Valid()
    ensures run.emitted && rec.key < run.lastKey && run.strict ==>
              run' == run.(err := BoundViolation(child, rec.key, run.lastKey)) && buf.Contents() == old(buf.Contents())
    ensures !(run.emitted && rec.key < run.lastKey && run.strict) ==>
              && run'.err.Ok? && buf.Contents() == old(buf.Contents()) + multiset{rec}
              && run'.Holds(buf.Contents(), order + [rec], marks)
    ensures run'.err.Ok? ==> Admits(run.At(), rec, run'.At())
    ensures !(run.emitted && rec.key < run.lastKey) ==> run' == run
    ensures run.emitted && rec.key < run.lastKey && !run.strict ==>
              && run' == run.(warned := run.warned + 1, effBound := run'.effBound)
              && run'.effBound == var grow := Wrap(run.lastKey - rec.key); if grow > run.effBound then grow else run.effBound
  {
    run' := run;
    if run.emitted && rec.key < run.lastKey {
      if run.strict {
        return run.(err := BoundViolation(child, rec.key, run.lastKey));
      }
      var grow := Wrap(run.lastKey - rec.key);
      if grow > run.effBound {
        run' := run'.(effBound := grow);
      }
      run' := run'.(warned := run.warned + 1);
    }
    HoldsPush(run, run', buf.Contents(), order, marks, rec);
    buf.Push(rec.key, rec.vals);
  }
}
