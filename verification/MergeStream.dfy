// engine/op_merge_scan.go: a single near-sorted child streamed through the reorder buffer.
module MergeStream {
  import opened MergeHeaps
  import opened MergeRows
  import opened MergeScan
  import opened MergeReorder
  import opened MergeNear

  // runningMax after n rows.
  function MaxKey<V>(rows: seq<Rec<V>>, n: nat): (k: Key)
    requires n <= |rows|
  {
    if n == 0 then MIN_INT64
    else
      var k := MaxKey(rows, n - 1);
      if rows[n - 1].key > k then rows[n - 1].key else k
  }

  lemma {:induction false} MaxKeyIs<V>(rows: seq<Rec<V>>, n: nat)
    requires n <= |rows|
    ensures forall i :: 0 <= i < n ==> rows[i].key <= MaxKey(rows, n)
    ensures n > 0 ==> exists i :: 0 <= i < n && rows[i].key == MaxKey(rows, n)
    decreases n
  {
    if n > 0 {
      MaxKeyIs(rows, n - 1);
    }
  }

  // The watermarks of a stream: row l leaves under the mark that row l + 1 brings.
  function StreamMarks<V>(rows: seq<Rec<V>>, bound: Key): (r: seq<Key>)
    ensures |r| == |rows|
  {
    seq(|rows|, l requires 0 <= l < |rows| => if l + 1 < |rows| then Watermark(MaxKey(rows, l + 2), bound) else MAX_INT64)
  }

  lemma {:induction false} MaxKeyGrows<V>(rows: seq<Rec<V>>, m: nat, n: nat)
    requires m <= n <= |rows|
    ensures MaxKey(rows, m) <= MaxKey(rows, n)
    decreases n
  {
    if m < n {
      MaxKeyGrows(rows, m, n - 1);
    }
  }

  // Within the bound no row is below the watermark it brings.
  lemma {:induction false} MarkIsBelow<V>(rows: seq<Rec<V>>, n: nat, bound: Key)
    requires n < |rows| && bound >= 0 && WithinBound(rows, bound)
    ensures Watermark(MaxKey(rows, n + 1), bound) <= rows[n].key && MaxKey(rows, n + 1) - bound <= rows[n].key
  {
    MaxKeyIs(rows, n + 1);
    var i :| 0 <= i < n + 1 && rows[i].key == MaxKey(rows, n + 1);
  }

  ghost predicate InBand<V>(held: multiset<Rec<V>>, runningMax: Key, bound: Key)
  {
    forall r :: r in held ==> runningMax - bound <= r.key <= runningMax
  }

  // n rows have entered, and the output is drained to the marks of the first m rows.
  ghost predicate Streaming<V>(rows: seq<Rec<V>>, n: nat, m: nat, bound: Key, run: Run<V>, marks: seq<Key>)
    requires n <= m <= |rows|
  {
    && (run.strict ==> run.warned == 0)
    && (run.warned == 0 ==> run.effBound == bound && |marks| <= |rows| && marks == StreamMarks(rows, bound)[..|marks|] && NeverLate(rows, StreamMarks(rows, bound), n))
    && (run.warned > 0 ==> !NeverLate(rows, StreamMarks(rows, bound), n))
    && (WithinBound(rows, bound) ==> run.warned == 0 && run.effBound == bound && (run.emitted ==> m > 0 && run.lastKey <= Watermark(MaxKey(rows, m), bound)))
  }

  // Row n may enter a clean run exactly when no watermark so far has passed a greater key.
  lemma {:induction false} StreamingLate<V>(rows: seq<Rec<V>>, n: nat, bound: Key, out: seq<Rec<V>>)
    requires n < |rows| && Explained(out, rows[..n], StreamMarks(rows, bound)[..n])
    ensures LateAt(rows, StreamMarks(rows, bound), n) <==> |out| > 0 && rows[n].key < out[|out| - 1].key
  {
    LateSoFar(rows, StreamMarks(rows, bound), n);
    LateIsBelowLast(out, rows[..n], StreamMarks(rows, bound)[..n], rows[n].key);
  }

  function NextMarks(marks: seq<Key>, n: nat, wm: Key): seq<Key>
  {
    if n > 0 then marks + [wm] else marks
  }

  // Draining to the watermark that row n brings.
  lemma {:induction false} StreamingDrained<V>(rows: seq<Rec<V>>, n: nat, bound: Key, run: Run<V>, marks: seq<Key>, run': Run<V>, wm: Key)
    requires n < |rows| && Streaming(rows, n, n, bound, run, marks) && |marks| == (if n == 0 then 0 else n - 1)
    requires wm == Watermark(MaxKey(rows, n + 1), run.effBound) && run'.Since(run) && bound >= 0
    requires run'.emitted ==> run'.lastKey <= wm || (run.emitted && run'.lastKey == run.lastKey)
    ensures Streaming(rows, n, n + 1, bound, run', NextMarks(marks, n, wm))
  {
    if WithinBound(rows, bound) && run.emitted {
      MaxKeyGrows(rows, n, n + 1);
    }
  }

  // Row n enters, or a strict run refuses it.
  lemma {:induction false} StreamingEnters<V>(rows: seq<Rec<V>>, n: nat, bound: Key, run: Run<V>, marks: seq<Key>, held: multiset<Rec<V>>, run': Run<V>)
    requires n < |rows| && Streaming(rows, n, n + 1, bound, run, marks) && |marks| == n && bound >= 0
    requires run.Holds(held, rows[..n], marks)
    requires !(run.emitted && rows[n].key < run.lastKey) ==> run' == run
    requires run.emitted && rows[n].key < run.lastKey ==> !run'.strict && !run.strict && run'.warned == run.warned + 1
    ensures Streaming(rows, n + 1, n + 1, bound, run', marks)
  {
    if WithinBound(rows, bound) {
      MarkIsBelow(rows, n, bound);
    }
    if run.warned == 0 {
      StreamingLate(rows, n, bound, run.out);
    }
  }

  lemma {:induction false} StreamingRefuses<V>(rows: seq<Rec<V>>, n: nat, bound: Key, run: Run<V>, marks: seq<Key>, held: multiset<Rec<V>>)
    requires n < |rows| && Streaming(rows, n, n + 1, bound, run, marks) && |marks| == n && bound >= 0
    requires run.Holds(held, rows[..n], marks)
    requires run.strict && run.emitted && rows[n].key < run.lastKey
    ensures !WithinBound(rows, bound) && !NeverLate(rows, StreamMarks(rows, bound), |rows|)
  {
    if WithinBound(rows, bound) {
      MarkIsBelow(rows, n, bound);
    }
    StreamingLate(rows, n, bound, run.out);
  }

  lemma {:induction false} BandKept<V>(rows: seq<Rec<V>>, n: nat, bound: Key, out: seq<Rec<V>>, held: multiset<Rec<V>>)
    requires n < |rows| && bound >= 0 && WithinBound(rows, bound)
    requires multiset(out) + held == multiset(rows[..n])
    requires forall r :: r in held ==> r.key > Watermark(MaxKey(rows, n + 1), bound)
    ensures InBand(held + multiset{rows[n]}, MaxKey(rows, n + 1), bound)
  {
    MarkIsBelow(rows, n, bound);
    MaxKeyIs(rows, n + 1);
    forall r | r in held ensures MaxKey(rows, n + 1) - bound <= r.key <= MaxKey(rows, n + 1) {
      assert r in multiset(rows[..n]);
    }
  }

  // rec after order in a run: drained and held are the run and the buffer once drained to wm, run' the run once
  // rec has entered or was refused.
  ghost predicate RowStep<V>(run: Run<V>, rec: Rec<V>, order: seq<Rec<V>>, marks: seq<Key>, wm: Key, drained: Run<V>, held: multiset<Rec<V>>, run': Run<V>)
  {
    && drained.Since(run) && drained.Holds(held, order, if |marks| < |order| then marks + [wm] else marks)
    && (drained.emitted ==> drained.lastKey <= wm || (run.emitted && drained.lastKey == run.lastKey))
    && (forall r :: r in held ==> r.key > wm)
    && run'.strict == run.strict && run'.out == drained.out
    && (run'.err.Ok? <==> !(run.strict && drained.emitted && rec.key < drained.lastKey))
    && (!(drained.emitted && rec.key < drained.lastKey) ==> run' == drained)
    && (run'.err.Ok? && drained.emitted && rec.key < drained.lastKey ==> run'.warned == drained.warned + 1)
    && (run'.err.Ok? ==> run'.Holds(held + multiset{rec}, order + [rec], if |marks| < |order| then marks + [wm] else marks))
  }

  // childYield for a row with a key: raise runningMax, drain to the watermark it sets, then let the row
  // enter.
  method StreamRow<V>(buf: MergeHeap<V>, run: Run<V>, runningMax: Key, rec: Rec<V>, ghost order: seq<Rec<V>>, ghost marks: seq<Key>)
    returns (run': Run<V>, runningMax': Key, ghost wm: Key, ghost drained: Run<V>, ghost held: multiset<Rec<V>>)
    requires buf.Valid() && run.err.Ok? && run.Holds(buf.Contents(), order, marks)
    requires |order| == |marks| + 1 || (|order| == |marks| && |buf.keys| == 0)
    modifies buf
    ensures buf.Valid() && runningMax' == (if rec.key > runningMax then rec.key else runningMax)
    ensures wm == Watermark(runningMax', run.effBound) && RowStep(run, rec, order, marks, wm, drained, held, run')
    ensures Drains(order, run.At(), wm, drained.At()) && (run'.err.Ok? ==> Admits(drained.At(), rec, run'.At()))
    ensures buf.Contents() == if run'.err.Ok? then held + multiset{rec} else held
  {
    runningMax' := if rec.key > runningMax then rec.key else runningMax;
    var watermark := Watermark(runningMax', run.effBound);
    wm := watermark;
    run' := EmitSafe(buf, run, watermark, order, marks);
    drained, held := run', buf.Contents();
    run' := Ingest(buf, run', 0, rec, order, if |marks| < |order| then marks + [wm] else marks);
  }

  // The stream after n rows with a key.
  ghost predicate StreamState<V>(rows: seq<Rec<V>>, n: nat, bound: Key, run: Run<V>, runningMax: Key, held: multiset<Rec<V>>, marks: seq<Key>)
  {
    && n <= |rows| && runningMax == MaxKey(rows, n) && bound >= 0
    && |marks| == (if n == 0 then 0 else n - 1)
    && run.Holds(held, rows[..n], marks) && Streaming(rows, n, n, bound, run, marks)
  }

  lemma {:induction false} StreamStateNext<V>(rows: seq<Rec<V>>, n: nat, bound: Key, run: Run<V>, runningMax: Key, before: multiset<Rec<V>>, marks: seq<Key>,
                                              wm: Key, drained: Run<V>, held: multiset<Rec<V>>, run': Run<V>)
    requires n < |rows| && StreamState(rows, n, bound, run, runningMax, before, marks)
    requires wm == Watermark(MaxKey(rows, n + 1), run.effBound) && RowStep(run, rows[n], rows[..n], marks, wm, drained, held, run')
    requires run'.err.Ok?
    ensures StreamState(rows, n + 1, bound, run', MaxKey(rows, n + 1), held + multiset{rows[n]}, NextMarks(marks, n, wm))
  {
    assert rows[..n + 1] == rows[..n] + [rows[n]];
    StreamingDrained(rows, n, bound, run, marks, drained, wm);
    StreamingEnters(rows, n, bound, drained, NextMarks(marks, n, wm), held, run');
  }

  lemma {:induction false} StreamStateFails<V>(rows: seq<Rec<V>>, n: nat, bound: Key, run: Run<V>, runningMax: Key, before: multiset<Rec<V>>, marks: seq<Key>,
                                               wm: Key, drained: Run<V>, held: multiset<Rec<V>>, run': Run<V>)
    requires n < |rows| && StreamState(rows, n, bound, run, runningMax, before, marks)
    requires wm == Watermark(MaxKey(rows, n + 1), run.effBound) && RowStep(run, rows[n], rows[..n], marks, wm, drained, held, run')
    requires !run'.err.Ok?
    ensures run'.strict && Ascending(run'.out) && !WithinBound(rows, bound) && !NeverLate(rows, StreamMarks(rows, bound), |rows|)
  {
    StreamingDrained(rows, n, bound, run, marks, drained, wm);
    StreamingRefuses(rows, n, bound, drained, NextMarks(marks, n, wm), held);
  }

  lemma {:induction false} StreamStateBand<V>(rows: seq<Rec<V>>, n: nat, bound: Key, run: Run<V>, runningMax: Key, before: multiset<Rec<V>>, marks: seq<Key>,
                                              wm: Key, drained: Run<V>, held: multiset<Rec<V>>, run': Run<V>)
    requires n < |rows| && StreamState(rows, n, bound, run, runningMax, before, marks)
    requires wm == Watermark(MaxKey(rows, n + 1), run.effBound) && RowStep(run, rows[n], rows[..n], marks, wm, drained, held, run')
    requires WithinBound(rows, bound)
    ensures InBand(held + multiset{rows[n]}, MaxKey(rows, n + 1), bound)
  {
    BandKept(rows, n, bound, drained.out, held);
  }

  // Row l raises the greatest key seen, the buffer is drained to that key less the bound in effect, and row l
  // enters.
  ghost predicate StreamStep<V>(rows: seq<Rec<V>>, log: Log<V>, l: nat)
    requires l < |log.mid| == |log.marks| && |log.at| == |log.mid| + 1 && |log.mid| <= |rows|
  {
    && log.marks[l] == Watermark(MaxKey(rows, l + 1), log.at[l].bound)
    && Drains(rows[..l], log.at[l], log.marks[l], log.mid[l])
    && Admits(log.mid[l], rows[l], log.at[l + 1])
  }

  ghost predicate StreamLog<V>(rows: seq<Rec<V>>, bound: Key, n: nat, log: Log<V>)
  {
    && |log.at| == n + 1 && |log.mid| == |log.marks| == n <= |rows|
    && log.at[0] == Stand(bound, [], 0)
    && forall l: nat :: l < n ==> StreamStep(rows, log, l)
  }

  // The log of n rows ends where the run now stands.
  ghost predicate InLog<V>(rows: seq<Rec<V>>, bound: Key, n: nat, log: Log<V>, run: Run<V>)
  {
    StreamLog(rows, bound, n, log) && log.Now() == run.At()
  }

  lemma {:induction false} StreamStepStays<V>(rows: seq<Rec<V>>, log: Log<V>, l: nat, mid: Stand<V>, wm: Key, s: Stand<V>)
    requires l < |log.mid| == |log.marks| && |log.at| == |log.mid| + 1 && |log.mid| <= |rows| && StreamStep(rows, log, l)
    requires |log.mid| < |rows|
    ensures StreamStep(rows, log.Further(mid, wm, s), l)
  {
    var log' := log.Further(mid, wm, s);
    assert log'.at[l] == log.at[l] && log'.at[l + 1] == log.at[l + 1] && log'.mid[l] == log.mid[l] && log'.marks[l] == log.marks[l];
  }

  lemma {:induction false} StreamLogNext<V>(rows: seq<Rec<V>>, bound: Key, n: nat, log: Log<V>, run: Run<V>, wm: Key, drained: Run<V>, run': Run<V>)
    requires InLog(rows, bound, n, log, run) && n < |rows|
    requires wm == Watermark(MaxKey(rows, n + 1), run.effBound) && Drains(rows[..n], run.At(), wm, drained.At()) && Admits(drained.At(), rows[n], run'.At())
    ensures InLog(rows, bound, n + 1, log.Further(drained.At(), wm, run'.At()), run')
  {
    var log' := log.Further(drained.At(), wm, run'.At());
    forall l: nat | l < n + 1 ensures StreamStep(rows, log', l) {
      StepOfStream(rows, bound, n, log, run, wm, drained, run', l);
    }
  }

  lemma {:induction false} StepOfStream<V>(rows: seq<Rec<V>>, bound: Key, n: nat, log: Log<V>, run: Run<V>, wm: Key, drained: Run<V>, run': Run<V>, l: nat)
    requires InLog(rows, bound, n, log, run) && l <= n < |rows|
    requires wm == Watermark(MaxKey(rows, n + 1), run.effBound) && Drains(rows[..n], run.At(), wm, drained.At()) && Admits(drained.At(), rows[n], run'.At())
    ensures StreamStep(rows, log.Further(drained.At(), wm, run'.At()), l)
  {
    if l < n {
      StreamStepStays(rows, log, l, drained.At(), wm, run'.At());
    } else {
      StreamStepAdds(rows, log, drained.At(), wm, run'.At());
    }
  }

  lemma {:induction false} StreamStepAdds<V>(rows: seq<Rec<V>>, log: Log<V>, mid: Stand<V>, wm: Key, s: Stand<V>)
    requires |log.mid| == |log.marks| < |rows| && |log.at| == |log.mid| + 1
    requires wm == Watermark(MaxKey(rows, |log.mid| + 1), log.Now().bound) && Drains(rows[..|log.mid|], log.Now(), wm, mid)
    requires Admits(mid, rows[|log.mid|], s)
    ensures StreamStep(rows, log.Further(mid, wm, s), |log.mid|)
  {
    var log', n := log.Further(mid, wm, s), |log.mid|;
    assert log'.at[n] == log.Now() && log'.at[n + 1] == s && log'.mid[n] == mid && log'.marks[n] == wm;
  }

  // The whole run that log tells of ends with the buffer emptied.
  ghost predicate StreamRun<V>(rows: seq<Rec<V>>, bound: Key, log: Log<V>, run: Run<V>)
  {
    StreamLog(rows, bound, |rows|, log) && Drains(rows, log.Now(), MAX_INT64, run.At())
  }

  // The buffer of a child within the declared bound never holds more than that bound's band.
  method StreamYield<V>(buf: MergeHeap<V>, run: Run<V>, runningMax: Key, rec: Rec<V>, ghost rows: seq<Rec<V>>, ghost n: nat, ghost bound: Key, ghost marks: seq<Key>, ghost log: Log<V>)
    returns (run': Run<V>, runningMax': Key, ghost marks': seq<Key>, ghost log': Log<V>)
    requires InLog(rows, bound, n, log, run)
    requires n < |rows| && rec == rows[n] && (n == 0 ==> |buf.keys| == 0)
    requires buf.Valid() && run.err.Ok? && StreamState(rows, n, bound, run, runningMax, buf.Contents(), marks)
    modifies buf
    ensures run'.strict == run.strict && buf.Valid()
    ensures run'.err.Ok? ==> StreamState(rows, n + 1, bound, run', runningMax', buf.Contents(), marks')
    ensures run'.err.Ok? ==> InLog(rows, bound, n + 1, log', run')
    ensures WithinBound(rows, bound) ==> run'.err.Ok? && InBand(buf.Contents(), runningMax', bound)
    ensures !run'.err.Ok? ==> run'.strict && Ascending(run'.out) && !NeverLate(rows, StreamMarks(rows, bound), |rows|)
  {
    ghost var before := buf.Contents();
    ghost var wm, drained, held;
    run', runningMax', wm, drained, held := StreamRow(buf, run, runningMax, rec, rows[..n], marks);
    marks' := NextMarks(marks, n, wm);
    log' := log.Further(drained.At(), wm, run'.At());
    if run'.err.Ok? {
      StreamLogNext(rows, bound, n, log, run, wm, drained, run');
      StreamStateNext(rows, n, bound, run, runningMax, before, marks, wm, drained, held, run');
    } else {
      StreamStateFails(rows, n, bound, run, runningMax, before, marks, wm, drained, held, run');
    }
    if WithinBound(rows, bound) {
      StreamStateBand(rows, n, bound, run, runningMax, before, marks, wm, drained, held, run');
    }
  }

  ghost predicate StreamFailed<V>(rows: seq<Rec<V>>, bound: Key, run: Run<V>)
  {
    run.strict && Ascending(run.out) && !WithinBound(rows, bound) && !NeverLate(rows, StreamMarks(rows, bound), |rows|)
  }

  // Once every row has entered, the flush yields what is left.
  method StreamEnd<V>(buf: MergeHeap<V>, run: Run<V>, runningMax: Key, ghost rows: seq<Rec<V>>, ghost bound: Key, ghost marks: seq<Key>)
    returns (run': Run<V>)
    requires buf.Valid() && run.err.Ok? && StreamState(rows, |rows|, bound, run, runningMax, buf.Contents(), marks)
    requires |rows| == 0 ==> |buf.keys| == 0
    modifies buf
    ensures run'.strict == run.strict && run'.err.Ok? && (run.strict || run'.warned == 0 ==> Ascending(run'.out))
    ensures multiset(run'.out) == multiset(rows) && Drains(rows, run.At(), MAX_INT64, run'.At())
    ensures WithinBound(rows, bound) ==> run'.warned == 0
    ensures run'.warned == 0 <==> NeverLate(rows, StreamMarks(rows, bound), |rows|)
    ensures run'.strict ==> run'.warned == 0
  {
    assert rows[..|rows|] == rows;
    run' := EmitSafe(buf, run, MAX_INT64, rows, marks);
    assert forall r :: r in buf.Contents() ==> r.key <= MAX_INT64;
    assert buf.Contents() == multiset{};
  }

  // mergeScanWatermarkedStream, with the same promises as the K-way loop.
  method MergeScanStream<V>(child: seq<Row<V>>, maxBound: Key, strict: bool) returns (run: Run<V>)
    requires maxBound >= 0
    ensures run.strict == strict && (strict || run.warned == 0 ==> Ascending(run.out))
    ensures run.err.Ok? ==> multiset(run.out) == multiset(KeyedRows(child, |child|))
    ensures !strict ==> run.err.Ok?
    ensures run.err.Ok? ==> exists log: Log<V> :: StreamRun(KeyedRows(child, |child|), maxBound, log, run)
    ensures WithinBound(KeyedRows(child, |child|), maxBound) ==> run.err.Ok? && run.warned == 0
    ensures var rows := KeyedRows(child, |child|);
            run.Clean() <==> NeverLate(rows, StreamMarks(rows, maxBound), |rows|)
    ensures strict && run.err.Ok? ==> run.warned == 0
  {
    ghost var rows := KeyedRows(child, |child|);
    var buf: MergeHeap<V> := new MergeHeap();
    var runningMax;
    ghost var marks, log;
    run, runningMax, marks, log := StreamRows(buf, child, maxBound, strict);
    if run.err.Ok? {
      run := StreamEnd(buf, run, runningMax, rows, maxBound, marks);
      assert StreamRun(rows, maxBound, log, run);
    }
  }

  // After n rows, or once a row was refused.
  ghost predicate Streamed<V>(rows: seq<Rec<V>>, n: nat, bound: Key, run: Run<V>, runningMax: Key, held: multiset<Rec<V>>, marks: seq<Key>, log: Log<V>)
  {
    if run.err.Ok? then StreamState(rows, n, bound, run, runningMax, held, marks) && InLog(rows, bound, n, log, run)
    else StreamFailed(rows, bound, run)
  }

  lemma {:induction false} StreamBegins<V>(rows: seq<Rec<V>>, bound: Key, run: Run<V>)
    requires bound >= 0 && run == StartRun(run.strict, bound)
    ensures Streamed(rows, 0, bound, run, MIN_INT64, multiset{}, [], Log([run.At()], [], []))
  {
  }

  // All the child's rows, up to the first that is refused.
  method StreamRows<V>(buf: MergeHeap<V>, child: seq<Row<V>>, maxBound: Key, strict: bool)
    returns (run: Run<V>, runningMax: Key, ghost marks: seq<Key>, ghost log: Log<V>)
    requires maxBound >= 0 && buf.Valid() && buf.keys == []
    modifies buf
    ensures buf.Valid() && run.strict == strict
    ensures run.err.Ok? && KeyedRows(child, |child|) == [] ==> buf.keys == []
    ensures Streamed(KeyedRows(child, |child|), |KeyedRows(child, |child|)|, maxBound, run, runningMax, buf.Contents(), marks, log)
  {
    ghost var rows := KeyedRows(child, |child|);
    run := StartRun(strict, maxBound);
    runningMax := MIN_INT64;
    ghost var n: nat := 0;
    marks, log := [], Log([run.At()], [], []);
    StreamBegins(rows, maxBound, run);
    for i: nat := 0 to |child|
      invariant buf.Valid() && run.strict == strict
      invariant run.err.Ok? ==> n == |KeyedRows(child, i)| && (n == 0 ==> |buf.keys| == 0)
      invariant Streamed(rows, n, maxBound, run, runningMax, buf.Contents(), marks, log)
    {
      KeyedNext(child, i);
      if run.err.Ok? && child[i].Keyed? {
        run, runningMax, marks, log := StreamYield(buf, run, runningMax, child[i].rec, rows, n, maxBound, marks, log);
        n := n + 1;
      }
    }
  }

  // ---------------------------------------------------------------- the two loops compared

  // The streaming loop refuses row j exactly when an earlier, greater key is at least the bound below
  // the greatest key seen.
  lemma {:induction false} StreamLateMeans<V>(rows: seq<Rec<V>>, bound: Key, j: nat)
    requires j < |rows| && bound >= 0
    ensures LateAt(rows, StreamMarks(rows, bound), j) <==>
            exists i: nat :: i < j && rows[j].key < rows[i].key <= Watermark(MaxKey(rows, j + 1), bound)
  {
    var marks := StreamMarks(rows, bound);
    if LateAt(rows, marks, j) {
      var i: nat, l: nat :| LateBy(rows, marks, i, l, j);
      MaxKeyGrows(rows, l + 2, j + 1);
    }
    if i: nat :| i < j && rows[j].key < rows[i].key <= Watermark(MaxKey(rows, j + 1), bound) {
      assert LateBy(rows, marks, i, j - 1, j);
    }
  }

  // Whatever the streaming loop lets through, the K-way loop would let through as well.
  lemma {:induction false} KwayIsMoreLenient<V>(rows: seq<Rec<V>>, bound: Key)
    requires bound >= 0 && NeverLate(rows, StreamMarks(rows, bound), |rows|)
    ensures NeverLate(rows, KwayMarks(rows, bound), |rows|)
  {
    forall j: nat | j < |rows| ensures !LateAt(rows, KwayMarks(rows, bound), j) {
      if LateAt(rows, KwayMarks(rows, bound), j) {
        var i: nat, l: nat :| LateBy(rows, KwayMarks(rows, bound), i, l, j);
        assert LateBy(rows, StreamMarks(rows, bound), i, l, j);
        assert LateAt(rows, StreamMarks(rows, bound), j);
      }
    }
  }

  // Under either policy a clean streaming run has a clean K-way counterpart over that child, with the same
  // key sequence; a child within the bound makes both clean.
  lemma {:induction false} StreamIsKway<V>(rows: seq<Rec<V>>, bound: Key, stream: Run<V>, kway: Run<V>)
    requires bound >= 0
    requires stream.Clean() <==> NeverLate(rows, StreamMarks(rows, bound), |rows|)
    requires kway.Clean() <==> NeverLate(rows, KwayMarks(rows, bound), |rows|)
    requires stream.Clean() ==> Ascending(stream.out) && multiset(stream.out) == multiset(rows)
    requires kway.Clean() ==> Ascending(kway.out) && multiset(kway.out) == AllRows([rows], 1)
    ensures stream.Clean() ==> kway.Clean() && Keys(stream.out) == Keys(kway.out)
    ensures WithinBound(rows, bound) ==> stream.Clean()
  {
    if stream.Clean() {
      KwayIsMoreLenient(rows, bound);
      assert AllRows([rows], 1) == AllRows([rows], 0) + multiset(rows);
      SortedPermutationsAgree(stream.out, kway.out);
    }
    if WithinBound(rows, bound) {
      forall j: nat | j < |rows| ensures !LateAt(rows, StreamMarks(rows, bound), j) {
        MarkIsBelow(rows, j, bound);
        StreamLateMeans(rows, bound, j);
      }
    }
  }

  // Beyond the bound they differ: keys 10, 5, 1 under bound 2 fail the streaming loop, not the K-way one.
  lemma StreamIsStricter() returns (rows: seq<Rec<int>>)
    ensures Keys(rows) == [10, 5, 1]
    ensures !NeverLate(rows, StreamMarks(rows, 2), 3) && NeverLate(rows, KwayMarks(rows, 2), 3)
  {
    rows := [Rec(10, 0), Rec(5, 0), Rec(1, 0)];
    assert MaxKey(rows, 3) == 10 by {
      assert MaxKey(rows, 1) == 10;
    }
    assert LateBy(rows, StreamMarks(rows, 2), 1, 1, 2);
    assert LateAt(rows, StreamMarks(rows, 2), 2);
    assert KwayMarks(rows, 2) == [3, -1, MAX_INT64];
  }
}
