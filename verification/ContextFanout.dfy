// engine/op_broadcast_context.go: one sorted stream fanned out to many context extractors.
module ContextFanout {
  import opened Bytes
  import opened Expr
  import opened Prefilter
  import opened Automaton
  import opened Matcher
  import opened Selection
  import opened Broadcast
  import opened ContextWindows

  // contextExtractorSpec; a negative count behaves as none.
  datatype Spec = Spec(q: Query, before: int, after: int)

  // The rows not yet emitted that the next match reaches back to, and how many rows the last one still owes.
  datatype Extractor = Extractor(buf: seq<seq<Value>>, afterLeft: int)

  // What the operator is given: the extractors, the stream's rows and an optional partition key.
  datatype Job = Job(env: Env, labels: seq<string>, specs: seq<Spec>, rows: seq<seq<Value>>, partitioned: bool, partExpr: Node)

  function AtLeast0(n: int): nat
  {
    if n < 0 then 0 else n
  }

  // The bytes that partition boundaries are detected by.
  function PartKey(job: Job, r: nat): Str
    requires r < |job.rows|
  {
    if job.partitioned then SlotBytes(Eval(job.env, job.labels, job.rows[r], job.partExpr)) else []
  }

  function Parts(job: Job): (parts: seq<Str>)
    ensures |parts| == |job.rows|
    ensures forall r :: 0 <= r < |job.rows| ==> parts[r] == PartKey(job, r)
  {
    seq(|job.rows|, r requires 0 <= r < |job.rows| => PartKey(job, r))
  }

  // The predicate is only evaluated on rows that wake its extractor.
  ghost predicate Hit(job: Job, e: nat, row: seq<Value>)
    requires e < |job.specs|
  {
    Woken(job.specs[e].q, row) && Truthy(Eval(job.env, job.labels, row, job.specs[e].q.pred))
  }

  ghost function StreamOf(job: Job, e: nat): (st: Stream)
    requires e < |job.specs|
    ensures |st.hits| == |job.rows| == |st.parts|
    ensures forall r :: 0 <= r < |job.rows| ==> st.hits[r] == Hit(job, e, job.rows[r])
    ensures forall r :: 0 <= r < |job.rows| ==> st.parts[r] == PartKey(job, r)
  {
    Stream(seq(|job.rows|, r requires 0 <= r < |job.rows| => Hit(job, e, job.rows[r])), Parts(job),
           AtLeast0(job.specs[e].before), AtLeast0(job.specs[e].after))
  }

  // One extractor's labelResult for a row.
  function ResultOf(job: Job, e: nat, row: seq<Value>): LabelResult
    requires e < |job.specs|
  {
    LabelResult(job.specs[e].q.tag, Project(job.env, job.labels, row, job.specs[e].q.proj))
  }

  function ResultsOf(job: Job, e: nat, idxs: seq<nat>): (r: seq<LabelResult>)
    requires e < |job.specs| && forall j :: 0 <= j < |idxs| ==> idxs[j] < |job.rows|
    ensures |r| == |idxs|
    ensures forall j :: 0 <= j < |idxs| ==> r[j] == ResultOf(job, e, job.rows[idxs[j]])
  {
    seq(|idxs|, j requires 0 <= j < |idxs| => ResultOf(job, e, job.rows[idxs[j]]))
  }

  // What extractor e owes by the definition of its windows, once n rows were seen.
  ghost function Windowed(job: Job, e: nat, n: nat): seq<LabelResult>
    requires e < |job.specs| && n <= |job.rows|
  {
    ResultsOf(job, e, StreamOf(job, e).Windows(n, n))
  }

  // ---------------------------------------------------------------- one extractor, one row

  // After n rows of a partition that began at s, rows [b, n) are in the buffer.
  ghost predicate At(job: Job, e: nat, n: nat, s: nat, b: nat, x: Extractor)
    requires e < |job.specs|
  {
    && StreamOf(job, e).Extracting(n, s, b, AtLeast0(x.afterLeft))
    && x.buf == job.rows[b..n]
    && |x.buf| <= AtLeast0(job.specs[e].before)
  }

  lemma {:induction false} BufferedResults(job: Job, e: nat, b: nat, n: nat)
    requires e < |job.specs| && b <= n <= |job.rows|
    ensures |ResultsOf(job, e, Span(b, n))| == n - b
    ensures forall j :: 0 <= j < n - b ==> ResultsOf(job, e, Span(b, n))[j] == ResultOf(job, e, job.rows[b..n][j])
  {
  }

  method EmitBuffer(job: Job, e: nat, buf: seq<seq<Value>>) returns (out: seq<LabelResult>)
    requires e < |job.specs|
    ensures |out| == |buf| && forall j :: 0 <= j < |buf| ==> out[j] == ResultOf(job, e, buf[j])
  {
    out := [];
    for j := 0 to |buf|
      invariant |out| == j && forall i :: 0 <= i < j ==> out[i] == ResultOf(job, e, buf[i])
    {
      out := out + [ResultOf(job, e, buf[j])];
    }
  }

  lemma {:induction false} ResultsSplit(job: Job, e: nat, a: seq<nat>, b: seq<nat>)
    requires e < |job.specs|
    requires forall j :: 0 <= j < |a| ==> a[j] < |job.rows|
    requires forall j :: 0 <= j < |b| ==> b[j] < |job.rows|
    ensures forall j :: 0 <= j < |a + b| ==> (a + b)[j] < |job.rows|
    ensures ResultsOf(job, e, a + b) == ResultsOf(job, e, a) + ResultsOf(job, e, b)
  {
  }

  lemma {:induction false} MatchEmits(job: Job, e: nat, x: Extractor, n: nat, s: nat, b: nat, flushed: seq<LabelResult>)
    requires e < |job.specs| && n < |job.rows| && Hit(job, e, job.rows[n])
    requires At(job, e, n, s, b, x) && RunStart(Parts(job), n) == s
    requires |flushed| == |x.buf| && forall j :: 0 <= j < |x.buf| ==> flushed[j] == ResultOf(job, e, x.buf[j])
    ensures At(job, e, n + 1, s, n + 1, Extractor([], job.specs[e].after))
    ensures Windowed(job, e, n + 1) == Windowed(job, e, n) + (flushed + [ResultOf(job, e, job.rows[n])])
  {
    var st := StreamOf(job, e);
    RowMatches(st, n, s, b, AtLeast0(x.afterLeft));
    BufferedResults(job, e, b, n);
    assert flushed == ResultsOf(job, e, Span(b, n));
    ResultsSplit(job, e, st.Windows(n, n), Span(b, n));
    ResultsSplit(job, e, st.Windows(n, n) + Span(b, n), [n]);
    assert ResultsOf(job, e, [n]) == [ResultOf(job, e, job.rows[n])];
    assert job.rows[n + 1..n + 1] == [];
  }

  lemma {:induction false} OwedEmits(job: Job, e: nat, x: Extractor, n: nat, s: nat, b: nat)
    requires e < |job.specs| && n < |job.rows| && !Hit(job, e, job.rows[n]) && x.afterLeft > 0
    requires At(job, e, n, s, b, x) && RunStart(Parts(job), n) == s
    ensures At(job, e, n + 1, s, n + 1, x.(afterLeft := x.afterLeft - 1))
    ensures Windowed(job, e, n + 1) == Windowed(job, e, n) + [ResultOf(job, e, job.rows[n])]
  {
    var st := StreamOf(job, e);
    RowIsOwed(st, n, s, b, x.afterLeft);
    ResultsSplit(job, e, st.Windows(n, n), [n]);
    assert ResultsOf(job, e, [n]) == [ResultOf(job, e, job.rows[n])];
    assert job.rows[n + 1..n + 1] == [];
  }

  // The buffer with one more row, cut to its size.
  function Buffered(buf: seq<seq<Value>>, row: seq<Value>, before: int): seq<seq<Value>>
  {
    if before <= 0 then buf
    else
      var longer := buf + [row];
      if |longer| > before then longer[1..] else longer
  }

  lemma BufferedIs(rows: seq<seq<Value>>, b: nat, n: nat, before: int, b': nat)
    requires b <= n < |rows| && n - b <= AtLeast0(before)
    requires b' == if n + 1 - b > AtLeast0(before) then b + 1 else b
    ensures Buffered(rows[b..n], rows[n], before) == rows[b'..n + 1]
    ensures |rows[b'..n + 1]| <= AtLeast0(before)
  {
    assert rows[b..n] + [rows[n]] == rows[b..n + 1];
    if before <= 0 {
      assert rows[n..n] == rows[n + 1..n + 1] == [];
    } else if n + 1 - b > before {
      assert rows[b..n + 1][1..] == rows[b + 1..n + 1];
    }
  }

  lemma {:induction false} WaitingEmitsNothing(job: Job, e: nat, x: Extractor, n: nat, s: nat, b: nat, b': nat)
    requires e < |job.specs| && n < |job.rows| && !Hit(job, e, job.rows[n]) && x.afterLeft <= 0
    requires At(job, e, n, s, b, x) && RunStart(Parts(job), n) == s
    requires b' == if n + 1 - b > AtLeast0(job.specs[e].before) then b + 1 else b
    ensures At(job, e, n + 1, s, b', x.(buf := Buffered(x.buf, job.rows[n], job.specs[e].before)))
    ensures Windowed(job, e, n + 1) == Windowed(job, e, n)
  {
    RowWaits(StreamOf(job, e), n, s, b, b');
    BufferedIs(job.rows, b, n, job.specs[e].before, b');
  }

  // The row's part of the switch: what is emitted, and the extractor afterwards.
  method Extract(job: Job, e: nat, x: Extractor, row: seq<Value>, match_: bool, ghost n: nat, ghost s: nat, ghost b: nat)
    returns (x': Extractor, out: seq<LabelResult>, ghost b': nat)
    requires e < |job.specs| && n < |job.rows| && row == job.rows[n] && match_ == Hit(job, e, row)
    requires At(job, e, n, s, b, x) && RunStart(Parts(job), n) == s
    ensures At(job, e, n + 1, s, b', x')
    ensures Windowed(job, e, n + 1) == Windowed(job, e, n) + out
  {
    if match_ {
      out := EmitBuffer(job, e, x.buf);
      MatchEmits(job, e, x, n, s, b, out);
      out := out + [ResultOf(job, e, row)];
      x', b' := Extractor([], job.specs[e].after), n + 1;
    } else if x.afterLeft > 0 {
      OwedEmits(job, e, x, n, s, b);
      out := [ResultOf(job, e, row)];
      x', b' := x.(afterLeft := x.afterLeft - 1), n + 1;
    } else {
      b' := if n + 1 - b > AtLeast0(job.specs[e].before) then b + 1 else b;
      WaitingEmitsNothing(job, e, x, n, s, b, b');
      out := [];
      x' := x.(buf := Buffered(x.buf, row, job.specs[e].before));
    }
  }

  // ---------------------------------------------------------------- all extractors, row by row

  // What was yielded for extractor e, in order; from says for which each result was.
  ghost function Of(out: seq<LabelResult>, from: seq<nat>, e: nat, n: nat): seq<LabelResult>
    requires n <= |out| == |from|
  {
    if n == 0 then [] else Of(out, from, e, n - 1) + (if from[n - 1] == e then [out[n - 1]] else [])
  }

  function Repeat(e: nat, n: nat): (r: seq<nat>)
    ensures |r| == n && forall j :: 0 <= j < n ==> r[j] == e
  {
    seq(n, j requires 0 <= j < n => e)
  }

  lemma {:induction false} OfPrefix(out: seq<LabelResult>, from: seq<nat>, more: seq<LabelResult>, e: nat, f: nat, n: nat)
    requires n <= |out| == |from|
    ensures Of(out + more, from + Repeat(f, |more|), e, n) == Of(out, from, e, n)
    decreases n
  {
    if n > 0 {
      OfPrefix(out, from, more, e, f, n - 1);
    }
  }

  lemma {:induction false} OfBlock(out: seq<LabelResult>, from: seq<nat>, more: seq<LabelResult>, e: nat, f: nat, k: nat)
    requires |out| == |from| && k <= |more|
    ensures Of(out + more, from + Repeat(f, |more|), e, |out| + k) == Of(out, from, e, |out|) + (if e == f then more[..k] else [])
    decreases k
  {
    if k == 0 {
      OfPrefix(out, from, more, e, f, |out|);
    } else {
      OfBlock(out, from, more, e, f, k - 1);
      assert more[..k] == more[..k - 1] + [more[k - 1]];
      assert (out + more)[|out| + k - 1] == more[k - 1];
      assert (from + Repeat(f, |more|))[|out| + k - 1] == f;
    }
  }

  lemma {:induction false} OfMore(out: seq<LabelResult>, from: seq<nat>, more: seq<LabelResult>, e: nat, f: nat)
    requires |out| == |from|
    ensures Of(out + more, from + Repeat(f, |more|), e, |out + more|) == Of(out, from, e, |out|) + (if e == f then more else [])
  {
    OfBlock(out, from, more, e, f, |more|);
    assert more[..|more|] == more;
  }

  // Extractor e has yielded what its windows hold so far, and is ready for row n.
  ghost predicate Stands(job: Job, e: nat, n: nat, s: nat, b: nat, x: Extractor, out: seq<LabelResult>, from: seq<nat>)
    requires e < |job.specs|
  {
    |out| == |from| && At(job, e, n, s, b, x) && Of(out, from, e, |out|) == Windowed(job, e, n)
  }

  function RowsSeen(e: nat, k: nat, n: nat): nat
  {
    if e < k then n + 1 else n
  }

  // The extractors below k have seen row n.
  ghost predicate AllStand(job: Job, k: nat, n: nat, s: nat, bs: seq<nat>, xs: seq<Extractor>, out: seq<LabelResult>, from: seq<nat>)
  {
    && |xs| == |bs| == |job.specs| && |out| == |from|
    && (forall k :: 0 <= k < |from| ==> from[k] < |job.specs|)
    && forall e: nat :: e < |job.specs| ==> Stands(job, e, RowsSeen(e, k, n), s, bs[e], xs[e], out, from)
  }

  lemma {:induction false} OneMoreStands(job: Job, k: nat, n: nat, s: nat, bs: seq<nat>, xs: seq<Extractor>, out: seq<LabelResult>, from: seq<nat>,
                                         b: nat, x: Extractor, more: seq<LabelResult>)
    requires k < |job.specs| && n < |job.rows| && AllStand(job, k, n, s, bs, xs, out, from)
    requires At(job, k, n + 1, s, b, x) && Windowed(job, k, n + 1) == Windowed(job, k, n) + more
    ensures AllStand(job, k + 1, n, s, bs[k := b], xs[k := x], out + more, from + Repeat(k, |more|))
  {
    var bs', xs', out', from' := bs[k := b], xs[k := x], out + more, from + Repeat(k, |more|);
    forall e: nat | e < |job.specs| ensures Stands(job, e, RowsSeen(e, k + 1, n), s, bs'[e], xs'[e], out', from') {
      assert Stands(job, e, RowsSeen(e, k, n), s, bs[e], xs[e], out, from);
      OfMore(out, from, more, e, k);
    }
  }

  method FanRow(job: Job, xs: seq<Extractor>, r: nat, awake: seq<bool>, ghost s: nat, ghost bs: seq<nat>, out: seq<LabelResult>, ghost from: seq<nat>)
    returns (xs': seq<Extractor>, out': seq<LabelResult>, ghost bs': seq<nat>, ghost from': seq<nat>)
    requires r < |job.rows| && RunStart(Parts(job), r) == s && AllStand(job, 0, r, s, bs, xs, out, from)
    requires |awake| == |job.specs| && forall e: nat :: e < |job.specs| ==> awake[e] == Woken(job.specs[e].q, job.rows[r])
    ensures AllStand(job, |job.specs|, r, s, bs', xs', out', from')
  {
    xs', out', bs', from' := xs, out, bs, from;
    var row := job.rows[r];
    for e: nat := 0 to |job.specs|
      invariant AllStand(job, e, r, s, bs', xs', out', from')
    {
      var match_ := false;
      if awake[e] {
        match_ := Truthy(Eval(job.env, job.labels, row, job.specs[e].q.pred));
      }
      assert Stands(job, e, r, s, bs'[e], xs'[e], out', from');
      var x, more;
      ghost var b;
      x, more, b := Extract(job, e, xs'[e], row, match_, r, s, bs'[e]);
      OneMoreStands(job, e, r, s, bs', xs', out', from', b, x, more);
      xs', out', bs', from' := xs'[e := x], out' + more, bs'[e := b], from' + Repeat(e, |more|);
    }
  }

  // reset, for every extractor: a new partition begins at row r.
  lemma {:induction false} ResetStands(job: Job, r: nat, s: nat, bs: seq<nat>, xs: seq<Extractor>, out: seq<LabelResult>, from: seq<nat>)
    requires r < |job.rows| && AllStand(job, 0, r, s, bs, xs, out, from) && RunStart(Parts(job), r) == r
    ensures AllStand(job, 0, r, r, Repeat(r, |job.specs|), seq(|job.specs|, e => Extractor([], 0)), out, from)
  {
    var xs' := seq(|job.specs|, e => Extractor([], 0));
    forall e: nat | e < |job.specs| ensures Stands(job, e, r, r, Repeat(r, |job.specs|)[e], xs'[e], out, from) {
      assert Stands(job, e, r, s, bs[e], xs[e], out, from);
      PartitionStarts(StreamOf(job, e), r);
      assert job.rows[r..r] == [];
    }
  }

  lemma {:induction false} NextRow(job: Job, n: nat, s: nat, bs: seq<nat>, xs: seq<Extractor>, out: seq<LabelResult>, from: seq<nat>)
    requires AllStand(job, |job.specs|, n, s, bs, xs, out, from)
    ensures AllStand(job, 0, n + 1, s, bs, xs, out, from)
  {
    forall e: nat | e < |job.specs| ensures Stands(job, e, n + 1, s, bs[e], xs[e], out, from) {
      assert Stands(job, e, RowsSeen(e, |job.specs|, n), s, bs[e], xs[e], out, from);
    }
  }

  // The stream's start.
  lemma {:induction false} NothingSeen(job: Job)
    ensures AllStand(job, 0, 0, 0, Repeat(0, |job.specs|), seq(|job.specs|, e => Extractor([], 0)), [], [])
  {
    forall e: nat | e < |job.specs| ensures Stands(job, e, 0, 0, Repeat(0, |job.specs|)[e], Extractor([], 0), [], []) {
      assert job.rows[0..0] == [];
    }
  }

  // ---------------------------------------------------------------- BroadcastContextExec

  function Queries(job: Job): (queries: seq<Query>)
    ensures |queries| == |job.specs|
    ensures forall e :: 0 <= e < |job.specs| ==> queries[e] == job.specs[e].q
  {
    seq(|job.specs|, e requires 0 <= e < |job.specs| => job.specs[e].q)
  }

  // Extractor e is keyed to one of the first k matched literals.
  ghost predicate KeyedAmong(litQueries: seq<seq<nat>>, ids: seq<nat>, k: nat, e: nat)
    requires k <= |ids|
  {
    exists j :: 0 <= j < k && e in PartAt(litQueries, ids[j])
  }

  // Stamp the extractors of the matched literals with this row's generation.
  method Stamp(wokenGen: seq<int>, gen: int, litQueries: seq<seq<nat>>, ids: seq<nat>) returns (stamps: seq<int>)
    requires forall k :: 0 <= k < |ids| ==> ids[k] < |litQueries|
    requires forall id, k :: 0 <= id < |litQueries| && 0 <= k < |litQueries[id]| ==> litQueries[id][k] < |wokenGen|
    requires forall e :: 0 <= e < |wokenGen| ==> wokenGen[e] < gen
    ensures |stamps| == |wokenGen| && forall e :: 0 <= e < |stamps| ==> stamps[e] <= gen
    ensures forall e: nat :: e < |stamps| ==> (stamps[e] == gen <==> KeyedAmong(litQueries, ids, |ids|, e))
  {
    stamps := wokenGen;
    for k: nat := 0 to |ids|
      invariant |stamps| == |wokenGen| && forall e :: 0 <= e < |stamps| ==> stamps[e] <= gen
      invariant forall e: nat :: e < |stamps| ==> (stamps[e] == gen <==> KeyedAmong(litQueries, ids, k, e))
    {
      ghost var was := stamps;
      stamps := StampEach(stamps, gen, litQueries[ids[k]]);
      ghost var k': nat := k + 1;
      forall e: nat | e < |stamps| ensures stamps[e] == gen <==> KeyedAmong(litQueries, ids, k', e) {
        assert was[e] == gen <==> KeyedAmong(litQueries, ids, k, e);
        assert e in PartAt(litQueries, ids[k]) <==> e in litQueries[ids[k]];
      }
    }
  }

  method StampEach(wokenGen: seq<int>, gen: int, members: seq<nat>) returns (stamps: seq<int>)
    requires forall k :: 0 <= k < |members| ==> members[k] < |wokenGen|
    requires forall e :: 0 <= e < |wokenGen| ==> wokenGen[e] <= gen
    ensures |stamps| == |wokenGen| && forall e :: 0 <= e < |stamps| ==> stamps[e] <= gen
    ensures forall e :: 0 <= e < |stamps| ==> (stamps[e] == gen <==> wokenGen[e] == gen || e in members)
  {
    stamps := wokenGen;
    for j := 0 to |members|
      invariant |stamps| == |wokenGen| && forall e :: 0 <= e < |stamps| ==> stamps[e] <= gen
      invariant forall e :: 0 <= e < |stamps| ==> (stamps[e] == gen <==> wokenGen[e] == gen || e in members[..j])
    {
      stamps := stamps[members[j] := gen];
      assert members[..j + 1] == members[..j] + [members[j]];
    }
    assert members[..|members|] == members;
  }

  lemma {:induction false} StampedIsWoken(queries: seq<Query>, litIDs: map<Str, nat>, literals: seq<Str>, litQueries: seq<seq<nat>>, alwaysWake: seq<nat>,
                                          ids: seq<nat>, row: seq<Value>, e: nat)
    requires Keyed(queries, |queries|, litIDs, literals, litQueries, alwaysWake) && Matched(literals, row, ids) && e < |queries|
    ensures e in alwaysWake || KeyedAmong(litQueries, ids, |ids|, e) <==> Woken(queries[e], row)
  {
    FlatMembers(litQueries, ids, e);
    FlatMemberIsWoken(queries, litIDs, literals, litQueries, alwaysWake, row, ids, e);
    assert e in alwaysWake <==> PrefilterLiteral(queries[e].pred).None?;
    if KeyedAmong(litQueries, ids, |ids|, e) {
      var j :| 0 <= j < |ids| && e in PartAt(litQueries, ids[j]);
      assert ids[j] in ids;
    }
    if e in Flat(litQueries, ids) {
      var id :| id in ids && e in PartAt(litQueries, id);
      var j :| 0 <= j < |ids| && ids[j] == id;
    }
  }

  // Which extractors the row wakes: its literal was found, or it has none.
  method Wake(queries: seq<Query>, ghost litIDs: map<Str, nat>, literals: seq<Str>, litQueries: seq<seq<nat>>, alwaysWake: seq<nat>,
              ids: seq<nat>, row: seq<Value>, wokenGen: seq<int>, gen: int) returns (awake: seq<bool>, stamps: seq<int>)
    requires Keyed(queries, |queries|, litIDs, literals, litQueries, alwaysWake) && Matched(literals, row, ids)
    requires |wokenGen| == |queries| && forall e :: 0 <= e < |wokenGen| ==> wokenGen[e] < gen
    ensures |stamps| == |queries| && forall e :: 0 <= e < |stamps| ==> stamps[e] <= gen
    ensures |awake| == |queries| && forall e :: 0 <= e < |queries| ==> awake[e] == Woken(queries[e], row)
  {
    KeyedInRange(queries, litIDs, literals, litQueries, alwaysWake);
    MatchedInRange(literals, row, ids);
    stamps := Stamp(wokenGen, gen, litQueries, ids);
    forall e: nat | e < |queries| ensures (e in alwaysWake || stamps[e] == gen) == Woken(queries[e], row) {
      StampedIsWoken(queries, litIDs, literals, litQueries, alwaysWake, ids, row, e);
    }
    awake := seq(|queries|, e requires 0 <= e < |stamps| => e in alwaysWake || stamps[e] == gen);
  }

  // The row's bytes through the automaton, then the extractors that it wakes.
  method ScanAndWake(ac: AhoCorasick, matched: AhoCorasickMatches, queries: seq<Query>, ghost litIDs: map<Str, nat>, literals: seq<Str>,
                     litQueries: seq<seq<nat>>, alwaysWake: seq<nat>, row: seq<Value>, wokenGen: seq<int>, gen: int)
    returns (awake: seq<bool>, stamps: seq<int>)
    requires ac.Valid() && ac.patterns == literals && matched.Valid() && matched.seen.Length == |literals|
    requires Keyed(queries, |queries|, litIDs, literals, litQueries, alwaysWake)
    requires |wokenGen| == |queries| && forall e :: 0 <= e < |wokenGen| ==> wokenGen[e] < gen
    modifies matched, matched.seen
    ensures matched.Valid() && matched.seen == old(matched.seen)
    ensures |stamps| == |queries| && forall e :: 0 <= e < |stamps| ==> stamps[e] <= gen
    ensures |awake| == |queries| && forall e :: 0 <= e < |queries| ==> awake[e] == Woken(queries[e], row)
  {
    ScanRow(ac, row, matched);
    awake, stamps := Wake(queries, litIDs, literals, litQueries, alwaysWake, matched.ids, row, wokenGen, gen);
  }

  // A partition boundary resets every extractor's window.
  method Boundary(job: Job, r: nat, havePart: bool, prevPart: Str, xs: seq<Extractor>, ghost s: nat, ghost bs: seq<nat>, ghost out: seq<LabelResult>, ghost from: seq<nat>)
    returns (xs': seq<Extractor>, havePart': bool, prevPart': Str, ghost bs': seq<nat>)
    requires r < |job.rows| && AllStand(job, 0, r, s, bs, xs, out, from)
    requires job.partitioned ==> havePart == (r > 0) && (r > 0 ==> prevPart == PartKey(job, r - 1))
    requires s == if r == 0 then 0 else RunStart(Parts(job), r - 1)
    ensures AllStand(job, 0, r, RunStart(Parts(job), r), bs', xs', out, from)
    ensures job.partitioned ==> havePart' && prevPart' == PartKey(job, r)
  {
    xs', havePart', prevPart', bs' := xs, havePart, prevPart, bs;
    if job.partitioned {
      var pv := PartKey(job, r);
      if !havePart || pv != prevPart {
        ResetStands(job, r, s, bs, xs, out, from);
        xs', bs' := seq(|job.specs|, e => Extractor([], 0)), Repeat(r, |job.specs|);
        prevPart', havePart' := pv, true;
      }
    }
  }

  // The results are the extractors' and nobody else's: from says whose each is, and each extractor's are
  // exactly what its windows hold, in the order of the rows.
  ghost predicate Interleaves(job: Job, out: seq<LabelResult>, from: seq<nat>)
  {
    && |from| == |out|
    && (forall k :: 0 <= k < |from| ==> from[k] < |job.specs|)
    && forall e: nat :: e < |job.specs| ==> Of(out, from, e, |out|) == Windowed(job, e, |job.rows|)
  }

  method BroadcastContextExec(job: Job) returns (out: seq<LabelResult>)
    ensures exists from :: Interleaves(job, out, from) && Delivers(job, true, out, from)
    ensures Sound(job.env, Queries(job)) ==> exists from :: InterleavesMatches(job, out, from) && Delivers(job, false, out, from)
  {
    var queries := Queries(job);
    var literals, litQueries, alwaysWake;
    ghost var litIDs;
    literals, litQueries, alwaysWake, litIDs := KeyQueries(queries);
    var ac := new AhoCorasick(literals);
    var matched := ac.NewMatchSet();
    var wokenGen, gen := seq(|queries|, e => 0), 0;
    var xs := seq(|job.specs|, e => Extractor([], 0));
    var havePart, prevPart: Str := false, [];
    ghost var s: nat, bs := 0, Repeat(0, |job.specs|);
    ghost var from: seq<nat> := [];
    out := [];
    NothingSeen(job);
    for r: nat := 0 to |job.rows|
      invariant matched.Valid() && fresh(matched) && fresh(matched.seen) && ac.Valid() && ac.patterns == literals && matched.seen.Length == |literals|
      invariant |wokenGen| == |queries| && forall e :: 0 <= e < |wokenGen| ==> wokenGen[e] <= gen
      invariant job.partitioned ==> havePart == (r > 0) && (r > 0 ==> prevPart == PartKey(job, r - 1))
      invariant s == if r == 0 then 0 else RunStart(Parts(job), r - 1)
      invariant AllStand(job, 0, r, s, bs, xs, out, from)
    {
      xs, havePart, prevPart, bs := Boundary(job, r, havePart, prevPart, xs, s, bs, out, from);
      s := RunStart(Parts(job), r);
      gen := gen + 1;
      var awake;
      awake, wokenGen := ScanAndWake(ac, matched, queries, litIDs, literals, litQueries, alwaysWake, job.rows[r], wokenGen, gen);
      xs, out, bs, from := FanRow(job, xs, r, awake, s, bs, out, from);
      NextRow(job, r, s, bs, xs, out, from);
    }
    AllWindowed(job, s, bs, xs, out, from);
    AllDelivered(job, out, from);
  }

  lemma {:induction false} AllDelivered(job: Job, out: seq<LabelResult>, from: seq<nat>)
    requires Interleaves(job, out, from)
    ensures Delivers(job, true, out, from)
    ensures Sound(job.env, Queries(job)) ==> InterleavesMatches(job, out, from) && Delivers(job, false, out, from)
  {
    WindowsDeliver(job, out, from);
    if Sound(job.env, Queries(job)) {
      WindowsAreOfMatches(job, out, from);
      MatchWindowsDeliver(job, out, from);
    }
  }

  lemma {:induction false} AllWindowed(job: Job, s: nat, bs: seq<nat>, xs: seq<Extractor>, out: seq<LabelResult>, from: seq<nat>)
    requires AllStand(job, 0, |job.rows|, s, bs, xs, out, from)
    ensures Interleaves(job, out, from)
  {
    forall e: nat | e < |job.specs| ensures Of(out, from, e, |out|) == Windowed(job, e, |job.rows|) {
      assert Stands(job, e, RowsSeen(e, 0, |job.rows|), s, bs[e], xs[e], out, from);
    }
  }

  // Where the index is sound, a hit is a row on which the predicate is truthy.
  lemma {:induction false} HitsAreMatches(job: Job, e: nat, row: seq<Value>)
    requires e < |job.specs| && Sound(job.env, Queries(job))
    ensures Hit(job, e, row) <==> Truthy(Eval(job.env, job.labels, row, job.specs[e].q.pred))
  {
    assert FromEvaluated(Queries(job)[e].pred);
    if !Woken(job.specs[e].q, row) {
      LiteralIsNecessary(job.env, job.labels, row, job.specs[e].q.pred);
    }
  }

  // The rows on which the predicate is truthy, whether or not the extractor was woken.
  ghost function MatchStream(job: Job, e: nat): (st: Stream)
    requires e < |job.specs|
    ensures |st.hits| == |job.rows| == |st.parts|
    ensures forall r :: 0 <= r < |job.rows| ==> st.hits[r] == Truthy(Eval(job.env, job.labels, job.rows[r], job.specs[e].q.pred))
  {
    Stream(seq(|job.rows|, r requires 0 <= r < |job.rows| => Truthy(Eval(job.env, job.labels, job.rows[r], job.specs[e].q.pred))),
           Parts(job), AtLeast0(job.specs[e].before), AtLeast0(job.specs[e].after))
  }

  // Interleaves, with every match of the predicates.
  ghost predicate InterleavesMatches(job: Job, out: seq<LabelResult>, from: seq<nat>)
  {
    && |from| == |out|
    && (forall k :: 0 <= k < |from| ==> from[k] < |job.specs|)
    && forall e: nat :: e < |job.specs| ==> Of(out, from, e, |out|) == ResultsOf(job, e, MatchStream(job, e).Windows(|job.rows|, |job.rows|))
  }

  lemma {:induction false} WindowsAreOfMatches(job: Job, out: seq<LabelResult>, from: seq<nat>)
    requires Sound(job.env, Queries(job)) && Interleaves(job, out, from)
    ensures InterleavesMatches(job, out, from)
  {
    forall e: nat | e < |job.specs| ensures StreamOf(job, e) == MatchStream(job, e) {
      forall r | 0 <= r < |job.rows| ensures StreamOf(job, e).hits[r] == MatchStream(job, e).hits[r] {
        HitsAreMatches(job, e, job.rows[r]);
      }
      assert StreamOf(job, e).hits == MatchStream(job, e).hits;
    }
  }

  // ---------------------------------------------------------------- the windows, row by row

  // No change of the partition key from row a to row b.
  ghost predicate SamePartition(job: Job, a: nat, b: nat)
    requires a <= b < |job.rows|
  {
    job.partitioned ==> forall k :: a <= k <= b ==>
      SlotBytes(Eval(job.env, job.labels, job.rows[k], job.partExpr)) == SlotBytes(Eval(job.env, job.labels, job.rows[b], job.partExpr))
  }

  // Row m matches, and row i is among the rows of its partition that the extractor wants around it.
  ghost predicate Around(job: Job, e: nat, matches: seq<bool>, m: nat, i: nat)
    requires e < |job.specs| && |matches| == |job.rows|
  {
    && m < |job.rows| && i < |job.rows| && matches[m]
    && if i <= m then m - i <= AtLeast0(job.specs[e].before) && SamePartition(job, i, m)
       else i - m <= AtLeast0(job.specs[e].after) && SamePartition(job, m, i)
  }

  // A result is tagged by its extractor and carries the projection of its row.
  ghost predicate IsResult(job: Job, e: nat, i: nat, result: LabelResult)
    requires e < |job.specs| && i < |job.rows|
  {
    result == LabelResult(job.specs[e].q.tag, Project(job.env, job.labels, job.rows[i], job.specs[e].q.proj))
  }

  // Each row around a match once, in order, and no other row.
  ghost predicate Yields(job: Job, e: nat, matches: seq<bool>, results: seq<LabelResult>)
    requires e < |job.specs| && |matches| == |job.rows|
  {
    exists idxs: seq<nat> :: AllAround(job, e, matches, idxs) && AreResults(job, e, idxs, results)
  }

  ghost predicate AllAround(job: Job, e: nat, matches: seq<bool>, idxs: seq<nat>)
    requires e < |job.specs| && |matches| == |job.rows|
  {
    && (forall j, k :: 0 <= j < k < |idxs| ==> idxs[j] < idxs[k])
    && (forall i: nat :: i in idxs <==> exists m: nat :: Around(job, e, matches, m, i))
  }

  ghost predicate AreResults(job: Job, e: nat, idxs: seq<nat>, results: seq<LabelResult>)
    requires e < |job.specs|
  {
    |results| == |idxs| && forall j :: 0 <= j < |idxs| ==> idxs[j] < |job.rows| && IsResult(job, e, idxs[j], results[j])
  }

  // The rows on which extractor e's predicate is truthy, of those that wake it or of all.
  ghost function Matches(job: Job, wokenOnly: bool, e: nat): (matches: seq<bool>)
    requires e < |job.specs|
    ensures |matches| == |job.rows|
  {
    seq(|job.rows|, r requires 0 <= r < |job.rows| =>
      (wokenOnly ==> Woken(job.specs[e].q, job.rows[r])) && Truthy(Eval(job.env, job.labels, job.rows[r], job.specs[e].q.pred)))
  }

  ghost predicate Delivers(job: Job, wokenOnly: bool, out: seq<LabelResult>, from: seq<nat>)
  {
    && |from| == |out|
    && (forall k :: 0 <= k < |from| ==> from[k] < |job.specs|)
    && forall e: nat :: e < |job.specs| ==> Yields(job, e, Matches(job, wokenOnly, e), Of(out, from, e, |out|))
  }

  // A stream's windows are the rows around its matches.
  lemma {:induction false} WindowIsAround(job: Job, e: nat, st: Stream, i: nat)
    requires e < |job.specs| && |st.hits| == |job.rows| && st.parts == Parts(job)
    requires st.before == AtLeast0(job.specs[e].before) && st.after == AtLeast0(job.specs[e].after)
    ensures i < |job.rows| && st.InWindow(|job.rows|, i) <==> exists m: nat :: Around(job, e, st.hits, m, i)
  {
    if i < |job.rows| && st.InWindow(|job.rows|, i) {
      var m: nat :| m < |job.rows| && st.Reaches(m, i);
      ReachIsAround(job, e, st, m, i);
    }
    if m: nat :| Around(job, e, st.hits, m, i) {
      ReachIsAround(job, e, st, m, i);
    }
  }

  lemma {:induction false} ReachIsAround(job: Job, e: nat, st: Stream, m: nat, i: nat)
    requires e < |job.specs| && |st.hits| == |job.rows| && st.parts == Parts(job)
    requires st.before == AtLeast0(job.specs[e].before) && st.after == AtLeast0(job.specs[e].after)
    ensures st.Reaches(m, i) <==> Around(job, e, st.hits, m, i)
  {
    if m < |job.rows| && i < |job.rows| {
      if i <= m {
        SamePartitionIff(st.parts, i, m);
        KeysAreParts(job, i, m);
      } else {
        SamePartitionIff(st.parts, m, i);
        KeysAreParts(job, m, i);
      }
    }
  }

  lemma {:induction false} KeysAreParts(job: Job, a: nat, b: nat)
    requires a <= b < |job.rows|
    ensures SamePartition(job, a, b) <==> forall k :: a <= k <= b ==> Parts(job)[k] == Parts(job)[b]
  {
    var parts := Parts(job);
    if job.partitioned {
      if SamePartition(job, a, b) {
        forall k | a <= k <= b ensures parts[k] == parts[b] {
          var row := job.rows[k];
        }
      }
      if forall k :: a <= k <= b ==> parts[k] == parts[b] {
        forall k | a <= k <= b
          ensures SlotBytes(Eval(job.env, job.labels, job.rows[k], job.partExpr)) == SlotBytes(Eval(job.env, job.labels, job.rows[b], job.partExpr))
        {
          assert parts[k] == parts[b];
        }
      }
    }
  }

  lemma {:induction false} StreamYields(job: Job, e: nat, st: Stream)
    requires e < |job.specs| && |st.hits| == |job.rows| && st.parts == Parts(job)
    requires st.before == AtLeast0(job.specs[e].before) && st.after == AtLeast0(job.specs[e].after)
    ensures Yields(job, e, st.hits, ResultsOf(job, e, st.Windows(|job.rows|, |job.rows|)))
  {
    var idxs := st.Windows(|job.rows|, |job.rows|);
    WindowsAreAround(job, e, st);
    assert AreResults(job, e, idxs, ResultsOf(job, e, idxs));
  }

  lemma {:induction false} WindowsAreAround(job: Job, e: nat, st: Stream)
    requires e < |job.specs| && |st.hits| == |job.rows| && st.parts == Parts(job)
    requires st.before == AtLeast0(job.specs[e].before) && st.after == AtLeast0(job.specs[e].after)
    ensures AllAround(job, e, st.hits, st.Windows(|job.rows|, |job.rows|))
  {
    WindowsList(st, |job.rows|, |job.rows|);
    forall i: nat ensures i in st.Windows(|job.rows|, |job.rows|) <==> exists m: nat :: Around(job, e, st.hits, m, i) {
      WindowIsAround(job, e, st, i);
    }
  }

  lemma {:induction false} WindowsDeliver(job: Job, out: seq<LabelResult>, from: seq<nat>)
    requires Interleaves(job, out, from)
    ensures Delivers(job, true, out, from)
  {
    forall e: nat | e < |job.specs| ensures Yields(job, e, Matches(job, true, e), Of(out, from, e, |out|)) {
      StreamYields(job, e, StreamOf(job, e));
      assert StreamOf(job, e).hits == Matches(job, true, e);
    }
  }

  lemma {:induction false} MatchWindowsDeliver(job: Job, out: seq<LabelResult>, from: seq<nat>)
    requires InterleavesMatches(job, out, from)
    ensures Delivers(job, false, out, from)
  {
    forall e: nat | e < |job.specs| ensures Yields(job, e, Matches(job, false, e), Of(out, from, e, |out|)) {
      StreamYields(job, e, MatchStream(job, e));
      assert MatchStream(job, e).hits == Matches(job, false, e);
    }
  }
}
