// base/agg_window.go, engine/op_window.go: the MIN/MAX deque in place, and a partition's run over it.
module WindowDeque {
  import opened Json
  import opened Expr
  import Collation
  import opened WindowFrames
  import opened WindowSteps
  import opened WindowFolds
  import opened WindowMinMax

  function Entries(idx: seq<int>, val: seq<Json>, head: nat): (d: seq<Entry>)
    requires head <= |idx| == |val|
    ensures |d| == |idx| - head
    ensures forall a :: 0 <= a < |d| ==> d[a] == Entry(idx[head + a], val[head + a])
  {
    seq(|idx| - head, a requires 0 <= a < |idx| - head => Entry(idx[head + a], val[head + a]))
  }

  lemma EntriesPush(idx: seq<int>, val: seq<Json>, head: nat, i: int, v: Json)
    requires head <= |idx| == |val|
    ensures Entries(idx + [i], val + [v], head) == Entries(idx, val, head) + [Entry(i, v)]
  {
  }

  lemma EntriesDrop(idx: seq<int>, val: seq<Json>, head: nat, head': nat, beg: int)
    requires head <= head' <= |idx| == |val|
    requires forall a :: head <= a < head' ==> idx[a] < beg
    requires head' < |idx| ==> beg <= idx[head']
    ensures var d, k := Entries(idx, val, head), head' - head;
            && Entries(idx, val, head') == d[k..]
            && (forall a :: 0 <= a < k ==> d[a].idx < beg)
            && (k < |d| ==> beg <= d[k].idx)
  {
    forall a | 0 <= a < head' - head ensures Entries(idx, val, head)[a].idx < beg {
      assert idx[head + a] < beg;
    }
  }

  class SlideMinMax {
    const isMax: bool
    var mmIdx: seq<int>
    var mmVal: seq<Json>
    var mmHead: nat
    var mmEverMissing: bool

    ghost predicate Valid()
      reads this
    {
      mmHead <= |mmIdx| == |mmVal|
    }

    function Live(): seq<Entry>
      reads this
      requires Valid()
    {
      Entries(mmIdx, mmVal, mmHead)
    }

    constructor (isMax: bool)
      ensures Valid() && this.isMax == isMax && Live() == [] && !mmEverMissing
    {
      this.isMax := isMax;
      mmIdx, mmVal, mmHead, mmEverMissing := [], [], 0, false;
    }

    method Reset()
      modifies this
      ensures Valid() && Live() == [] && !mmEverMissing
    {
      mmIdx, mmVal, mmHead, mmEverMissing := [], [], 0, false;
    }

    // A row enters: the back entries that it beats or ties leave. NULL and MISSING never enter, and a
    // MISSING means that the partition's later rows are folded afresh.
    method Enter(idx: int, v: Value)
      requires Valid()
      modifies this
      ensures Valid()
      ensures Live() == Entered(isMax, old(Live()), idx, v)
      ensures mmEverMissing == (old(mmEverMissing) || v.Missing?)
    {
      if !Valued(v) {
        if v.Missing? {
          mmEverMissing := true;
        }
        return;
      }
      PopBack(Dominates(isMax, v.j));
      EntriesPush(mmIdx, mmVal, mmHead, idx, v.j);
      mmVal, mmIdx := mmVal + [v.j], mmIdx + [idx];
    }

    method PopBack(wins: Json -> bool)
      requires Valid()
      modifies this`mmIdx, this`mmVal
      ensures Valid() && Live() == old(Live())[..Kept(wins, old(Live()), |old(Live())|)]
    {
      ghost var d := Live();
      var n := |mmVal|;
      while n > mmHead
        invariant mmHead <= n <= |mmVal| == |mmIdx| && Live() == d
        invariant Kept(wins, d, n - mmHead) == Kept(wins, d, |d|)
      {
        assert d[n - 1 - mmHead].val == mmVal[n - 1];
        if wins(mmVal[n - 1]) {
          break;
        }
        n := n - 1;
      }
      mmVal, mmIdx := mmVal[..n], mmIdx[..n];
    }

    // Front entries left of beg leave.
    method Expire(beg: int)
      requires Valid()
      modifies this`mmHead
      ensures Valid() && mmHead >= old(mmHead)
      ensures var k := mmHead - old(mmHead);
              && k <= |old(Live())| && Live() == old(Live())[k..]
              && (forall a :: 0 <= a < k ==> old(Live())[a].idx < beg)
              && (k < |old(Live())| ==> beg <= old(Live())[k].idx)
    {
      while mmHead < |mmIdx| && mmIdx[mmHead] < beg
        invariant Valid() && mmHead >= old(mmHead)
        invariant forall a :: old(mmHead) <= a < mmHead ==> mmIdx[a] < beg
        decreases |mmIdx| - mmHead
      {
        mmHead := mmHead + 1;
      }
      EntriesDrop(mmIdx, mmVal, old(mmHead), mmHead, beg);
    }

    // The front's value, or NULL.
    method Result() returns (j: Json)
      requires Valid()
      ensures j == if Live() == [] then Null else Live()[0].val
    {
      if mmHead >= |mmVal| {
        return Null;
      }
      j := mmVal[mmHead];
    }

    // One row of a sliding frame: the rows that entered the frame enter the deque, those that left expire.
    // All expire when the frame begins at its end or beyond.
    method SlideTo(vals: seq<Value>, frame: Span, prev: Span)
      requires Valid() && Comparable(vals)
      requires EndsInside(prev, |vals|) && EndsInside(frame, |vals|) && prev.beg <= frame.beg && prev.end <= frame.end
      requires DequeOk(isMax, Live(), vals, First(prev), prev.end)
      modifies this
      ensures Valid() && DequeOk(isMax, Live(), vals, First(frame), frame.end)
    {
      for i := prev.end to frame.end
        invariant Valid() && DequeOk(isMax, Live(), vals, First(prev), i)
      {
        EnterKeepsDeque(isMax, Live(), vals, First(prev), i);
        Enter(i, vals[i]);
      }
      ghost var d, head := Live(), mmHead;
      Expire(frame.beg);
      forall a | 0 <= a < mmHead - head ensures d[a].idx < First(frame) {
        assert EntryOk(d[a], vals, First(prev), frame.end);
      }
      ExpireKeepsDeque(isMax, d, vals, First(prev), frame.end, First(frame), mmHead - head);
    }
  }

  // What the deque needs of a frame: it may begin anywhere, also beyond its end.
  ghost predicate EndsInside(frame: Span, n: int)
  {
    0 <= frame.beg && 0 <= frame.end <= n
  }

  // Neither end moves back from row to row.
  ghost predicate Advances(frames: seq<Span>, n: int)
  {
    && (forall p :: 0 <= p < |frames| ==> EndsInside(frames[p], n))
    && (forall p :: 0 < p < |frames| ==> frames[p - 1].beg <= frames[p].beg && frames[p - 1].end <= frames[p].end)
  }

  // Where such a frame's rows begin: at its end if it has none.
  function First(frame: Span): int
  {
    Min(frame.beg, frame.end)
  }

  // AggCompareResult
  function BestResult(acc: Value): Json
  {
    if acc.Missing? then Null else acc.j
  }

  // r is the fresh fold's result but for the choice among equals.
  ghost predicate SameBest(isMax: bool, vals: seq<Value>, frame: Span, r: Json)
    requires Within(frame, |vals|)
  {
    var best := FreshFold(BestUpdate(isMax), Missing, vals, frame);
    Collation.Compare(r, BestResult(best)) == 0 && (r.Null? <==> best.Missing?)
  }

  // r is NULL if the frame has no value, and else one of its values that none is above, or below for MIN.
  ghost predicate ExtremeOf(isMax: bool, vals: seq<Value>, frame: Span, r: Json)
    requires Within(frame, |vals|)
  {
    if forall i :: frame.beg <= i < frame.end ==> vals[i].Missing? || vals[i].j.Null? then r == Null
    else IsExtreme(isMax, r, vals, frame.beg, frame.end)
  }

  lemma {:induction false} FrontIsSameBest(isMax: bool, d: seq<Entry>, vals: seq<Value>, frame: Span)
    requires EndsInside(frame, |vals|) && Comparable(vals) && DequeOk(isMax, d, vals, First(frame), frame.end)
    ensures SameBest(isMax, vals, frame, if d == [] then Null else d[0].val)
    ensures ExtremeOf(isMax, vals, frame, if d == [] then Null else d[0].val)
  {
    DequeIsFold(isMax, d, vals, First(frame), frame.end);
    FrontIsBest(isMax, d, vals, First(frame), frame.end);
    if d != [] {
      WinnerIsExtreme(isMax, d[0].val, vals, First(frame), frame.end);
    }
    if d != [] {
      assert EntryOk(d[0], vals, First(frame), frame.end);
    }
  }

  lemma {:induction false} FoldIsSameBest(isMax: bool, vals: seq<Value>, frame: Span)
    requires EndsInside(frame, |vals|) && Comparable(vals)
    ensures SameBest(isMax, vals, frame, BestResult(FreshFold(BestUpdate(isMax), Missing, vals, frame)))
    ensures ExtremeOf(isMax, vals, frame, BestResult(FreshFold(BestUpdate(isMax), Missing, vals, frame)))
  {
    BestIsExtreme(isMax, vals, First(frame), frame.end);
    FoldIsBest(isMax, vals, First(frame), frame.end);
    var best := BestOf(isMax, vals, First(frame), frame.end);
    if best.Val? {
      CmpReverses(isMax, best.j, best.j);
    }
  }

  // The front while the deque is trusted, a fresh fold once it is not.
  method ResultAt(deque: SlideMinMax, vals: seq<Value>, frame: Span) returns (r: Json)
    requires EndsInside(frame, |vals|) && Comparable(vals)
    requires deque.Valid() && DequeOk(deque.isMax, deque.Live(), vals, First(frame), frame.end)
    ensures SameBest(deque.isMax, vals, frame, r) && ExtremeOf(deque.isMax, vals, frame, r)
  {
    if !deque.mmEverMissing {
      r := deque.Result();
      FrontIsSameBest(deque.isMax, deque.Live(), vals, frame);
    } else {
      var acc := FoldAfresh(BestUpdate(deque.isMax), Missing, vals, frame);
      FoldIsSameBest(deque.isMax, vals, frame);
      r := BestResult(acc);
    }
  }

  // Over a partition, at every row: MIN/MAX as the fresh fold has it, NULL exactly when it is; and the least
  // or greatest value of the frame.
  method SlidingBest(isMax: bool, vals: seq<Value>, frames: seq<Span>) returns (results: seq<Json>)
    requires Advances(frames, |vals|) && Comparable(vals)
    ensures |results| == |frames|
    ensures forall p :: 0 <= p < |frames| ==> SameBest(isMax, vals, frames[p], results[p]) && ExtremeOf(isMax, vals, frames[p], results[p])
  {
    results := [];
    var deque := new SlideMinMax(isMax);
    var prev := Span(0, 0);
    for p := 0 to |frames|
      invariant fresh(deque) && deque.Valid() && deque.isMax == isMax && |results| == p
      invariant prev == Before(frames, p)
      invariant DequeOk(isMax, deque.Live(), vals, First(prev), prev.end)
      invariant forall q :: 0 <= q < p ==> SameBest(isMax, vals, frames[q], results[q]) && ExtremeOf(isMax, vals, frames[q], results[q])
    {
      deque.SlideTo(vals, frames[p], prev);
      prev := frames[p];
      var r := ResultAt(deque, vals, prev);
      results := results + [r];
    }
  }
}
