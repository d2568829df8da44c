// base/agg.go: the accumulators' byte layouts, and what each fold's bytes stand for.
module Aggregates {
  import opened Bytes
  import opened Json
  import opened Expr
  import opened ValsCodec
  import opened Group
  import Collation
  import WindowFolds
  import WindowMinMax
  import WindowSums

  lemma SplitAt(a: Str, rest: Str, n: nat)
    requires n <= |a|
    ensures (a + rest)[..n] == a[..n] && (n == |a| ==> (a + rest)[n..] == rest && a[..n] == a && a[n..] == [])
  {
  }

  // ---------------------------------------------------------------- COUNT

  function CountUpdate(v: Value, agg: Str): Updated
  {
    if |agg| < 8 then Updated(agg, [], false)
    else if !Valued(v) then Updated(agg[..8], agg[8..], false)
    else Updated(Uint64(FromLittleEndian(agg[..8]) + 1), agg[8..], true)
  }

  function AggCount(): Agg
  {
    Agg(Uint64(0), CountUpdate, v => true, (b, k) => |b| == 8)
  }

  lemma CountUpdates(v: Value, a: Str, rest: Str, k: nat)
    requires |a| == 8
    ensures UpdateBehaves(AggCount(), v, a, rest, k)
  {
    SplitAt(a, rest, 8);
    SplitAt(a, [], 8);
  }

  lemma CountBehaves()
    ensures Behaves(AggCount())
  {
    forall v: Value, a: Str, rest: Str, k: nat | |a| == 8 ensures UpdateBehaves(AggCount(), v, a, rest, k) {
      CountUpdates(v, a, rest, k);
    }
  }

  lemma CountStep(v: Value, c: nat)
    requires c < TWO64
    ensures CountUpdate(v, Uint64(c)).bytes == Uint64(if Valued(v) then c + 1 else c)
  {
    Uint64RoundTrip(c, []);
    assert Uint64(c) + [] == Uint64(c);
  }

  // The count of the valued operands, as eight bytes.
  lemma {:induction false} CountMeans(vals: seq<Value>, n: nat)
    requires n <= |vals| < TWO64
    ensures 0 <= WindowFolds.CountOf(vals, 0, n) <= n
    ensures Fold(AggCount(), vals, n) == Uint64(WindowFolds.CountOf(vals, 0, n))
    decreases n
  {
    if n > 0 {
      CountMeans(vals, n - 1);
      CountStep(vals[n - 1], WindowFolds.CountOf(vals, 0, n - 1));
    }
  }

  // ---------------------------------------------------------------- SUM and AVG

  // How a float64 is stored, with its NaN for "no number yet", and the rounding of an addition.
  datatype Float = Float(enc: real -> Str, nan: Str, dec: Str -> real, fl: real -> real)

  ghost predicate FloatOk(f: Float)
  {
    |f.nan| == 8 && forall x: real :: |f.enc(x)| == 8
  }

  lemma EightBytes(f: Float, x: real)
    requires FloatOk(f)
    ensures |f.enc(x)| == 8
  {
  }

  // dec reads the sentinel as zero.
  function SumUpdate(f: Float): (Value, Str) -> Updated
  {
    (v: Value, agg: Str) =>
      if |agg| < 8 then Updated(agg, [], false)
      else if !(v.Val? && v.j.Number?) then Updated(agg[..8], agg[8..], false)
      else Updated(f.enc(f.fl(f.dec(agg[..8]) + v.j.v)), agg[8..], true)
  }

  // A sum from some initial bytes: AggSum starts at the sentinel, an average's half at zero.
  function SumFrom(f: Float, init: Str): Agg
  {
    Agg(init, SumUpdate(f), v => true, (b, k) => |b| == 8)
  }

  function AggSum(f: Float): Agg
  {
    SumFrom(f, f.nan)
  }

  lemma SumUpdates(f: Float, init: Str, v: Value, a: Str, rest: Str, k: nat)
    requires FloatOk(f) && |a| == 8
    ensures UpdateBehaves(SumFrom(f, init), v, a, rest, k)
  {
    SplitAt(a, rest, 8);
    SplitAt(a, [], 8);
    if v.Val? && v.j.Number? {
      EightBytes(f, f.fl(f.dec(a) + v.j.v));
    }
  }

  lemma SumBehaves(f: Float)
    requires FloatOk(f)
    ensures Behaves(AggSum(f))
  {
    forall v: Value, a: Str, rest: Str, k: nat | |a| == 8 ensures UpdateBehaves(AggSum(f), v, a, rest, k) {
      SumUpdates(f, f.nan, v, a, rest, k);
    }
  }

  // What rounding gives is read back when stored; the sentinel and eight zero bytes read as zero.
  ghost predicate FloatReads(f: Float)
  {
    && f.dec(f.nan) == 0.0 && f.dec(Uint64(0)) == 0.0
    && forall x: real :: f.dec(f.enc(f.fl(x))) == f.fl(x)
  }

  function SumBytes(f: Float, init: Str, acc: WindowSums.SumAcc): Str
  {
    if acc.Sum? then f.enc(acc.s) else init
  }

  function NumbersFold(f: Float, vals: seq<Value>, n: nat): WindowSums.SumAcc
    requires n <= |vals|
  {
    WindowFolds.Fold(WindowSums.SumUpdate(f.fl), WindowSums.NoNumber, vals, 0, n)
  }

  // The bytes are the fold of the numbers, left to right, or the initial ones when there is none: the
  // sentinel of a SUM, the zero of an average's half.
  lemma {:induction false} SumFromMeans(f: Float, init: Str, vals: seq<Value>, n: nat)
    requires FloatOk(f) && FloatReads(f) && n <= |vals| && |init| == 8 && f.dec(init) == 0.0
    ensures Fold(SumFrom(f, init), vals, n) == SumBytes(f, init, NumbersFold(f, vals, n))
    ensures NumbersFold(f, vals, n).Sum? ==> f.dec(f.enc(NumbersFold(f, vals, n).s)) == NumbersFold(f, vals, n).s
    decreases n
  {
    if n > 0 {
      SumFromMeans(f, init, vals, n - 1);
      SumStep(f, init, vals[n - 1], NumbersFold(f, vals, n - 1));
    }
  }

  lemma {:induction false} SumMeans(f: Float, vals: seq<Value>, n: nat)
    requires FloatOk(f) && FloatReads(f) && n <= |vals|
    ensures Fold(AggSum(f), vals, n) == SumBytes(f, f.nan, NumbersFold(f, vals, n))
  {
    SumFromMeans(f, f.nan, vals, n);
  }

  lemma SumStep(f: Float, init: Str, v: Value, acc: WindowSums.SumAcc)
    requires FloatOk(f) && FloatReads(f) && |init| == 8 && f.dec(init) == 0.0
    requires acc.Sum? ==> f.dec(f.enc(acc.s)) == acc.s
    ensures var acc' := WindowSums.SumUpdate(f.fl)(acc, v);
            SumUpdate(f)(v, SumBytes(f, init, acc)).bytes == SumBytes(f, init, acc') && (acc'.Sum? ==> f.dec(f.enc(acc'.s)) == acc'.s)
  {
    var b := SumBytes(f, init, acc);
    if acc.Sum? {
      EightBytes(f, acc.s);
    }
    assert b[..8] == b;
  }

  // A float of integers: sign and magnitude, and a pattern of its own for the sentinel.
  const NEGATIVE: nat := 0x1000_0000_0000_0000
  const SENTINEL: nat := 0x2000_0000_0000_0000

  function IntFloat(): Float
  {
    Float(
      x => Uint64(IntCode(x)),
      Uint64(SENTINEL),
      b => IntDecode(FromLittleEndian(b)),
      x => if x < -WindowSums.LIMIT then -WindowSums.LIMIT else if x > WindowSums.LIMIT then WindowSums.LIMIT else x.Floor as real)
  }

  function IntCode(x: real): nat
  {
    if x.Floor >= 0 then x.Floor else NEGATIVE - x.Floor
  }

  function IntDecode(n: nat): real
  {
    if n < NEGATIVE then n as real else if n < SENTINEL then -((n - NEGATIVE) as real) else 0.0
  }

  lemma IntReads(n: nat)
    requires n < TWO64
    ensures IntFloat().dec(Uint64(n)) == IntDecode(n)
  {
    Uint64RoundTrip(n, []);
    assert (Uint64(n) + [])[..8] == Uint64(n);
  }

  lemma IntRounds(x: real)
    ensures var y := IntFloat().fl(x); IntCode(y) < TWO64 && IntDecode(IntCode(y)) == y
  {
    var y := IntFloat().fl(x);
    assert y == y.Floor as real && -9007199254740992 <= y.Floor <= 9007199254740992;
  }

  // So the demands on a float can be met together.
  lemma FloatExists()
    ensures FloatOk(IntFloat()) && FloatReads(IntFloat()) && WindowSums.RoundsExactly(IntFloat().fl)
  {
    var f := IntFloat();
    IntReads(0);
    IntReads(SENTINEL);
    forall x: real ensures f.dec(f.enc(f.fl(x))) == f.fl(x) {
      IntRounds(x);
      IntReads(IntCode(f.fl(x)));
    }
  }

  // [count][sum]: COUNT's update, then SUM's on what it left.
  function AvgUpdate(f: Float): (Value, Str) -> Updated
  {
    (v: Value, agg: Str) =>
      var c := CountUpdate(v, agg);
      var s := SumUpdate(f)(v, c.rest);
      Updated(c.bytes + s.bytes, s.rest, true)
  }

  function AggAvg(f: Float): Agg
  {
    Agg(Uint64(0) + Uint64(0), AvgUpdate(f), v => true, (b, k) => |b| == 16)
  }

  lemma AvgOfParts(f: Float, v: Value, c: Str, s: Str, rest: Str)
    requires FloatOk(f) && |c| == 8 && |s| == 8
    ensures var c', s' := CountUpdate(v, c).bytes, SumUpdate(f)(v, s).bytes;
            |c'| == 8 && |s'| == 8 && AvgUpdate(f)(v, (c + s) + rest) == Updated(c' + s', rest, true)
  {
    assert (c + s) + rest == c + (s + rest);
    CountUpdates(v, c, s + rest, 0);
    SumUpdates(f, Uint64(0), v, s, rest, 0);
  }

  lemma AvgBehaves(f: Float)
    requires FloatOk(f)
    ensures Behaves(AggAvg(f))
  {
    forall v: Value, a: Str, rest: Str, k: nat | |a| == 16 ensures UpdateBehaves(AggAvg(f), v, a, rest, k) {
      assert a == a[..8] + a[8..];
      AvgOfParts(f, v, a[..8], a[8..], rest);
      AvgOfParts(f, v, a[..8], a[8..], []);
      assert a + [] == a;
    }
  }

  // An average is its own count and sum, side by side.
  lemma {:induction false} AvgOfHalves(f: Float, vals: seq<Value>, n: nat)
    requires FloatOk(f) && n <= |vals| < TWO64
    ensures Fold(AggAvg(f), vals, n) == Fold(AggCount(), vals, n) + Fold(SumFrom(f, Uint64(0)), vals, n)
    ensures |Fold(AggCount(), vals, n)| == 8 && |Fold(SumFrom(f, Uint64(0)), vals, n)| == 8
    decreases n
  {
    if n > 0 {
      AvgOfHalves(f, vals, n - 1);
      var c, s := Fold(AggCount(), vals, n - 1), Fold(SumFrom(f, Uint64(0)), vals, n - 1);
      AvgOfParts(f, vals[n - 1], c, s, []);
      assert (c + s) + [] == c + s;
    }
  }

  // The count of the valued operands, then the fold of the numbers, or zero for none.
  lemma {:induction false} AvgMeans(f: Float, vals: seq<Value>, n: nat)
    requires FloatOk(f) && FloatReads(f) && n <= |vals| < TWO64
    ensures 0 <= WindowFolds.CountOf(vals, 0, n) <= n
    ensures Fold(AggAvg(f), vals, n) == Uint64(WindowFolds.CountOf(vals, 0, n)) + SumBytes(f, Uint64(0), NumbersFold(f, vals, n))
  {
    AvgOfHalves(f, vals, n);
    CountMeans(vals, n);
    SumFromMeans(f, Uint64(0), vals, n);
  }

  // ---------------------------------------------------------------- MIN and MAX

  // A length and that many bytes; length 0 for no value yet. wins compares two values' bytes.
  function CompareUpdate(wins: (Str, Str) -> bool): (Value, Str) -> Updated
  {
    (v: Value, agg: Str) =>
      if |agg| < 8 || 8 + FromLittleEndian(agg[..8]) > |agg| then Updated(agg, [], false)
      else
        var n := FromLittleEndian(agg[..8]);
        if !Valued(v) then Updated(agg[..8 + n], agg[8 + n..], false)
        else if n == 0 || wins(SlotBytes(v), agg[8..8 + n]) then Updated(Uint64(|SlotBytes(v)|) + SlotBytes(v), agg[8 + n..], true)
        else Updated(agg[..8 + n], agg[8 + n..], false)
  }

  predicate Prefixed(b: Str)
  {
    |b| >= 8 && FromLittleEndian(b[..8]) == |b| - 8
  }

  function AggCompare(wins: (Str, Str) -> bool): Agg
  {
    Agg(Uint64(0), CompareUpdate(wins), v => |SlotBytes(v)| < TWO64, (b, k) => Prefixed(b))
  }

  lemma PrefixedIs(t: Str)
    requires |t| < TWO64
    ensures Prefixed(Uint64(|t|) + t) && (Uint64(|t|) + t)[8..] == t
  {
    Uint64RoundTrip(|t|, t);
  }

  lemma CompareUpdateBehaves(wins: (Str, Str) -> bool, v: Value, a: Str, rest: Str, k: nat)
    requires |SlotBytes(v)| < TWO64 && Prefixed(a)
    ensures UpdateBehaves(AggCompare(wins), v, a, rest, k)
  {
    SplitAt(a, rest, 8);
    SplitAt(a, rest, |a|);
    assert (a + rest)[8..|a|] == a[8..];
    assert a[8..|a|] == a[8..] && a[..|a|] == a;
    PrefixedIs(SlotBytes(v));
  }

  lemma CompareBehaves(wins: (Str, Str) -> bool)
    ensures Behaves(AggCompare(wins))
  {
    PrefixedIs([]);
    assert Uint64(0) + [] == Uint64(0);
    forall v: Value, a: Str, rest: Str, k: nat | |SlotBytes(v)| < TWO64 && Prefixed(a) ensures UpdateBehaves(AggCompare(wins), v, a, rest, k) {
      CompareUpdateBehaves(wins, v, a, rest, k);
    }
  }

  // What of the best so far is stored: its length and its bytes.
  function BestBytes(acc: Value): Str
  {
    if acc.Missing? then Uint64(0) else Uint64(|SlotBytes(acc)|) + SlotBytes(acc)
  }

  // On these operands wins decides by their bytes as the collation does by their values: MAX prefers the
  // greater one, MIN the smaller.
  ghost predicate WinsByValue(isMax: bool, wins: (Str, Str) -> bool, vals: seq<Value>)
  {
    forall i, j {:trigger Collation.Compare(vals[i].j, vals[j].j)} :: 0 <= i < |vals| && 0 <= j < |vals| && vals[i].Val? && vals[j].Val? ==>
      (wins(SlotBytes(vals[i]), SlotBytes(vals[j])) <==>
       if isMax then Collation.Compare(vals[i].j, vals[j].j) > 0 else Collation.Compare(vals[i].j, vals[j].j) < 0)
  }

  // One update of the stored bytes.
  lemma {:induction false} BestStep(wins: (Str, Str) -> bool, v: Value, acc: Value)
    requires acc.Val? ==> 0 < |SlotBytes(acc)| < TWO64
    ensures CompareUpdate(wins)(v, BestBytes(acc)).bytes ==
            BestBytes(Winner(wins, v, acc))
  {
    if acc.Val? {
      LaterBest(wins, v, SlotBytes(acc));
    } else {
      FirstBest(wins, v);
    }
  }

  lemma {:induction false} LaterBest(wins: (Str, Str) -> bool, v: Value, t: Str)
    requires 0 < |t| < TWO64
    ensures CompareUpdate(wins)(v, Uint64(|t|) + t).bytes ==
            if Valued(v) && wins(SlotBytes(v), t) then Uint64(|SlotBytes(v)|) + SlotBytes(v) else Uint64(|t|) + t
  {
    var b := Uint64(|t|) + t;
    Uint64RoundTrip(|t|, t);
    assert b[8..8 + |t|] == t && b[..8 + |t|] == b;
  }

  lemma {:induction false} FirstBest(wins: (Str, Str) -> bool, v: Value)
    ensures CompareUpdate(wins)(v, Uint64(0)).bytes == if Valued(v) then Uint64(|SlotBytes(v)|) + SlotBytes(v) else Uint64(0)
  {
    Uint64RoundTrip(0, []);
    assert Uint64(0) + [] == Uint64(0);
    assert Uint64(0)[..8] == Uint64(0);
  }

  lemma {:induction false} BestIsOne(isMax: bool, vals: seq<Value>, n: nat)
    requires n <= |vals|
    ensures var best := WindowMinMax.BestOf(isMax, vals, 0, n); best.Val? ==> exists i :: 0 <= i < n && vals[i] == best
    decreases n
  {
    if n > 0 {
      BestIsOne(isMax, vals, n - 1);
      var best, was := WindowMinMax.BestOf(isMax, vals, 0, n), WindowMinMax.BestOf(isMax, vals, 0, n - 1);
      assert best == was || best == vals[n - 1];
    }
  }

  function Winner(wins: (Str, Str) -> bool, v: Value, acc: Value): Value
  {
    if !Valued(v) then acc else if acc.Missing? || wins(SlotBytes(v), SlotBytes(acc)) then v else acc
  }

  lemma {:induction false} NextBest(isMax: bool, wins: (Str, Str) -> bool, vals: seq<Value>, n: nat)
    requires WinsByValue(isMax, wins, vals) && n < |vals|
    ensures WindowMinMax.BestOf(isMax, vals, 0, n + 1) == Winner(wins, vals[n], WindowMinMax.BestOf(isMax, vals, 0, n))
  {
    var v, acc := vals[n], WindowMinMax.BestOf(isMax, vals, 0, n);
    assert WindowMinMax.BestOf(isMax, vals, 0, n + 1) == WindowMinMax.BestUpdate(isMax)(acc, v);
    BestIsOne(isMax, vals, n);
    if acc.Val? && v.Val? {
      var i :| 0 <= i < n && vals[i] == acc;
      assert Collation.Compare(vals[n].j, vals[i].j) == Collation.Compare(v.j, acc.j);
      assert WindowMinMax.Cmp(isMax, vals[n].j, vals[i].j) < 0 <==> wins(SlotBytes(v), SlotBytes(acc));
    }
  }

  // One more operand's update stores the next winner.
  lemma {:induction false} StoredStep(isMax: bool, wins: (Str, Str) -> bool, vals: seq<Value>, n: nat)
    requires WinsByValue(isMax, wins, vals) && n < |vals|
    requires forall i :: 0 <= i < |vals| && vals[i].Val? ==> 0 < |SlotBytes(vals[i])| < TWO64
    ensures CompareUpdate(wins)(vals[n], BestBytes(WindowMinMax.BestOf(isMax, vals, 0, n))).bytes
            == BestBytes(WindowMinMax.BestOf(isMax, vals, 0, n + 1))
  {
    BestIsOne(isMax, vals, n);
    NextBest(isMax, wins, vals, n);
    BestStep(wins, vals[n], WindowMinMax.BestOf(isMax, vals, 0, n));
  }

  // The stored bytes are those of the winner: MIN and MAX over the operands.
  lemma {:induction false} CompareMeans(isMax: bool, wins: (Str, Str) -> bool, vals: seq<Value>, n: nat)
    requires WinsByValue(isMax, wins, vals) && n <= |vals|
    requires forall i :: 0 <= i < |vals| && vals[i].Val? ==> 0 < |SlotBytes(vals[i])| < TWO64
    ensures Fold(AggCompare(wins), vals, n) == BestBytes(WindowMinMax.BestOf(isMax, vals, 0, n))
    decreases n
  {
    if n > 0 {
      CompareMeans(isMax, wins, vals, n - 1);
      StoredStep(isMax, wins, vals, n - 1);
    }
  }

  // What those bytes are in terms of the operands: a length of zero, or the length and bytes of one of them
  // that none of the others is above, or below for MIN.
  lemma {:induction false} CompareIsExtreme(isMax: bool, wins: (Str, Str) -> bool, vals: seq<Value>)
    requires WinsByValue(isMax, wins, vals) && WindowMinMax.Comparable(vals)
    requires forall i :: 0 <= i < |vals| && vals[i].Val? ==> 0 < |SlotBytes(vals[i])| < TWO64
    ensures var bytes := Fold(AggCompare(wins), vals, |vals|);
            if forall i :: 0 <= i < |vals| ==> vals[i].Missing? || vals[i].j.Null? then bytes == Uint64(0)
            else exists i :: 0 <= i < |vals| && bytes == Uint64(|SlotBytes(vals[i])|) + SlotBytes(vals[i]) && vals[i].Val? &&
                             WindowMinMax.IsExtreme(isMax, vals[i].j, vals, 0, |vals|)
  {
    CompareMeans(isMax, wins, vals, |vals|);
    WindowMinMax.BestIsExtreme(isMax, vals, 0, |vals|);
    BestIsOne(isMax, vals, |vals|);
  }

  // ---------------------------------------------------------------- COUNT(DISTINCT) and ARRAY_AGG

  // AggDistinctWalk: how many bytes n length-prefixed elements take.
  function Walk(b: Str, n: nat): nat
    decreases n
  {
    if n == 0 || |b| < 8 then 0
    else
      var l := FromLittleEndian(b[..8]);
      if l > |b| - 8 then 0 else 8 + l + Walk(b[8 + l..], n - 1)
  }

  // The source's loop keeps the offset instead of dropping what it walked over.
  method AggDistinctWalk(n: nat, b: Str) returns (total: nat)
    ensures total == Walk(b, n)
  {
    total := 0;
    assert b[0..] == b;
    for i: nat := 0 to n
      invariant total <= |b| && total + Walk(b[total..], n - i) == Walk(b, n)
    {
      if |b| - total < 8 || FromLittleEndian(b[total..total + 8]) > |b| - total - 8 {
        assert |b| - total >= 8 ==> b[total..][..8] == b[total..total + 8];
        return;
      }
      var l := FromLittleEndian(b[total..total + 8]);
      assert b[total..][..8] == b[total..total + 8];
      assert b[total..][8 + l..] == b[total + 8 + l..];
      total := total + 8 + l;
    }
  }

  lemma HeadElement(e: Str, tail: Str)
    requires |e| < TWO64
    ensures var b := Uint64(|e|) + (e + tail);
            FromLittleEndian(b[..8]) == |e| && b[8..8 + |e|] == e && b[8 + |e|..] == tail
  {
    Uint64RoundTrip(|e|, e + tail);
    assert (e + tail)[..|e|] == e && (e + tail)[|e|..] == tail;
  }

  lemma StepOver(e: Str, tail: Str, n: nat)
    requires |e| < TWO64
    ensures Walk(Uint64(|e|) + (e + tail), n + 1) == 8 + |e| + Walk(tail, n)
    ensures DecodeEach(Uint64(|e|) + (e + tail), n + 1) == [e] + DecodeEach(tail, n)
  {
    HeadElement(e, tail);
  }

  lemma EncodeEachHead(els: seq<Str>, rest: Str)
    requires els != []
    ensures EncodeEach(els) + rest == Uint64(|els[0]|) + (els[0] + (EncodeEach(els[1..]) + rest))
  {
  }

  lemma {:induction false} WalksList(els: seq<Str>, rest: Str)
    requires Encodable(els)
    ensures Walk(EncodeEach(els) + rest, |els|) == |EncodeEach(els)|
    decreases |els|
  {
    if els != [] {
      EncodeEachHead(els, rest);
      StepOver(els[0], EncodeEach(els[1..]) + rest, |els| - 1);
      WalksList(els[1..], rest);
    }
  }

  lemma {:induction false} DecodesList(els: seq<Str>, rest: Str)
    requires Encodable(els)
    ensures DecodeEach(EncodeEach(els) + rest, |els|) == els
    decreases |els|
  {
    if els != [] {
      var e, tail, n: nat := els[0], EncodeEach(els[1..]) + rest, |els| - 1;
      DecodesList(els[1..], rest);
      calc {
        DecodeEach(EncodeEach(els) + rest, |els|);
        { EncodeEachHead(els, rest); }
        DecodeEach(Uint64(|e|) + (e + tail), n + 1);
        { StepOver(e, tail, n); }
        [e] + DecodeEach(tail, n);
        els;
      }
    }
  }

  // What a list-shaped accumulator adds for an operand, if anything.
  datatype Added = Nothing | Element(bytes: Str)

  // AggDistinctUpdate and AggArrayAgg's update: walk the list; append an element, or leave the list alone.
  function ListUpdate(element: (Value, seq<Str>) -> Added): (Value, Str) -> Updated
  {
    (v: Value, agg: Str) =>
      if |agg| < 8 then Updated(agg, [], false)
      else
        var n := FromLittleEndian(agg[..8]);
        var total := Walk(agg[8..], n);
        if 8 + total > |agg| then Updated(agg, [], false)
        else
          var e := element(v, DecodeEach(agg[8..], n));
          if e.Nothing? then Updated(agg[..8 + total], agg[8 + total..], false)
          else Updated(Uint64(n + 1) + agg[8..8 + total] + Uint64(|e.bytes|) + e.bytes, agg[8 + total..], true)
  }

  predicate ListState(b: Str, k: nat)
  {
    Encode(Decode(b)) == b && |Decode(b)| <= k && forall i :: 0 <= i < |Decode(b)| ==> |Decode(b)[i]| < TWO64
  }

  function AggList(element: (Value, seq<Str>) -> Added, takes: Value -> bool): Agg
  {
    Agg(Uint64(0), ListUpdate(element), takes, (b: Str, k: nat) => ListState(b, k))
  }

  // Elements fit their length prefix.
  ghost predicate ElementsFit(element: (Value, seq<Str>) -> Added, takes: Value -> bool)
  {
    forall v: Value, els: seq<Str> :: takes(v) && element(v, els).Element? ==> |element(v, els).bytes| < TWO64
  }

  function Listed(els: seq<Str>, e: Added): seq<Str>
  {
    if e.Nothing? then els else els + [e.bytes]
  }

  lemma {:induction false} EncodeEachAppends(els: seq<Str>, e: Str)
    ensures EncodeEach(els + [e]) == EncodeEach(els) + (Uint64(|e|) + e)
    decreases |els|
  {
    if els == [] {
      assert [] + [e] == [e] && [e][1..] == [];
      assert EncodeEach([e]) == Uint64(|e|) + e + EncodeEach([]);
    } else {
      assert (els + [e])[1..] == els[1..] + [e];
      EncodeEachAppends(els[1..], e);
      var head := Uint64(|els[0]|) + els[0];
      assert EncodeEach(els + [e]) == head + (EncodeEach(els[1..]) + (Uint64(|e|) + e));
    }
  }

  lemma {:induction false} EncodeAppends(els: seq<Str>, e: Str)
    ensures Encode(els + [e]) == Uint64(|els| + 1) + EncodeEach(els) + Uint64(|e|) + e
  {
    EncodeEachAppends(els, e);
    assert Uint64(|els| + 1) + EncodeEach(els) + Uint64(|e|) + e == Uint64(|els| + 1) + (EncodeEach(els) + (Uint64(|e|) + e));
  }

  lemma {:induction false} ListParts(els: seq<Str>, rest: Str)
    requires Encodable(els)
    ensures var agg, t := Encode(els) + rest, |EncodeEach(els)|;
            && 8 + t <= |agg| && FromLittleEndian(agg[..8]) == |els|
            && Walk(agg[8..], |els|) == t && DecodeEach(agg[8..], |els|) == els
            && agg[..8 + t] == Encode(els) && agg[8 + t..] == rest && agg[8..8 + t] == EncodeEach(els)
  {
    var agg, body := Encode(els) + rest, EncodeEach(els);
    assert agg == Uint64(|els|) + (body + rest);
    Uint64RoundTrip(|els|, body + rest);
    WalksList(els, rest);
    DecodesList(els, rest);
    assert agg[8..] == body + rest;
  }

  // One update of a list that may have anything behind it.
  lemma {:induction false} ListUpdates(element: (Value, seq<Str>) -> Added, v: Value, els: seq<Str>, rest: Str)
    requires Encodable(els) && |els| + 1 < TWO64
    ensures ListUpdate(element)(v, Encode(els) + rest) == Updated(Encode(Listed(els, element(v, els))), rest, element(v, els).Element?)
  {
    ListParts(els, rest);
    if element(v, els).Element? {
      EncodeAppends(els, element(v, els).bytes);
    }
  }

  lemma {:induction false} ListUpdateBehaves(element: (Value, seq<Str>) -> Added, takes: Value -> bool, v: Value, a: Str, rest: Str, k: nat)
    requires ElementsFit(element, takes) && takes(v) && ListState(a, k) && k + 1 < TWO64
    ensures UpdateBehaves(AggList(element, takes), v, a, rest, k)
  {
    var els := Decode(a);
    ListUpdates(element, v, els, rest);
    ListUpdates(element, v, els, []);
    assert a + [] == a;
    DecodeInverts(Listed(els, element(v, els)));
  }

  lemma {:induction false} ListBehaves(element: (Value, seq<Str>) -> Added, takes: Value -> bool)
    requires ElementsFit(element, takes)
    ensures Behaves(AggList(element, takes))
  {
    DecodeInverts([]);
    assert Encode([]) == Uint64(0) + [];
    forall v: Value, a: Str, rest: Str, k: nat | k + 1 < TWO64 && takes(v) && ListState(a, k)
      ensures UpdateBehaves(AggList(element, takes), v, a, rest, k)
    {
      ListUpdateBehaves(element, takes, v, a, rest, k);
    }
  }

  // The list that a fold builds.
  function Collected(element: (Value, seq<Str>) -> Added, vals: seq<Value>, n: nat): (els: seq<Str>)
    requires n <= |vals|
    ensures |els| <= n
  {
    if n == 0 then [] else Listed(Collected(element, vals, n - 1), element(vals[n - 1], Collected(element, vals, n - 1)))
  }

  lemma {:induction false} ListMeans(element: (Value, seq<Str>) -> Added, takes: Value -> bool, vals: seq<Value>, n: nat)
    requires ElementsFit(element, takes) && n <= |vals| < TWO64 && forall i :: 0 <= i < |vals| ==> takes(vals[i])
    ensures Encodable(Collected(element, vals, n)) && Fold(AggList(element, takes), vals, n) == Encode(Collected(element, vals, n))
    decreases n
  {
    if n == 0 {
      assert Encode([]) == Uint64(0) + [];
    } else {
      ListMeans(element, takes, vals, n - 1);
      var els := Collected(element, vals, n - 1);
      ListUpdates(element, vals[n - 1], els, []);
      assert Encode(els) + [] == Encode(els);
    }
  }

  // ARRAY_AGG keeps every value but MISSING; DISTINCT aggregates keep each canonical form once.
  function ArrayElement(v: Value, els: seq<Str>): Added
  {
    if v.Missing? then Nothing else Element(SlotBytes(v))
  }

  function DistinctElement(canon: Json -> Str): (Value, seq<Str>) -> Added
  {
    (v: Value, els: seq<Str>) => if v.Missing? || canon(v.j) in els then Nothing else Element(canon(v.j))
  }

  // What a DISTINCT fold collects: each canonical form among the operands, exactly once.
  lemma {:induction false} DistinctOnce(canon: Json -> Str, vals: seq<Value>, n: nat, i: nat, j: nat)
    requires n <= |vals| && i < j < |Collected(DistinctElement(canon), vals, n)|
    ensures Collected(DistinctElement(canon), vals, n)[i] != Collected(DistinctElement(canon), vals, n)[j]
    decreases n
  {
    var was := Collected(DistinctElement(canon), vals, n - 1);
    if j < |was| {
      DistinctOnce(canon, vals, n - 1, i, j);
    } else {
      assert was[i] in was;
    }
  }

  lemma {:induction false} DistinctHolds(canon: Json -> Str, vals: seq<Value>, n: nat, t: Str)
    requires n <= |vals|
    ensures t in Collected(DistinctElement(canon), vals, n) <==> exists i :: 0 <= i < n && vals[i].Val? && canon(vals[i].j) == t
    decreases n
  {
    if n > 0 {
      DistinctHolds(canon, vals, n - 1, t);
      var was, v := Collected(DistinctElement(canon), vals, n - 1), vals[n - 1];
      var e := DistinctElement(canon)(v, was);
      assert Collected(DistinctElement(canon), vals, n) == Listed(was, e);
      assert t in Listed(was, e) <==> t in was || (e.Element? && e.bytes == t);
      if v.Val? && canon(v.j) == t {
        assert 0 <= n - 1 < n && vals[n - 1].Val? && canon(vals[n - 1].j) == t;
      }
    }
  }

  function Slots(vals: seq<Value>): (r: seq<Str>)
    ensures |r| == |vals| && forall i :: 0 <= i < |vals| ==> r[i] == SlotBytes(vals[i])
  {
    seq(|vals|, i requires 0 <= i < |vals| => SlotBytes(vals[i]))
  }

  // What ARRAY_AGG collects: the operands' own bytes in order.
  lemma {:induction false} ArrayMeans(vals: seq<Value>, n: nat)
    requires n <= |vals| && forall i :: 0 <= i < n ==> vals[i].Val?
    ensures Collected(ArrayElement, vals, n) == Slots(vals[..n])
    decreases n
  {
    if n > 0 {
      ArrayMeans(vals, n - 1);
      assert Slots(vals[..n]) == Slots(vals[..n - 1]) + [SlotBytes(vals[n - 1])];
    }
  }
}
