// base/agg_window.go, base/agg.go: MIN/MAX over a sliding frame by a monotonic deque.
module WindowMinMax {
  import opened Json
  import opened Expr
  import Collation
  import opened WindowFrames
  import opened WindowFolds

  // Negative when x wins over y.
  function Cmp(isMax: bool, x: Json, y: Json): int
  {
    if isMax then -Collation.Compare(x, y) else Collation.Compare(x, y)
  }

  // AggCompareUpdate; the accumulator is Missing until a value is seen.
  function BestUpdate(isMax: bool): (Value, Value) -> Value
  {
    (acc: Value, v: Value) =>
      if !Valued(v) then acc
      else if acc.Missing? || Cmp(isMax, v.j, acc.j) < 0 then v
      else acc
  }

  function BestOf(isMax: bool, vals: seq<Value>, beg: nat, end: nat): Value
    requires beg <= end <= |vals|
  {
    Fold(BestUpdate(isMax), Missing, vals, beg, end)
  }

  ghost predicate Comparable(vals: seq<Value>)
  {
    forall i :: 0 <= i < |vals| && vals[i].Val? ==> Collation.UniqueNames(vals[i].j)
  }

  lemma CmpReverses(isMax: bool, x: Json, y: Json)
    requires Collation.UniqueNames(x) && Collation.UniqueNames(y)
    ensures Cmp(isMax, y, x) == -Cmp(isMax, x, y)
  {
    Collation.CompareReverses(x, y);
  }

  lemma CmpTransitive(isMax: bool, x: Json, y: Json, z: Json)
    requires Collation.UniqueNames(x) && Collation.UniqueNames(y) && Collation.UniqueNames(z)
    requires Cmp(isMax, x, y) <= 0 && Cmp(isMax, y, z) <= 0
    ensures Cmp(isMax, x, z) <= 0
    ensures Cmp(isMax, x, y) < 0 || Cmp(isMax, y, z) < 0 ==> Cmp(isMax, x, z) < 0
  {
    if isMax {
      Collation.CompareReverses(x, y);
      Collation.CompareReverses(y, z);
      Collation.CompareReverses(x, z);
      Collation.CompareTransitive(z, y, x);
    } else {
      Collation.CompareTransitive(x, y, z);
    }
  }

  // Row r's value does not win over x.
  ghost predicate Beats(isMax: bool, x: Json, vals: seq<Value>, r: int)
    requires 0 <= r < |vals|
  {
    Valued(vals[r]) ==> Cmp(isMax, x, vals[r].j) <= 0
  }

  // x is the value of one of the rows [beg, end), and beats them all.
  ghost predicate IsBest(isMax: bool, x: Json, vals: seq<Value>, beg: nat, end: nat)
    requires beg <= end <= |vals|
  {
    && (exists r :: beg <= r < end && vals[r] == Val(x) && Valued(vals[r]))
    && (forall r :: beg <= r < end ==> Beats(isMax, x, vals, r))
  }

  // What the fresh fold computes.
  lemma {:induction false} FoldIsBest(isMax: bool, vals: seq<Value>, beg: nat, end: nat)
    requires beg <= end <= |vals| && Comparable(vals)
    ensures var best := BestOf(isMax, vals, beg, end);
            if best.Missing? then forall r :: beg <= r < end ==> !Valued(vals[r]) else IsBest(isMax, best.j, vals, beg, end)
    decreases end
  {
    if beg < end {
      FoldIsBest(isMax, vals, beg, end - 1);
      BestMoves(isMax, vals, beg, end - 1, BestOf(isMax, vals, beg, end - 1));
    }
  }

  lemma {:induction false} BestMoves(isMax: bool, vals: seq<Value>, beg: nat, end: nat, acc: Value)
    requires beg <= end < |vals| && Comparable(vals)
    requires if acc.Missing? then forall r :: beg <= r < end ==> !Valued(vals[r]) else IsBest(isMax, acc.j, vals, beg, end)
    ensures var best := BestUpdate(isMax)(acc, vals[end]);
            if best.Missing? then forall r :: beg <= r < end + 1 ==> !Valued(vals[r]) else IsBest(isMax, best.j, vals, beg, end + 1)
  {
    var v := vals[end];
    if Valued(v) {
      CmpReverses(isMax, v.j, v.j);
      if acc.Val? {
        CmpReverses(isMax, v.j, acc.j);
        if Cmp(isMax, v.j, acc.j) < 0 {
          forall r | beg <= r < end ensures Beats(isMax, v.j, vals, r) {
            if Valued(vals[r]) {
              assert Beats(isMax, acc.j, vals, r);
              CmpTransitive(isMax, v.j, acc.j, vals[r].j);
            }
          }
        }
      }
    }
  }

  // x is one of the rows' values, and none of them is above it, or below it for MIN.
  ghost predicate IsExtreme(isMax: bool, x: Json, vals: seq<Value>, beg: nat, end: nat)
    requires beg <= end <= |vals|
  {
    && x != Null && (exists r :: beg <= r < end && vals[r] == Val(x))
    && forall r :: beg <= r < end && vals[r].Val? && vals[r].j != Null ==>
         if isMax then Collation.Compare(x, vals[r].j) >= 0 else Collation.Compare(x, vals[r].j) <= 0
  }

  lemma {:induction false} BestIsExtreme(isMax: bool, vals: seq<Value>, beg: nat, end: nat)
    requires beg <= end <= |vals| && Comparable(vals)
    ensures var best := BestOf(isMax, vals, beg, end);
            if best.Missing? then forall r :: beg <= r < end ==> vals[r].Missing? || vals[r].j.Null?
            else IsExtreme(isMax, best.j, vals, beg, end)
  {
    FoldIsBest(isMax, vals, beg, end);
    var best := BestOf(isMax, vals, beg, end);
    if best.Val? {
      WinnerIsExtreme(isMax, best.j, vals, beg, end);
    }
  }

  lemma {:induction false} WinnerIsExtreme(isMax: bool, x: Json, vals: seq<Value>, beg: nat, end: nat)
    requires beg <= end <= |vals| && IsBest(isMax, x, vals, beg, end)
    ensures IsExtreme(isMax, x, vals, beg, end)
  {
    forall r | beg <= r < end && vals[r].Val? && vals[r].j != Null
      ensures if isMax then Collation.Compare(x, vals[r].j) >= 0 else Collation.Compare(x, vals[r].j) <= 0
    {
      assert Beats(isMax, x, vals, r);
    }
  }

  // Any two winners compare equal.
  lemma {:induction false} BestsAreEqual(isMax: bool, x: Json, y: Json, vals: seq<Value>, beg: nat, end: nat)
    requires beg <= end <= |vals| && Comparable(vals)
    requires IsBest(isMax, x, vals, beg, end) && IsBest(isMax, y, vals, beg, end)
    ensures Collation.Compare(x, y) == 0
  {
    var r :| beg <= r < end && vals[r] == Val(x);
    var s :| beg <= s < end && vals[s] == Val(y);
    assert Beats(isMax, x, vals, s) && Beats(isMax, y, vals, r);
    CmpReverses(isMax, x, y);
  }

  // ---------------------------------------------------------------- the deque, as values

  datatype Entry = Entry(idx: int, val: Json)

  // Each entry is a row of the frame, and strictly beats the ones behind it.
  ghost predicate Monotonic(isMax: bool, d: seq<Entry>, vals: seq<Value>, beg: nat, end: nat)
    requires beg <= end <= |vals|
  {
    && (forall a :: 0 <= a < |d| ==> EntryOk(d[a], vals, beg, end))
    && (forall a, b :: 0 <= a < b < |d| ==> d[a].idx < d[b].idx && Cmp(isMax, d[a].val, d[b].val) < 0)
  }

  ghost predicate EntryOk(e: Entry, vals: seq<Value>, beg: nat, end: nat)
    requires beg <= end <= |vals|
  {
    beg <= e.idx < end && Valued(vals[e.idx]) && vals[e.idx] == Val(e.val)
  }

  // Row r is no better than an entry that lasts at least as long.
  ghost predicate Covered(isMax: bool, d: seq<Entry>, vals: seq<Value>, r: int)
    requires 0 <= r < |vals|
  {
    Valued(vals[r]) ==> exists a :: 0 <= a < |d| && r <= d[a].idx && Cmp(isMax, d[a].val, vals[r].j) <= 0
  }

  ghost predicate Covers(isMax: bool, d: seq<Entry>, vals: seq<Value>, beg: nat, end: nat)
    requires beg <= end <= |vals|
  {
    forall r :: beg <= r < end ==> Covered(isMax, d, vals, r)
  }

  ghost predicate DequeOk(isMax: bool, d: seq<Entry>, vals: seq<Value>, beg: nat, end: nat)
    requires beg <= end <= |vals|
  {
    Monotonic(isMax, d, vals, beg, end) && Covers(isMax, d, vals, beg, end)
  }

  // The front is the frame's winner; there is none exactly when the frame has no value.
  lemma {:induction false} FrontIsBest(isMax: bool, d: seq<Entry>, vals: seq<Value>, beg: nat, end: nat)
    requires beg <= end <= |vals| && Comparable(vals) && DequeOk(isMax, d, vals, beg, end)
    ensures if d == [] then forall r :: beg <= r < end ==> !Valued(vals[r]) else IsBest(isMax, d[0].val, vals, beg, end)
  {
    if d == [] {
      forall r | beg <= r < end ensures !Valued(vals[r]) {
        assert Covered(isMax, d, vals, r);
      }
    } else {
      assert EntryOk(d[0], vals, beg, end);
      forall r | beg <= r < end ensures Beats(isMax, d[0].val, vals, r) {
        FrontBeats(isMax, d, vals, beg, end, r);
      }
    }
  }

  lemma {:induction false} FrontBeats(isMax: bool, d: seq<Entry>, vals: seq<Value>, beg: nat, end: nat, r: int)
    requires beg <= r < end <= |vals| && Comparable(vals) && Monotonic(isMax, d, vals, beg, end) && d != []
    requires Covered(isMax, d, vals, r)
    ensures Beats(isMax, d[0].val, vals, r)
  {
    if Valued(vals[r]) {
      var a :| 0 <= a < |d| && r <= d[a].idx && Cmp(isMax, d[a].val, vals[r].j) <= 0;
      if a > 0 {
        assert EntryOk(d[0], vals, beg, end) && EntryOk(d[a], vals, beg, end);
        CmpTransitive(isMax, d[0].val, d[a].val, vals[r].j);
      }
    }
  }

  // The deque's front and the fresh fold agree: equal under the collation, NULL together.
  lemma {:induction false} DequeIsFold(isMax: bool, d: seq<Entry>, vals: seq<Value>, beg: nat, end: nat)
    requires beg <= end <= |vals| && Comparable(vals) && DequeOk(isMax, d, vals, beg, end)
    ensures d == [] <==> BestOf(isMax, vals, beg, end).Missing?
    ensures d != [] ==> Collation.Compare(d[0].val, BestOf(isMax, vals, beg, end).j) == 0
  {
    FoldIsBest(isMax, vals, beg, end);
    FrontIsBest(isMax, d, vals, beg, end);
    if d != [] && BestOf(isMax, vals, beg, end).Val? {
      BestsAreEqual(isMax, d[0].val, BestOf(isMax, vals, beg, end).j, vals, beg, end);
    }
  }

  // ---------------------------------------------------------------- entering and expiring

  // What still wins over a newcomer v.
  function Dominates(isMax: bool, v: Json): Json -> bool
  {
    (x: Json) => var cmp := Collation.Compare(x, v); (isMax && cmp > 0) || (!isMax && cmp < 0)
  }

  // How many of the first n entries are left once those at the back that do not win have been popped.
  function Kept(wins: Json -> bool, d: seq<Entry>, n: nat): (k: nat)
    requires n <= |d|
    ensures k <= n && (forall a :: k <= a < n ==> !wins(d[a].val))
    ensures k > 0 ==> wins(d[k - 1].val)
  {
    if n == 0 || wins(d[n - 1].val) then n else Kept(wins, d, n - 1)
  }

  // SlideMinMaxEnter; NULL and MISSING never enter.
  function Entered(isMax: bool, d: seq<Entry>, idx: int, v: Value): seq<Entry>
  {
    if Valued(v) then d[..Kept(Dominates(isMax, v.j), d, |d|)] + [Entry(idx, v.j)] else d
  }

  // What is before an entry that beats v beats it too.
  lemma {:induction false} KeptBeats(isMax: bool, d: seq<Entry>, vals: seq<Value>, beg: nat, end: nat, v: Json, a: int, last: int)
    requires beg <= end <= |vals| && Comparable(vals) && Monotonic(isMax, d, vals, beg, end) && Collation.UniqueNames(v)
    requires 0 <= a <= last < |d| && Cmp(isMax, d[last].val, v) < 0
    ensures Cmp(isMax, d[a].val, v) < 0
  {
    if a < last {
      assert EntryOk(d[a], vals, beg, end) && EntryOk(d[last], vals, beg, end);
      assert Cmp(isMax, d[a].val, d[last].val) < 0;
      CmpTransitive(isMax, d[a].val, d[last].val, v);
    }
  }

  lemma {:induction false} MonotonicExtends(isMax: bool, kept: seq<Entry>, vals: seq<Value>, beg: nat, end: nat)
    requires beg <= end < |vals| && Monotonic(isMax, kept, vals, beg, end) && Valued(vals[end])
    requires forall a :: 0 <= a < |kept| ==> Cmp(isMax, kept[a].val, vals[end].j) < 0
    ensures Monotonic(isMax, kept + [Entry(end, vals[end].j)], vals, beg, end + 1)
  {
    forall a | 0 <= a < |kept| ensures EntryOk(kept[a], vals, beg, end + 1) {
      assert EntryOk(kept[a], vals, beg, end);
    }
  }

  lemma {:induction false} EnterKeepsMonotonic(isMax: bool, d: seq<Entry>, vals: seq<Value>, beg: nat, end: nat, k: nat)
    requires beg <= end < |vals| && Comparable(vals) && Monotonic(isMax, d, vals, beg, end) && Valued(vals[end])
    requires k <= |d| && (k > 0 ==> Cmp(isMax, d[k - 1].val, vals[end].j) < 0)
    ensures Monotonic(isMax, d[..k] + [Entry(end, vals[end].j)], vals, beg, end + 1)
  {
    forall a | 0 <= a < k ensures Cmp(isMax, d[a].val, vals[end].j) < 0 {
      KeptBeats(isMax, d, vals, beg, end, vals[end].j, a, k - 1);
    }
    MonotonicExtends(isMax, d[..k], vals, beg, end);
  }

  lemma {:induction false} EnterKeepsCovered(isMax: bool, d: seq<Entry>, vals: seq<Value>, beg: nat, end: nat, k: nat, r: int)
    requires beg <= r <= end < |vals| && Comparable(vals) && Monotonic(isMax, d, vals, beg, end) && Valued(vals[end])
    requires k <= |d| && forall a :: k <= a < |d| ==> Cmp(isMax, d[a].val, vals[end].j) >= 0
    requires r < end ==> Covered(isMax, d, vals, r)
    ensures Covered(isMax, d[..k] + [Entry(end, vals[end].j)], vals, r)
  {
    var v := vals[end].j;
    var d' := d[..k] + [Entry(end, v)];
    if Valued(vals[r]) {
      if r == end {
        CmpReverses(isMax, v, v);
        assert r <= d'[k].idx && Cmp(isMax, d'[k].val, vals[r].j) <= 0;
      } else {
        var a :| 0 <= a < |d| && r <= d[a].idx && Cmp(isMax, d[a].val, vals[r].j) <= 0;
        assert EntryOk(d[a], vals, beg, end);
        if a < k {
          assert d'[a] == d[a];
        } else {
          CmpReverses(isMax, d[a].val, v);
          CmpTransitive(isMax, v, d[a].val, vals[r].j);
          assert r <= d'[k].idx && Cmp(isMax, d'[k].val, vals[r].j) <= 0;
        }
      }
    }
  }

  lemma {:induction false} EnterKeepsDeque(isMax: bool, d: seq<Entry>, vals: seq<Value>, beg: nat, end: nat)
    requires beg <= end < |vals| && Comparable(vals) && DequeOk(isMax, d, vals, beg, end)
    ensures DequeOk(isMax, Entered(isMax, d, end, vals[end]), vals, beg, end + 1)
  {
    if Valued(vals[end]) {
      var k := Kept(Dominates(isMax, vals[end].j), d, |d|);
      EnterKeepsMonotonic(isMax, d, vals, beg, end, k);
      forall r | beg <= r < end + 1 ensures Covered(isMax, d[..k] + [Entry(end, vals[end].j)], vals, r) {
        EnterKeepsCovered(isMax, d, vals, beg, end, k, r);
      }
    } else {
      forall a | 0 <= a < |d| ensures EntryOk(d[a], vals, beg, end + 1) {
        assert EntryOk(d[a], vals, beg, end);
      }
    }
  }

  // What is before the new beginning is a prefix; dropping it leaves the rest covered.
  lemma {:induction false} ExpireKeepsDeque(isMax: bool, d: seq<Entry>, vals: seq<Value>, beg: nat, end: nat, beg': nat, k: nat)
    requires beg <= beg' <= end <= |vals| && DequeOk(isMax, d, vals, beg, end) && k <= |d|
    requires forall a :: 0 <= a < k ==> d[a].idx < beg'
    requires k < |d| ==> beg' <= d[k].idx
    ensures DequeOk(isMax, d[k..], vals, beg', end)
  {
    forall a | 0 <= a < |d[k..]| ensures EntryOk(d[k..][a], vals, beg', end) {
      assert EntryOk(d[k + a], vals, beg, end);
    }
    forall r | beg' <= r < end ensures Covered(isMax, d[k..], vals, r) {
      assert Covered(isMax, d, vals, r);
      if Valued(vals[r]) {
        var a :| 0 <= a < |d| && r <= d[a].idx && Cmp(isMax, d[a].val, vals[r].j) <= 0;
        assert d[k..][a - k] == d[a];
      }
    }
  }
}
