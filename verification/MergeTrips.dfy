// engine/op_merge_scan.go: the order in which the frontier takes the children's rows, and the watermarks that
// it brings, as a definition of its own.
module MergeTrips {
  import opened MergeHeaps
  import opened MergeRows
  import opened MergeScan
  import opened MergeReorder

  // The cursors before each row and at the end, the rows in the order taken, and the watermark after each.
  datatype Trip<V> = Trip(path: seq<seq<nat>>, order: seq<Rec<V>>, marks: seq<Key>)
  {
    function At(): seq<nat>
      requires path != []
    {
      path[|path| - 1]
    }

    function Further(pos: seq<nat>, r: Rec<V>, m: Key): Trip<V>
    {
      Trip(path + [pos], order + [r], marks + [m])
    }
  }

  // No live head is below child c's.
  ghost predicate Least<V>(keyed: seq<seq<Rec<V>>>, pos: seq<nat>, c: nat)
  {
    Live(keyed, pos, c) && forall d: nat :: Live(keyed, pos, d) ==> keyed[c][pos[c]].key <= keyed[d][pos[d]].key
  }

  ghost predicate AllTaken<V>(keyed: seq<seq<Rec<V>>>, pos: seq<nat>)
  {
    forall c: nat :: !Live(keyed, pos, c)
  }

  // The least live head less the bound, or +inf.
  ghost predicate IsMark<V>(keyed: seq<seq<Rec<V>>>, pos: seq<nat>, bound: Key, m: Key)
  {
    if AllTaken(keyed, pos) then m == MAX_INT64
    else exists c: nat :: Least(keyed, pos, c) && m == Watermark(keyed[c][pos[c]].key, bound)
  }

  ghost predicate Takes<V>(keyed: seq<seq<Rec<V>>>, pos: seq<nat>, pos': seq<nat>, r: Rec<V>)
  {
    exists c: nat :: Least(keyed, pos, c) && r == keyed[c][pos[c]] && pos' == pos[c := pos[c] + 1]
  }

  ghost predicate TripStep<V>(keyed: seq<seq<Rec<V>>>, bound: Key, t: Trip<V>, l: nat)
    requires |t.path| == |t.order| + 1 == |t.marks| + 1 && l < |t.order|
  {
    Takes(keyed, t.path[l], t.path[l + 1], t.order[l]) && IsMark(keyed, t.path[l + 1], bound, t.marks[l])
  }

  // Always a least head next.
  ghost predicate Greedy<V>(keyed: seq<seq<Rec<V>>>, bound: Key, t: Trip<V>)
  {
    && |t.path| == |t.order| + 1 == |t.marks| + 1
    && |t.path[0]| == |keyed| && (forall c :: 0 <= c < |keyed| ==> t.path[0][c] == 0)
    && Cursors(keyed, t.At())
    && forall l: nat :: l < |t.order| ==> TripStep(keyed, bound, t, l)
  }

  ghost predicate NoneLate<V>(t: Trip<V>)
  {
    NeverLate(t.order, t.marks, |t.order|)
  }

  lemma {:induction false} GreedyNext<V>(keyed: seq<seq<Rec<V>>>, bound: Key, t: Trip<V>, c: nat, m: Key)
    requires Greedy(keyed, bound, t) && Least(keyed, t.At(), c)
    requires IsMark(keyed, t.At()[c := t.At()[c] + 1], bound, m)
    ensures Greedy(keyed, bound, t.Further(t.At()[c := t.At()[c] + 1], keyed[c][t.At()[c]], m))
  {
    var pos, r := t.At(), keyed[c][t.At()[c]];
    var pos' := pos[c := pos[c] + 1];
    var t' := t.Further(pos', r, m);
    forall l: nat | l < |t'.order| ensures TripStep(keyed, bound, t', l) {
      if l < |t.order| {
        EarlierStep(keyed, bound, t, pos', r, m, l);
      } else {
        assert t'.path[l] == pos && t'.path[l + 1] == pos';
        assert Takes(keyed, pos, pos', r);
      }
    }
  }

  lemma {:induction false} EarlierStep<V>(keyed: seq<seq<Rec<V>>>, bound: Key, t: Trip<V>, pos: seq<nat>, r: Rec<V>, m: Key, l: nat)
    requires Greedy(keyed, bound, t) && l < |t.order|
    ensures TripStep(keyed, bound, t.Further(pos, r, m), l)
  {
    var t' := t.Further(pos, r, m);
    assert TripStep(keyed, bound, t, l);
    assert t'.path[l] == t.path[l] && t'.path[l + 1] == t.path[l + 1] && t'.order[l] == t.order[l] && t'.marks[l] == t.marks[l];
  }

  // A late row stays late as the trip goes on.
  lemma {:induction false} LateStays<V>(t: Trip<V>, pos: seq<nat>, r: Rec<V>, m: Key)
    requires |t.order| == |t.marks| && !NoneLate(t)
    ensures !NoneLate(t.Further(pos, r, m))
  {
    var t' := t.Further(pos, r, m);
    var j: nat :| j < |t.order| && LateAt(t.order, t.marks, j);
    var i: nat, l: nat :| LateBy(t.order, t.marks, i, l, j);
    assert LateBy(t'.order, t'.marks, i, l, j);
    assert LateAt(t'.order, t'.marks, j);
  }

  // While nothing was late, the next row is exactly if it is below the last key yielded.
  lemma {:induction false} NextIsLate<V>(t: Trip<V>, pos: seq<nat>, r: Rec<V>, m: Key, out: seq<Rec<V>>)
    requires |t.order| == |t.marks| && NoneLate(t) && Explained(out, t.order, t.marks)
    ensures NoneLate(t.Further(pos, r, m)) <==> !(|out| > 0 && r.key < out[|out| - 1].key)
  {
    var t', n := t.Further(pos, r, m), |t.order|;
    assert t'.order[..n] == t.order && t'.marks[..n] == t.marks;
    LateSoFar(t'.order, t'.marks, n);
    LateIsBelowLast(out, t.order, t.marks, r.key);
    forall j: nat | j < n ensures !LateAt(t'.order, t'.marks, j) {
      if LateAt(t'.order, t'.marks, j) {
        var i: nat, l: nat :| LateBy(t'.order, t'.marks, i, l, j);
        assert LateBy(t.order, t.marks, i, l, j);
        assert LateAt(t.order, t.marks, j);
      }
    }
  }

  // ---------------------------------------------------------------- what the loop does along a trip

  // Row l enters, and the buffer is drained to the mark that the next head brings under the bound in effect.
  ghost predicate KwayStep<V>(keyed: seq<seq<Rec<V>>>, t: Trip<V>, log: Log<V>, l: nat)
    requires l < |log.mid| == |log.marks| && |log.at| == |log.mid| + 1 && |log.mid| <= |t.order| < |t.path|
  {
    && Admits(log.at[l], t.order[l], log.mid[l])
    && IsMark(keyed, t.path[l + 1], log.mid[l].bound, log.marks[l])
    && Drains(t.order[..l + 1], log.mid[l], log.marks[l], log.at[l + 1])
  }

  ghost predicate KwayLog<V>(keyed: seq<seq<Rec<V>>>, bound: Key, t: Trip<V>, log: Log<V>)
  {
    && |log.at| == |log.mid| + 1 && |log.mid| == |log.marks| == |t.order| < |t.path|
    && log.at[0] == Stand(bound, [], 0)
    && forall l: nat :: l < |log.mid| ==> KwayStep(keyed, t, log, l)
  }

  lemma {:induction false} KwayStepStays<V>(keyed: seq<seq<Rec<V>>>, t: Trip<V>, log: Log<V>, pos: seq<nat>, r: Rec<V>, m: Key, mid: Stand<V>, wm: Key, s: Stand<V>, l: nat)
    requires l < |log.mid| == |log.marks| && |log.at| == |log.mid| + 1 && |log.mid| <= |t.order| < |t.path|
    requires KwayStep(keyed, t, log, l)
    ensures KwayStep(keyed, t.Further(pos, r, m), log.Further(mid, wm, s), l)
  {
    var t', log' := t.Further(pos, r, m), log.Further(mid, wm, s);
    assert t'.order[..l + 1] == t.order[..l + 1] && t'.order[l] == t.order[l] && t'.path[l + 1] == t.path[l + 1];
    assert log'.at[l] == log.at[l] && log'.at[l + 1] == log.at[l + 1] && log'.mid[l] == log.mid[l] && log'.marks[l] == log.marks[l];
  }

  lemma {:induction false} KwayStepAdds<V>(keyed: seq<seq<Rec<V>>>, t: Trip<V>, log: Log<V>, pos: seq<nat>, r: Rec<V>, m: Key, mid: Stand<V>, wm: Key, s: Stand<V>)
    requires |log.mid| == |log.marks| == |t.order| && |log.at| == |log.mid| + 1 && |t.path| == |t.order| + 1
    requires Admits(log.Now(), r, mid) && IsMark(keyed, pos, mid.bound, wm) && Drains(t.order + [r], mid, wm, s)
    ensures KwayStep(keyed, t.Further(pos, r, m), log.Further(mid, wm, s), |t.order|)
  {
    var t', log', n := t.Further(pos, r, m), log.Further(mid, wm, s), |t.order|;
    assert t'.order[..n + 1] == t.order + [r] && t'.order[n] == r && t'.path[n + 1] == pos;
    assert log'.at[n] == log.Now() && log'.at[n + 1] == s && log'.mid[n] == mid && log'.marks[n] == wm;
  }

  lemma {:induction false} KwayLogNext<V>(keyed: seq<seq<Rec<V>>>, bound: Key, t: Trip<V>, log: Log<V>, pos: seq<nat>, r: Rec<V>, m: Key, mid: Stand<V>, wm: Key, s: Stand<V>)
    requires KwayLog(keyed, bound, t, log) && |t.path| == |t.order| + 1
    requires Admits(log.Now(), r, mid) && IsMark(keyed, pos, mid.bound, wm) && Drains(t.order + [r], mid, wm, s)
    ensures KwayLog(keyed, bound, t.Further(pos, r, m), log.Further(mid, wm, s))
  {
    var t', log' := t.Further(pos, r, m), log.Further(mid, wm, s);
    forall l: nat | l < |log'.mid| ensures KwayStep(keyed, t', log', l) {
      StepOfLog(keyed, bound, t, log, pos, r, m, mid, wm, s, l);
    }
  }

  lemma {:induction false} StepOfLog<V>(keyed: seq<seq<Rec<V>>>, bound: Key, t: Trip<V>, log: Log<V>, pos: seq<nat>, r: Rec<V>, m: Key, mid: Stand<V>, wm: Key, s: Stand<V>, l: nat)
    requires KwayLog(keyed, bound, t, log) && |t.path| == |t.order| + 1 && l <= |log.mid|
    requires Admits(log.Now(), r, mid) && IsMark(keyed, pos, mid.bound, wm) && Drains(t.order + [r], mid, wm, s)
    ensures KwayStep(keyed, t.Further(pos, r, m), log.Further(mid, wm, s), l)
  {
    if l < |log.mid| {
      KwayStepStays(keyed, t, log, pos, r, m, mid, wm, s, l);
    } else {
      KwayStepAdds(keyed, t, log, pos, r, m, mid, wm, s);
    }
  }

  // ---------------------------------------------------------------- every trip can be finished

  lemma {:induction false} LeastOf<V>(keyed: seq<seq<Rec<V>>>, pos: seq<nat>, k: nat) returns (c: nat)
    requires exists d: nat :: d < k && Live(keyed, pos, d)
    ensures c < k && Live(keyed, pos, c) && forall d: nat :: d < k && Live(keyed, pos, d) ==> keyed[c][pos[c]].key <= keyed[d][pos[d]].key
    decreases k
  {
    if d: nat :| d < k - 1 && Live(keyed, pos, d) {
      c := LeastOf(keyed, pos, k - 1);
      if Live(keyed, pos, k - 1) && keyed[k - 1][pos[k - 1]].key < keyed[c][pos[c]].key {
        c := k - 1;
      }
    } else {
      c := k - 1;
    }
  }

  lemma {:induction false} SomeLeast<V>(keyed: seq<seq<Rec<V>>>, pos: seq<nat>) returns (c: nat)
    requires !AllTaken(keyed, pos)
    ensures Least(keyed, pos, c)
  {
    var d: nat :| Live(keyed, pos, d);
    c := LeastOf(keyed, pos, |keyed|);
  }

  lemma {:induction false} SomeMark<V>(keyed: seq<seq<Rec<V>>>, pos: seq<nat>, bound: Key) returns (m: Key)
    requires bound >= 0
    ensures IsMark(keyed, pos, bound, m)
  {
    m := MAX_INT64;
    if !AllTaken(keyed, pos) {
      var c := SomeLeast(keyed, pos);
      m := Watermark(keyed[c][pos[c]].key, bound);
    }
  }

  lemma {:induction false} Finish<V>(keyed: seq<seq<Rec<V>>>, bound: Key, t: Trip<V>) returns (t': Trip<V>)
    requires Greedy(keyed, bound, t) && bound >= 0
    ensures Greedy(keyed, bound, t') && AllTaken(keyed, t'.At()) && (!NoneLate(t) ==> !NoneLate(t'))
    decreases Left(keyed, t.At(), |keyed|)
  {
    t' := t;
    if !AllTaken(keyed, t.At()) {
      var pos := t.At();
      var c := SomeLeast(keyed, pos);
      var pos' := pos[c := pos[c] + 1];
      var m := SomeMark(keyed, pos', bound);
      GreedyNext(keyed, bound, t, c, m);
      LeftNext(keyed, pos, c, |keyed|);
      var next := t.Further(pos', keyed[c][pos[c]], m);
      if !NoneLate(t) {
        LateStays(t, pos', keyed[c][pos[c]], m);
      }
      t' := Finish(keyed, bound, next);
    }
  }
}
