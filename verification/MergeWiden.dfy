// engine/op_merge_scan.go: what the bound that "widen" grows does for the rows that come after.
module MergeWiden {
  import opened MergeHeaps
  import opened MergeRows
  import opened MergeScan
  import opened MergeReorder
  import opened MergeTrips
  import opened MergeStream

  // By how much a late row falls behind the last key yielded, as the int64 that the loops compute.
  function Shortfall<V>(out: seq<Rec<V>>, k: Key): Key
    requires |out| > 0
  {
    Wrap(out[|out| - 1].key - k)
  }

  lemma {:induction false} WatermarkGrows(a: Key, b: Key, bound: Key)
    requires a <= b && bound >= 0
    ensures Watermark(a, bound) <= Watermark(b, bound) <= b
  {
  }

  // ---------------------------------------------------------------- one child, streamed

  // Row l of the stream is late: the loop warns, or in a strict run refuses it.
  ghost predicate StreamLate<V>(rows: seq<Rec<V>>, log: Log<V>, l: nat)
    requires l < |rows| && l < |log.mid|
  {
    Behind(log.mid[l].out, rows[l].key)
  }

  lemma {:induction false} AdmitsWidens<V>(s: Stand<V>, r: Rec<V>, s': Stand<V>)
    requires Admits(s, r, s')
    ensures s.bound <= s'.bound && (if Behind(s.out, r.key) then Shortfall(s.out, r.key) <= s'.bound else s'.bound == s.bound)
  {
  }

  lemma {:induction false} StreamStepWidens<V>(rows: seq<Rec<V>>, bound: Key, n: nat, log: Log<V>, l: nat)
    requires StreamLog(rows, bound, n, log) && l < n
    ensures log.at[l].bound <= log.at[l + 1].bound
    ensures if StreamLate(rows, log, l) then Shortfall(log.mid[l].out, rows[l].key) <= log.at[l + 1].bound
            else log.at[l + 1].bound == log.at[l].bound
  {
    assert StreamStep(rows, log, l);
    AdmitsWidens(log.mid[l], rows[l], log.at[l + 1]);
  }

  // The bound in effect never shrinks, and covers every shortfall admitted so far.
  lemma {:induction false} StreamBound<V>(rows: seq<Rec<V>>, bound: Key, n: nat, log: Log<V>, i: nat, j: nat)
    requires StreamLog(rows, bound, n, log) && bound >= 0 && i <= j <= n
    ensures bound <= log.at[i].bound <= log.at[j].bound
    ensures i < j && StreamLate(rows, log, i) ==> Shortfall(log.mid[i].out, rows[i].key) <= log.at[j].bound
    decreases j
  {
    if i < j {
      StreamBound(rows, bound, n, log, i, j - 1);
      StreamStepWidens(rows, bound, n, log, j - 1);
    } else if 0 < j {
      StreamBound(rows, bound, n, log, j - 1, j - 1);
      StreamStepWidens(rows, bound, n, log, j - 1);
    }
  }

  // The last key yielded is at or below wm, or will be once the buffer is drained to wm.
  ghost predicate Trails<V>(entered: seq<Rec<V>>, out: seq<Rec<V>>, wm: Key)
  {
    |out| > 0 ==> out[|out| - 1].key <= wm || exists r :: r in Held(entered, out) && r.key <= wm
  }

  ghost predicate DrainedTo<V>(out: seq<Rec<V>>, wm: Key)
  {
    |out| > 0 ==> out[|out| - 1].key <= wm
  }

  lemma {:induction false} DrainedBelow<V>(entered: seq<Rec<V>>, s: Stand<V>, before: Key, wm: Key, s': Stand<V>)
    requires Drains(entered, s, wm, s') && Trails(entered, s.out, before) && before <= wm
    ensures DrainedTo(s'.out, wm)
  {
    if |s'.out| == |s.out| {
      assert s'.out == s.out;
    } else {
      var tail := s'.out[|s.out|..];
      assert tail[|tail| - 1] == s'.out[|s'.out| - 1];
    }
  }

  // A late row that widens the bound is itself at or below the watermark under the wider bound.
  lemma {:induction false} AdmittedTrails<V>(entered: seq<Rec<V>>, s: Stand<V>, r: Rec<V>, s': Stand<V>, top: Key)
    requires Admits(s, r, s') && s.bound >= 0 && multiset(s.out) <= multiset(entered)
    requires DrainedTo(s.out, Watermark(top, s.bound))
    ensures Trails(entered + [r], s'.out, Watermark(top, s'.bound))
  {
    if s'.bound != s.bound {
      var last := s.out[|s.out| - 1].key;
      assert s'.bound == last - r.key;
      assert Held(entered + [r], s.out) == Held(entered, s.out) + multiset{r};
      assert r in Held(entered + [r], s'.out) && r.key <= Watermark(top, s'.bound);
    }
  }

  // Row l's turn: the buffer is drained to the mark, and the row enters.
  lemma {:induction false} StreamDrained<V>(rows: seq<Rec<V>>, bound: Key, n: nat, log: Log<V>, l: nat)
    requires StreamLog(rows, bound, n, log) && l < n && log.at[l].bound >= 0
    requires Trails(rows[..l], log.at[l].out, Watermark(MaxKey(rows, l), log.at[l].bound))
    ensures DrainedTo(log.mid[l].out, Watermark(MaxKey(rows, l + 1), log.at[l].bound))
  {
    assert StreamStep(rows, log, l);
    MaxKeyGrows(rows, l, l + 1);
    WatermarkGrows(MaxKey(rows, l), MaxKey(rows, l + 1), log.at[l].bound);
    DrainedBelow(rows[..l], log.at[l], Watermark(MaxKey(rows, l), log.at[l].bound), log.marks[l], log.mid[l]);
  }

  lemma {:induction false} StreamEntered<V>(rows: seq<Rec<V>>, bound: Key, n: nat, log: Log<V>, l: nat)
    requires StreamLog(rows, bound, n, log) && l < n && log.at[l].bound >= 0
    requires DrainedTo(log.mid[l].out, Watermark(MaxKey(rows, l + 1), log.at[l].bound))
    ensures Trails(rows[..l + 1], log.at[l + 1].out, Watermark(MaxKey(rows, l + 1), log.at[l + 1].bound))
  {
    assert StreamStep(rows, log, l);
    AdmittedTrails(rows[..l], log.mid[l], rows[l], log.at[l + 1], MaxKey(rows, l + 1));
    assert rows[..l + 1] == rows[..l] + [rows[l]];
  }

  lemma {:induction false} StreamTrails<V>(rows: seq<Rec<V>>, bound: Key, n: nat, log: Log<V>, j: nat)
    requires StreamLog(rows, bound, n, log) && bound >= 0 && j <= n
    ensures Trails(rows[..j], log.at[j].out, Watermark(MaxKey(rows, j), log.at[j].bound))
    decreases j
  {
    if 0 < j {
      var l: nat := j - 1;
      StreamTrails(rows, bound, n, log, l);
      StreamBound(rows, bound, n, log, l, l);
      StreamDrained(rows, bound, n, log, l);
      StreamEntered(rows, bound, n, log, l);
    }
  }

  // Streamed, a row is late only if it falls behind an earlier one by more than the bound in effect, which
  // is not below the declared bound or any shortfall admitted before.
  lemma {:induction false} StreamWidens<V>(rows: seq<Rec<V>>, bound: Key, n: nat, log: Log<V>, j: nat)
    requires StreamLog(rows, bound, n, log) && bound >= 0 && j < n
    ensures bound <= log.at[j].bound
    ensures forall l: nat :: l < j && StreamLate(rows, log, l) ==> Shortfall(log.mid[l].out, rows[l].key) <= log.at[j].bound
    ensures StreamLate(rows, log, j) ==> exists i :: 0 <= i < j && rows[i].key - rows[j].key > log.at[j].bound
  {
    forall l: nat | l < j && StreamLate(rows, log, l) ensures Shortfall(log.mid[l].out, rows[l].key) <= log.at[j].bound {
      StreamBound(rows, bound, n, log, l, j);
    }
    StreamBound(rows, bound, n, log, j, j);
    if StreamLate(rows, log, j) {
      StreamTrails(rows, bound, n, log, j);
      StreamDrained(rows, bound, n, log, j);
      MaxKeyIs(rows, j + 1);
      var i :| 0 <= i < j + 1 && rows[i].key == MaxKey(rows, j + 1);
      assert rows[i].key - rows[j].key > log.at[j].bound;
    }
  }

  // Once the bound covers the disorder that is still to come, no row is late any more.
  lemma {:induction false} WideEnoughIsQuiet<V>(rows: seq<Rec<V>>, bound: Key, n: nat, log: Log<V>, from: nat)
    requires StreamLog(rows, bound, n, log) && bound >= 0 && from <= n
    requires forall i, j :: 0 <= i < j < n && from <= j ==> rows[i].key - rows[j].key <= log.at[from].bound
    ensures forall j: nat :: from <= j < n ==> !StreamLate(rows, log, j) && log.at[j + 1].bound == log.at[from].bound
  {
    forall j: nat | from <= j < n ensures !StreamLate(rows, log, j) {
      StreamWidens(rows, bound, n, log, j);
      StreamBound(rows, bound, n, log, from, j);
    }
    QuietBound(rows, bound, n, log, from, n);
  }

  lemma {:induction false} QuietBound<V>(rows: seq<Rec<V>>, bound: Key, n: nat, log: Log<V>, from: nat, k: nat)
    requires StreamLog(rows, bound, n, log) && from <= k <= n
    requires forall j: nat :: from <= j < n ==> !StreamLate(rows, log, j)
    ensures forall j: nat :: from <= j <= k ==> log.at[j].bound == log.at[from].bound
    decreases k
  {
    if from < k {
      QuietBound(rows, bound, n, log, from, k - 1);
      StreamStepWidens(rows, bound, n, log, k - 1);
    }
  }

  // ---------------------------------------------------------------- K children

  // Row l in the order taken is late.
  ghost predicate KwayLate<V>(t: Trip<V>, log: Log<V>, l: nat)
    requires l < |t.order| && l < |log.at|
  {
    Behind(log.at[l].out, t.order[l].key)
  }

  lemma {:induction false} KwayStepWidens<V>(keyed: seq<seq<Rec<V>>>, bound: Key, t: Trip<V>, log: Log<V>, l: nat)
    requires KwayLog(keyed, bound, t, log) && l < |t.order|
    ensures log.at[l].bound <= log.mid[l].bound == log.at[l + 1].bound
    ensures KwayLate(t, log, l) ==> Shortfall(log.at[l].out, t.order[l].key) <= log.at[l + 1].bound
  {
    assert KwayStep(keyed, t, log, l);
    AdmitsWidens(log.at[l], t.order[l], log.mid[l]);
  }

  lemma {:induction false} KwayBound<V>(keyed: seq<seq<Rec<V>>>, bound: Key, t: Trip<V>, log: Log<V>, i: nat, j: nat)
    requires KwayLog(keyed, bound, t, log) && bound >= 0 && i <= j < |log.at|
    ensures bound <= log.at[i].bound <= log.at[j].bound
    ensures i < j && KwayLate(t, log, i) ==> Shortfall(log.at[i].out, t.order[i].key) <= log.at[j].bound
    decreases j
  {
    if i < j {
      KwayBound(keyed, bound, t, log, i, j - 1);
      KwayStepWidens(keyed, bound, t, log, j - 1);
    } else if 0 < j {
      KwayBound(keyed, bound, t, log, j - 1, j - 1);
      KwayStepWidens(keyed, bound, t, log, j - 1);
    }
  }

  // The mark before a row is taken is that row's key less the bound in effect.
  lemma {:induction false} MarkIsNextHead<V>(keyed: seq<seq<Rec<V>>>, pos: seq<nat>, pos': seq<nat>, r: Rec<V>, bound: Key, m: Key)
    requires IsMark(keyed, pos, bound, m) && Takes(keyed, pos, pos', r)
    ensures m == Watermark(r.key, bound)
  {
  }

  // The last key yielded before row j is at or below the mark that row i brought.
  ghost predicate BelowTaken<V>(t: Trip<V>, log: Log<V>, j: nat, i: nat)
  {
    && i < |t.order| && i < |log.at| && j < |log.at|
    && DrainedTo(log.at[j].out, Watermark(t.order[i].key, log.at[i].bound))
  }

  // A turn yields nothing, or rows up to the mark that the next row brings.
  lemma {:induction false} KwayTurned<V>(keyed: seq<seq<Rec<V>>>, bound: Key, t: Trip<V>, log: Log<V>, l: nat)
    requires Greedy(keyed, bound, t) && KwayLog(keyed, bound, t, log) && l + 1 < |t.order|
    ensures log.at[l + 1].out == log.at[l].out || DrainedTo(log.at[l + 1].out, Watermark(t.order[l + 1].key, log.mid[l].bound))
  {
    assert KwayStep(keyed, t, log, l);
    assert TripStep(keyed, bound, t, l + 1);
    MarkIsNextHead(keyed, t.path[l + 1], t.path[l + 2], t.order[l + 1], log.mid[l].bound, log.marks[l]);
    YieldsUpTo(t.order[..l + 1], log.mid[l], log.marks[l], log.at[l + 1]);
  }

  lemma {:induction false} YieldsUpTo<V>(entered: seq<Rec<V>>, s: Stand<V>, wm: Key, s': Stand<V>)
    requires Drains(entered, s, wm, s')
    ensures s'.out == s.out || DrainedTo(s'.out, wm)
  {
    if |s'.out| == |s.out| {
      assert s'.out == s.out;
    } else {
      var tail := s'.out[|s.out|..];
      assert tail[|tail| - 1] == s'.out[|s'.out| - 1];
    }
  }

  ghost predicate OwedToTaken<V>(t: Trip<V>, log: Log<V>, j: nat)
    requires j < |log.at|
  {
    |log.at[j].out| > 0 ==> exists i: nat :: i <= j && BelowTaken(t, log, j, i)
  }

  lemma {:induction false} KwayTrails<V>(keyed: seq<seq<Rec<V>>>, bound: Key, t: Trip<V>, log: Log<V>, j: nat)
    requires Greedy(keyed, bound, t) && KwayLog(keyed, bound, t, log) && j < |t.order|
    ensures OwedToTaken(t, log, j)
    decreases j
  {
    if 0 < j {
      KwayTrails(keyed, bound, t, log, j - 1);
      KwayTurned(keyed, bound, t, log, j - 1);
      KwayStepWidens(keyed, bound, t, log, j - 1);
      if |log.at[j].out| > 0 && log.at[j].out == log.at[j - 1].out {
        var i: nat :| i <= j - 1 && BelowTaken(t, log, j - 1, i);
        assert BelowTaken(t, log, j, i);
      } else {
        assert BelowTaken(t, log, j, j);
      }
    }
  }

  // Taken from K children, a row is late only if it falls behind an earlier one by more than the bound in effect
  // when that earlier row became the least head; that bound covers the shortfalls admitted up to then.
  lemma {:induction false} KwayWidens<V>(keyed: seq<seq<Rec<V>>>, bound: Key, t: Trip<V>, log: Log<V>, j: nat)
    requires Greedy(keyed, bound, t) && KwayLog(keyed, bound, t, log) && bound >= 0 && j < |t.order|
    ensures bound <= log.at[j].bound
    ensures forall l: nat :: l < j && KwayLate(t, log, l) ==> Shortfall(log.at[l].out, t.order[l].key) <= log.at[j].bound
    ensures KwayLate(t, log, j) ==> exists i :: 0 <= i < j && t.order[i].key - t.order[j].key > log.at[i].bound
  {
    forall l: nat | l < j && KwayLate(t, log, l) ensures Shortfall(log.at[l].out, t.order[l].key) <= log.at[j].bound {
      KwayBound(keyed, bound, t, log, l, j);
    }
    KwayBound(keyed, bound, t, log, j, j);
    if KwayLate(t, log, j) {
      KwayTrails(keyed, bound, t, log, j);
      var i: nat :| i <= j && BelowTaken(t, log, j, i);
      KwayBound(keyed, bound, t, log, i, j);
      assert t.order[i].key - t.order[j].key > log.at[i].bound;
    }
  }

  lemma {:induction false} HeldSplits<V>(entered: seq<Rec<V>>, out: seq<Rec<V>>, tail: seq<Rec<V>>)
    requires multiset(out + tail) <= multiset(entered)
    ensures forall i :: 0 <= i < |tail| ==> tail[i] in Held(entered, out)
  {
    assert multiset(out + tail) == multiset(out) + multiset(tail);
    assert multiset(tail) <= Held(entered, out);
    assert forall i :: 0 <= i < |tail| ==> tail[i] in multiset(tail);
  }

  lemma {:induction false} YieldedWasHeld<V>(entered: seq<Rec<V>>, s: Stand<V>, wm: Key, s': Stand<V>)
    requires Drains(entered, s, wm, s')
    ensures forall i :: |s.out| <= i < |s'.out| ==> s'.out[i] in Held(entered, s.out) && s'.out[i].key <= wm
  {
    var tail := s'.out[|s.out|..];
    assert s'.out == s.out + tail;
    HeldSplits(entered, s.out, tail);
    forall i | |s.out| <= i < |s'.out| ensures s'.out[i] in Held(entered, s.out) && s'.out[i].key <= wm {
      assert s'.out[i] == tail[i - |s.out|];
    }
  }

  // Turn l yielded row r, which was held until then, and nothing was yielded since; a row with key k would
  // belong before r.
  ghost predicate YieldedAbove<V>(t: Trip<V>, log: Log<V>, j: nat, k: Key, l: nat, r: Rec<V>)
  {
    && l < j < |log.at| && l < |log.mid| && l + 1 < |t.order|
    && r in Held(t.order[..l + 1], log.mid[l].out)
    && k < r.key <= Watermark(t.order[l + 1].key, log.at[l + 1].bound)
    && log.at[l + 1].out == log.at[j].out
  }

  lemma {:induction false} HeldIsYielded<V>(entered: seq<Rec<V>>, s: Stand<V>, wm: Key, s': Stand<V>, r: Rec<V>)
    requires Drains(entered, s, wm, s') && r in Held(entered, s.out) && r.key <= wm
    ensures |s'.out| > 0 && r.key <= s'.out[|s'.out| - 1].key
  {
    EndOfTail(entered, s.out, s'.out, wm, r);
  }

  lemma {:induction false} EndOfTail<V>(entered: seq<Rec<V>>, out: seq<Rec<V>>, out': seq<Rec<V>>, wm: Key, r: Rec<V>)
    requires |out| <= |out'| && out == out'[..|out|] && Ascending(out'[|out|..])
    requires (forall x :: x in Held(entered, out') ==> x.key > wm) && r in Held(entered, out) && r.key <= wm
    ensures |out'| > 0 && r.key <= out'[|out'| - 1].key
  {
    var tail := out'[|out|..];
    PrefixAndTail(out, out');
    StaysHeld(entered, out, tail, r);
    AscendingEnd(tail, r);
  }

  lemma {:induction false} PrefixAndTail<V>(out: seq<Rec<V>>, out': seq<Rec<V>>)
    requires |out| <= |out'| && out == out'[..|out|]
    ensures out' == out + out'[|out|..]
    ensures |out| < |out'| ==> out'[|out|..][|out'| - |out| - 1] == out'[|out'| - 1]
  {
  }

  // What was held is held still, or among what was yielded.
  lemma {:induction false} StaysHeld<V>(entered: seq<Rec<V>>, out: seq<Rec<V>>, tail: seq<Rec<V>>, r: Rec<V>)
    requires r in Held(entered, out)
    ensures r in tail || r in Held(entered, out + tail)
  {
    assert multiset(out + tail) == multiset(out) + multiset(tail);
    assert r in tail <==> multiset(tail)[r] > 0;
  }

  lemma {:induction false} AscendingEnd<V>(tail: seq<Rec<V>>, r: Rec<V>)
    requires Ascending(tail)
    ensures r in tail ==> r.key <= tail[|tail| - 1].key
  {
    if r in tail {
      AscendingLast(tail);
    }
  }

  lemma {:induction false} TurnIs<V>(keyed: seq<seq<Rec<V>>>, bound: Key, t: Trip<V>, log: Log<V>, l: nat)
    requires Greedy(keyed, bound, t) && KwayLog(keyed, bound, t, log) && l + 1 < |t.order|
    ensures Drains(t.order[..l + 1], log.mid[l], log.marks[l], log.at[l + 1]) && log.mid[l].out == log.at[l].out
    ensures log.marks[l] == Watermark(t.order[l + 1].key, log.at[l + 1].bound)
  {
    assert KwayStep(keyed, t, log, l);
    assert TripStep(keyed, bound, t, l + 1);
    MarkIsNextHead(keyed, t.path[l + 1], t.path[l + 2], t.order[l + 1], log.mid[l].bound, log.marks[l]);
  }

  lemma {:induction false} AboveIsBehind<V>(keyed: seq<seq<Rec<V>>>, bound: Key, t: Trip<V>, log: Log<V>, j: nat, k: Key, l: nat, r: Rec<V>)
    requires Greedy(keyed, bound, t) && KwayLog(keyed, bound, t, log) && YieldedAbove(t, log, j, k, l, r)
    ensures Behind(log.at[j].out, k)
  {
    TurnIs(keyed, bound, t, log, l);
    HeldIsYielded(t.order[..l + 1], log.mid[l], log.marks[l], log.at[l + 1], r);
  }

  // What the turn before j yielded last.
  lemma {:induction false} LastOfTurn<V>(keyed: seq<seq<Rec<V>>>, bound: Key, t: Trip<V>, log: Log<V>, l: nat, k: Key) returns (r: Rec<V>)
    requires Greedy(keyed, bound, t) && KwayLog(keyed, bound, t, log) && l + 1 < |t.order|
    requires Behind(log.at[l + 1].out, k) && log.at[l + 1].out != log.at[l].out
    ensures YieldedAbove(t, log, l + 1, k, l, r)
  {
    var out := log.at[l + 1].out;
    r := out[|out| - 1];
    TurnIs(keyed, bound, t, log, l);
    YieldedWasHeld(t.order[..l + 1], log.mid[l], log.marks[l], log.at[l + 1]);
    YieldsMore(t.order[..l + 1], log.mid[l], log.marks[l], log.at[l + 1]);
  }

  lemma {:induction false} YieldsMore<V>(entered: seq<Rec<V>>, s: Stand<V>, wm: Key, s': Stand<V>)
    requires Drains(entered, s, wm, s')
    ensures s'.out != s.out ==> |s.out| < |s'.out|
  {
  }

  lemma {:induction false} BehindIsAbove<V>(keyed: seq<seq<Rec<V>>>, bound: Key, t: Trip<V>, log: Log<V>, j: nat, k: Key) returns (l: nat, r: Rec<V>)
    requires Greedy(keyed, bound, t) && KwayLog(keyed, bound, t, log) && j < |t.order| && Behind(log.at[j].out, k)
    ensures YieldedAbove(t, log, j, k, l, r)
    decreases j
  {
    l := j - 1;
    if log.at[j].out == log.at[l].out {
      l, r := BehindIsAbove(keyed, bound, t, log, l, k);
      SinceThen(t, log, j, j - 1, k, l, r);
    } else {
      r := LastOfTurn(keyed, bound, t, log, l, k);
    }
  }

  // While nothing more is yielded, what was yielded above k stays so.
  lemma {:induction false} SinceThen<V>(t: Trip<V>, log: Log<V>, i: nat, j: nat, k: Key, l: nat, r: Rec<V>)
    requires YieldedAbove(t, log, j, k, l, r) && l < i < |log.at| && log.at[i].out == log.at[j].out
    ensures YieldedAbove(t, log, i, k, l, r)
  {
  }

  // Exactly when a row is late in the K-way loop: the last turn that yielded anything yielded a greater key, at
  // least the bound in effect THEN below the key that had become the least head.
  lemma {:induction false} KwayLateIff<V>(keyed: seq<seq<Rec<V>>>, bound: Key, t: Trip<V>, log: Log<V>, j: nat)
    requires Greedy(keyed, bound, t) && KwayLog(keyed, bound, t, log) && j < |t.order|
    ensures KwayLate(t, log, j) <==> exists l: nat, r :: YieldedAbove(t, log, j, t.order[j].key, l, r)
  {
    if KwayLate(t, log, j) {
      var l, r := BehindIsAbove(keyed, bound, t, log, j, t.order[j].key);
    }
    if l: nat, r :| YieldedAbove(t, log, j, t.order[j].key, l, r) {
      AboveIsBehind(keyed, bound, t, log, j, t.order[j].key, l, r);
    }
  }

  // ---------------------------------------------------------------- K children are not covered as one stream is

  lemma {:induction false} AloneTrip<V>(rows: seq<Rec<V>>, bound: Key, t: Trip<V>, l: nat)
    requires Greedy([rows], bound, t) && l <= |t.order|
    ensures t.path[l] == [l] && l <= |rows| && t.order[..l] == rows[..l]
    decreases l
  {
    if l > 0 {
      AloneTrip(rows, bound, t, l - 1);
      assert TripStep([rows], bound, t, l - 1);
      assert t.order[..l] == t.order[..l - 1] + [t.order[l - 1]];
    }
  }

  lemma {:induction false} AloneOrder<V>(rows: seq<Rec<V>>, bound: Key, t: Trip<V>, l: nat)
    requires Greedy([rows], bound, t) && l < |t.order|
    ensures l < |rows| && t.order[l] == rows[l] && t.order[..l + 1] == rows[..l + 1]
  {
    AloneTrip(rows, bound, t, l + 1);
    assert t.order[l] == t.order[..l + 1][l];
  }

  // A child alone: row l enters, and the buffer is drained to the next row's key less the bound.
  lemma {:induction false} AloneStep<V>(rows: seq<Rec<V>>, bound: Key, t: Trip<V>, log: Log<V>, l: nat)
    requires Greedy([rows], bound, t) && KwayLog([rows], bound, t, log) && l + 1 < |t.order|
    ensures l + 1 < |rows| && Admits(log.at[l], rows[l], log.mid[l])
    ensures Drains(rows[..l + 1], log.mid[l], Watermark(rows[l + 1].key, log.mid[l].bound), log.at[l + 1])
  {
    AloneOrder(rows, bound, t, l);
    AloneOrder(rows, bound, t, l + 1);
    AloneMark(rows, bound, t, log, l);
    KwayStepAt([rows], bound, t, log, l);
  }

  lemma {:induction false} KwayStepAt<V>(keyed: seq<seq<Rec<V>>>, bound: Key, t: Trip<V>, log: Log<V>, l: nat)
    requires KwayLog(keyed, bound, t, log) && l < |t.order|
    ensures Admits(log.at[l], t.order[l], log.mid[l]) && Drains(t.order[..l + 1], log.mid[l], log.marks[l], log.at[l + 1])
  {
    assert KwayStep(keyed, t, log, l);
  }

  lemma {:induction false} AloneMark<V>(rows: seq<Rec<V>>, bound: Key, t: Trip<V>, log: Log<V>, l: nat)
    requires Greedy([rows], bound, t) && KwayLog([rows], bound, t, log) && l + 1 < |t.order|
    ensures log.marks[l] == Watermark(t.order[l + 1].key, log.mid[l].bound)
  {
    assert KwayStep([rows], t, log, l);
    assert TripStep([rows], bound, t, l + 1);
    MarkIsNextHead([rows], t.path[l + 1], t.path[l + 2], t.order[l + 1], log.mid[l].bound, log.marks[l]);
  }

  lemma {:induction false} NothingLeaves<V>(entered: seq<Rec<V>>, s: Stand<V>, wm: Key, s': Stand<V>)
    requires Drains(entered, s, wm, s')
    requires forall r :: r in Held(entered, s.out) ==> wm < r.key
    ensures s' == s
  {
    YieldedWasHeld(entered, s, wm, s');
    assert s'.out == s.out;
  }

  lemma {:induction false} AtMostOne<V>(out: seq<Rec<V>>, r: Rec<V>)
    requires multiset(out) <= multiset{r}
    ensures out == [] || out == [r]
  {
    if |out| > 0 {
      assert out[0] in multiset(out);
      assert out == [out[0]] + out[1..];
      assert multiset(out[1..]) == multiset{};
      assert |multiset(out[1..])| == |out[1..]|;
    }
  }

  lemma {:induction false} FirstLeaves<V>(r: Rec<V>, s: Stand<V>, wm: Key, s': Stand<V>)
    requires Drains([r], s, wm, s') && s.out == [] && r.key <= wm
    ensures s' == Stand(s.bound, [r], s.warned)
  {
    AtMostOne(s'.out, r);
    assert r in multiset(s'.out) || r in Held([r], s'.out);
  }

  ghost predicate LaggingKeys(rows: seq<Rec<int>>)
  {
    rows == [Rec(10, 0), Rec(12, 0), Rec(5, 0), Rec(9, 0)]
  }

  lemma {:induction false} RestStays<V>(a: Rec<V>, rest: seq<Rec<V>>, s: Stand<V>, wm: Key, s': Stand<V>)
    requires Drains([a] + rest, s, wm, s') && s.out == [a] && forall i :: 0 <= i < |rest| ==> wm < rest[i].key
    ensures s' == s
  {
    assert Held([a] + rest, [a]) == multiset(rest);
    NothingLeaves([a] + rest, s, wm, s');
  }

  lemma {:induction false} ThirdWidens(a: Rec<int>, c: Rec<int>, s: Stand<int>, mid: Stand<int>)
    requires a.key == 10 && c.key == 5 && s == Stand(0, [a], 0) && Admits(s, c, mid)
    ensures mid == Stand(5, [a], 1)
  {
    assert Behind(s.out, c.key) && Wrap(s.out[|s.out| - 1].key - c.key) == 5;
  }

  lemma {:induction false} OnTime<V>(s: Stand<V>, r: Rec<V>, mid: Stand<V>)
    requires !Behind(s.out, r.key) && Admits(s, r, mid)
    ensures mid == s
  {
  }

  // A first row that the next one's mark has passed is yielded.
  lemma {:induction false} FirstGoes<V>(entered: seq<Rec<V>>, a: Rec<V>, wm: Key, s: Stand<V>, mid: Stand<V>, s': Stand<V>)
    requires s.out == [] && entered == [a] && Admits(s, a, mid) && Drains(entered, mid, wm, s') && a.key <= wm
    ensures s' == Stand(s.bound, [a], s.warned)
  {
    OnTime(s, a, mid);
    FirstLeaves(a, mid, wm, s');
  }

  lemma {:induction false} AloneFirst<V>(rows: seq<Rec<V>>, bound: Key, t: Trip<V>, log: Log<V>)
    requires Greedy([rows], bound, t) && KwayLog([rows], bound, t, log) && 1 < |t.order|
    ensures 1 < |rows| && log.mid[0].bound == bound
    ensures rows[0].key <= Watermark(rows[1].key, bound) ==> log.at[1] == Stand(bound, [rows[0]], 0)
  {
    AloneStep(rows, bound, t, log, 0);
    assert log.at[0] == Stand(bound, [], 0);
    OnTime(log.at[0], rows[0], log.mid[0]);
    assert rows[..1] == [rows[0]];
    if rows[0].key <= Watermark(rows[1].key, bound) {
      FirstGoes(rows[..1], rows[0], Watermark(rows[1].key, bound), log.at[0], log.mid[0], log.at[1]);
    }
  }

  // Keys 10 and 12 have entered, and 10 was yielded; mark 5 is too low for 12.
  lemma {:induction false} SecondStays(entered: seq<Rec<int>>, a: Rec<int>, b: Rec<int>, s: Stand<int>, mid: Stand<int>, s': Stand<int>)
    requires a.key == 10 && b.key == 12 && s == Stand(0, [a], 0) && entered == [a] + [b]
    requires Admits(s, b, mid) && Drains(entered, mid, Watermark(5, mid.bound), s')
    ensures s' == s
  {
    OnTime(s, b, mid);
    RestStays(a, [b], mid, 5, s');
  }

  // Key 5 is late and widens the bound to 5; mark 4 is too low for it.
  lemma {:induction false} ThirdStays(entered: seq<Rec<int>>, a: Rec<int>, b: Rec<int>, c: Rec<int>, s: Stand<int>, mid: Stand<int>, s': Stand<int>)
    requires a.key == 10 && b.key == 12 && c.key == 5 && s == Stand(0, [a], 0) && entered == [a] + [b, c]
    requires Admits(s, c, mid) && Drains(entered, mid, Watermark(9, mid.bound), s')
    ensures s' == Stand(5, [a], 1)
  {
    ThirdWidens(a, c, s, mid);
    RestStays(a, [b, c], mid, 4, s');
  }

  lemma {:induction false} LagSecond(rows: seq<Rec<int>>, t: Trip<int>, log: Log<int>)
    requires LaggingKeys(rows) && Greedy([rows], 0, t) && KwayLog([rows], 0, t, log) && |t.order| == 4
    ensures log.at[2] == Stand(0, [rows[0]], 0)
  {
    AloneFirst(rows, 0, t, log);
    AloneStep(rows, 0, t, log, 1);
    assert rows[..2] == [rows[0]] + [rows[1]];
    SecondStays(rows[..2], rows[0], rows[1], log.at[1], log.mid[1], log.at[2]);
  }

  lemma {:induction false} LagThird(rows: seq<Rec<int>>, t: Trip<int>, log: Log<int>)
    requires LaggingKeys(rows) && Greedy([rows], 0, t) && KwayLog([rows], 0, t, log) && |t.order| == 4
    ensures log.at[3] == Stand(5, [rows[0]], 1)
  {
    LagSecond(rows, t, log);
    AloneStep(rows, 0, t, log, 2);
    assert rows[..3] == [rows[0]] + [rows[1], rows[2]];
    ThirdStays(rows[..3], rows[0], rows[1], rows[2], log.at[2], log.mid[2], log.at[3]);
  }

  // One child with keys 10, 12, 5, 9 and no declared bound. The third row is late by 5 and widens the bound
  // to 5. The fourth is within 5 of every earlier row, and late nevertheless: 10 was yielded under the old
  // bound.
  lemma {:induction false} KwayLags(rows: seq<Rec<int>>, t: Trip<int>, log: Log<int>)
    requires LaggingKeys(rows) && Greedy([rows], 0, t) && AllTaken([rows], t.At()) && KwayLog([rows], 0, t, log)
    ensures t.order == rows && KwayLate(t, log, 3) && log.at[3].bound == 5
    ensures forall i :: 0 <= i < 3 ==> rows[i].key - rows[3].key <= 5
  {
    AloneTrip(rows, 0, t, |t.order|);
    assert !Live([rows], t.At(), 0);
    assert t.order == t.order[..4] && rows == rows[..4];
    LagThird(rows, t, log);
  }
}
