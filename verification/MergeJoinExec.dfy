// engine/op_merge_join.go: MergeJoinExec over whole inputs, and that both ways of running it agree.
module MergeJoinExec {
  import opened MergeHeaps
  import opened MergeRows
  import opened AsofSpec
  import opened MergeJoin
  import opened MergeJoinStream

  // The left rows are joined in turn until one steps backwards.
  ghost predicate JoinedUpTo<L, R>(equi: bool, mode: Mode, lefts: seq<Rec<Tagged<L>>>, rights: seq<Rec<Tagged<R>>>, out: seq<Joined<L, R>>, err: JoinErr)
  {
    var n := AscendingLength(lefts, 0);
    && out == JoinOf(equi, mode, rights, lefts, n) && err == (if n == |lefts| then Joins else LeftOrder)
    && JoinAnswer(equi, mode, rights, lefts[..n], out)
  }

  // n left rows are done.
  ghost predicate Joining<L, R>(equi: bool, mode: Mode, lefts: seq<Rec<Tagged<L>>>, rights: seq<Rec<Tagged<R>>>, n: nat, out: seq<Joined<L, R>>, lastKey: Key)
  {
    && n <= |lefts| && Ascending(lefts[..n])
    && out == JoinOf(equi, mode, rights, lefts, n)
    && lastKey == if n == 0 then MIN_INT64 else lefts[n - 1].key
  }

  lemma {:induction false} AscendingLengthEquals<V>(s: seq<Rec<V>>, n: nat)
    requires n <= |s| && Ascending(s[..n]) && (n < |s| ==> n > 0 && s[n].key < s[n - 1].key)
    ensures AscendingLength(s, 0) == n
  {
    AscendingLengthIs(s, 0);
  }

  lemma {:induction false} JoiningNext<L, R>(equi: bool, mode: Mode, lefts: seq<Rec<Tagged<L>>>, rights: seq<Rec<Tagged<R>>>, n: nat, out: seq<Joined<L, R>>, lastKey: Key)
    requires Joining(equi, mode, lefts, rights, n, out, lastKey) && n < |lefts| && (n > 0 ==> lastKey <= lefts[n].key)
    ensures Joining(equi, mode, lefts, rights, n + 1, out + RowOf(equi, mode, rights, lefts[n]), lefts[n].key)
  {
    OneFurther(lefts, n);
  }

  lemma {:induction false} JoiningFails<L, R>(equi: bool, mode: Mode, lefts: seq<Rec<Tagged<L>>>, rights: seq<Rec<Tagged<R>>>, n: nat, out: seq<Joined<L, R>>, lastKey: Key)
    requires Joining(equi, mode, lefts, rights, n, out, lastKey) && 0 < n < |lefts| && lefts[n].key < lastKey
    ensures JoinedUpTo(equi, mode, lefts, rights, out, LeftOrder)
  {
    AscendingLengthEquals(lefts, n);
    JoinAnswers(equi, mode, rights, lefts, n);
  }

  lemma {:induction false} JoiningEnds<L, R>(equi: bool, mode: Mode, lefts: seq<Rec<Tagged<L>>>, rights: seq<Rec<Tagged<R>>>, out: seq<Joined<L, R>>, lastKey: Key)
    requires Joining(equi, mode, lefts, rights, |lefts|, out, lastKey)
    ensures JoinedUpTo(equi, mode, lefts, rights, out, Joins)
  {
    AscendingLengthEquals(lefts, |lefts|);
    JoinAnswers(equi, mode, rights, lefts, |lefts|);
  }

  lemma OneFits<L, R>(mode: Mode, lefts: seq<Rec<L>>, rights: seq<Rec<R>>, n: nat)
    requires n < |lefts|
    ensures DifferencesFit(mode, lefts, rights) ==> DifferencesFit(mode, [lefts[n]], rights)
    ensures KeysFit(mode, lefts, rights) ==> KeysFit(mode, [lefts[n]], rights)
  {
    if DifferencesFit(mode, lefts, rights) {
      forall i, j | mode.soft && 0 <= i < 1 && 0 <= j < |rights| ensures KeysNear([lefts[n]][i].key, rights[j].key) {
        assert KeysNear(lefts[n].key, rights[j].key);
      }
    }
  }

  // One left row against the materialized right side.
  method Step<L, R>(state: MergeJoinState<R>, equi: bool, left: Rec<Tagged<L>>) returns (out: seq<Joined<L, R>>)
    requires ValidFor(state, equi) && state.low <= left.key && (equi || DifferencesFit(state.mode, [left], state.rights))
    modifies state
    ensures ValidFor(state, equi) && state.low == left.key && out == RowOf(equi, state.mode, state.rights, left)
  {
    if equi {
      out := state.StepEqui(left);
    } else if state.mode.following {
      out := state.StepAsofFollowing(left);
    } else {
      out := state.StepAsof(left);
    }
  }

  ghost predicate ValidFor<R>(state: MergeJoinState<R>, equi: bool)
    reads state
  {
    if equi then state.ValidEqui() else if state.mode.following then state.ValidFollowing() else state.ValidPreceding()
  }

  method JoinMaterialized<L, R>(equi: bool, mode: Mode, leftRows: seq<Row<Tagged<L>>>, rights: seq<Rec<Tagged<R>>>) returns (out: seq<Joined<L, R>>, err: JoinErr)
    requires Ascending(rights) && (equi || DifferencesFit(mode, KeyedRows(leftRows, |leftRows|), rights))
    ensures JoinedUpTo(equi, mode, KeyedRows(leftRows, |leftRows|), rights, out, err)
  {
    ghost var lefts := KeyedRows(leftRows, |leftRows|);
    var partIdx := IndexParts(mode, rights);
    var state := new MergeJoinState(mode, rights, partIdx);
    var lastKey: Key, emitted := MIN_INT64, false;
    ghost var n: nat := 0;
    out, err := [], Joins;
    for i: nat := 0 to |leftRows|
      invariant fresh(state) && state.mode == mode && state.rights == rights
      invariant err.Joins? ==> n == |KeyedRows(leftRows, i)| && (emitted <==> n > 0) && state.low == lastKey
      invariant err.Joins? ==> ValidFor(state, equi) && Joining(equi, mode, lefts, rights, n, out, lastKey)
      invariant !err.Joins? ==> JoinedUpTo(equi, mode, lefts, rights, out, err)
    {
      KeyedNext(leftRows, i);
      if err.Joins? && leftRows[i].Keyed? {
        var left := leftRows[i].rec;
        if emitted && left.key < lastKey {
          JoiningFails(equi, mode, lefts, rights, n, out, lastKey);
          err := LeftOrder;
        } else {
          if !equi {
            OneFits(mode, lefts, rights, n);
          }
          JoiningNext(equi, mode, lefts, rights, n, out, lastKey);
          var joined := Step(state, equi, left);
          out, lastKey, emitted := out + joined, left.key, true;
          n := n + 1;
        }
      }
    }
    if err.Joins? {
      JoiningEnds(equi, mode, lefts, rights, out, lastKey);
    }
  }

  // Every ASOF join streams but the unbounded following one in partitions.
  predicate Streams(mode: Mode)
  {
    !(mode.following && mode.partitioned && !mode.soft)
  }

  ghost predicate ValidStream<R>(state: StreamJoin<R>)
    reads state
  {
    if !state.mode.following then state.ValidPreceding()
    else if state.mode.partitioned then state.ValidQueues()
    else state.ValidFollowing()
  }

  method StreamStep<L, R>(state: StreamJoin<R>, left: Rec<Tagged<L>>) returns (out: seq<Joined<L, R>>)
    requires ValidStream(state) && Streams(state.mode) && state.low <= left.key && KeysFit(state.mode, [left], state.rights)
    modifies state
    ensures ValidStream(state) && state.low == left.key && out == AsofRow(state.mode, state.rights, left)
  {
    if state.mode.following && state.mode.partitioned {
      out := state.StepQueues(left);
    } else if state.mode.following {
      out := state.StepFollowing(left);
    } else {
      out := state.StepPreceding(left);
    }
  }

  // The next left row against the right stream.
  method StreamLeft<L, R>(state: StreamJoin<R>, ghost lefts: seq<Rec<Tagged<L>>>, ghost n: nat, left: Rec<Tagged<L>>, out: seq<Joined<L, R>>)
    returns (out': seq<Joined<L, R>>)
    requires ValidStream(state) && Streams(state.mode) && KeysFit(state.mode, lefts, state.rights)
    requires Joining(false, state.mode, lefts, state.rights, n, out, state.low)
    requires n < |lefts| && left == lefts[n] && state.low <= left.key
    modifies state
    ensures ValidStream(state) && state.low == left.key
    ensures Joining(false, state.mode, lefts, state.rights, n + 1, out', left.key)
  {
    OneFits(state.mode, lefts, state.rights, n);
    JoiningNext(false, state.mode, lefts, state.rights, n, out, state.low);
    var joined := StreamStep(state, left);
    out' := out + joined;
  }

  method JoinStreamed<L, R>(mode: Mode, leftRows: seq<Row<Tagged<L>>>, rights: seq<Rec<Tagged<R>>>) returns (out: seq<Joined<L, R>>, err: JoinErr)
    requires Streams(mode) && Ascending(rights) && KeysFit(mode, KeyedRows(leftRows, |leftRows|), rights)
    ensures JoinedUpTo(false, mode, KeyedRows(leftRows, |leftRows|), rights, out, err)
  {
    ghost var lefts := KeyedRows(leftRows, |leftRows|);
    var state := new StreamJoin(mode, rights);
    var lastKey: Key, emitted := MIN_INT64, false;
    ghost var n: nat := 0;
    out, err := [], Joins;
    for i: nat := 0 to |leftRows|
      invariant fresh(state) && state.mode == mode && state.rights == rights
      invariant err.Joins? ==> n == |KeyedRows(leftRows, i)| && (emitted <==> n > 0) && state.low == lastKey
      invariant err.Joins? ==> ValidStream(state) && Joining(false, mode, lefts, rights, n, out, lastKey)
      invariant !err.Joins? ==> JoinedUpTo(false, mode, lefts, rights, out, err)
    {
      KeyedNext(leftRows, i);
      if err.Joins? && leftRows[i].Keyed? {
        var left := leftRows[i].rec;
        if emitted && left.key < lastKey {
          JoiningFails(false, mode, lefts, rights, n, out, lastKey);
          err := LeftOrder;
        } else {
          out := StreamLeft(state, lefts, n, left, out);
          lastKey, emitted, n := left.key, true, n + 1;
        }
      }
    }
    if err.Joins? {
      JoiningEnds(false, mode, lefts, rights, out, lastKey);
    }
  }

  // The right side's producer: the keyed rows up to the first that steps backwards, which is its error.
  method SendRight<R>(rightRows: seq<Row<Tagged<R>>>) returns (sent: seq<Rec<Tagged<R>>>, failed: bool)
    ensures var rights := KeyedRows(rightRows, |rightRows|);
            sent == Sent(rights) && (failed <==> !Ascending(rights))
  {
    ghost var rights := KeyedRows(rightRows, |rightRows|);
    sent, failed := [], false;
    for i: nat := 0 to |rightRows|
      invariant !failed ==> sent == KeyedRows(rightRows, i) && Ascending(sent)
      invariant failed ==> !Ascending(rights) && sent == Sent(rights)
    {
      KeyedNext(rightRows, i);
      if !failed && rightRows[i].Keyed? {
        var rec := rightRows[i].rec;
        if sent != [] && rec.key < sent[|sent| - 1].key {
          failed := true;
          SentUpTo(rights, |sent|);
        } else {
          OneFurther(rights, |sent|);
          sent := sent + [rec];
        }
      }
    }
    if !failed {
      assert rights[..|rights|] == rights;
      SentUpTo(rights, |rights|);
    }
  }

  // What a streamed join sees of its right side.
  function Sent<V>(rights: seq<Rec<V>>): seq<Rec<V>>
  {
    rights[..AscendingLength(rights, 0)]
  }

  lemma {:induction false} SentUpTo<V>(rights: seq<Rec<V>>, n: nat)
    requires n <= |rights| && Ascending(rights[..n]) && (n < |rights| ==> n > 0 && rights[n].key < rights[n - 1].key)
    ensures Sent(rights) == rights[..n] && (n < |rights| ==> !Ascending(rights))
  {
    AscendingLengthEquals(rights, n);
  }

  lemma {:induction false} SentFits<L, R>(mode: Mode, lefts: seq<Rec<L>>, rights: seq<Rec<R>>)
    requires KeysFit(mode, lefts, rights)
    ensures KeysFit(mode, lefts, Sent(rights)) && Ascending(Sent(rights)) && (Ascending(rights) ==> Sent(rights) == rights)
  {
    AscendingLengthIs(rights, 0);
  }

  // A left-side error comes first; the right side's is seen if the producer got that far before it was stopped.
  ghost predicate StreamOutcome(joined: JoinErr, err: JoinErr, rightAscends: bool)
  {
    err == joined || (joined.Joins? && err == RightOrder && !rightAscends)
  }

  // MergeJoinExec: brute force, whichever way it runs. Of a right side that steps backwards a streamed join
  // joins the rows before that, a materialized one none.
  method Exec<L, R>(equi: bool, mode: Mode, leftRows: seq<Row<Tagged<L>>>, rightRows: seq<Row<Tagged<R>>>) returns (out: seq<Joined<L, R>>, err: JoinErr)
    requires equi || KeysFit(mode, KeyedRows(leftRows, |leftRows|), KeyedRows(rightRows, |rightRows|))
    ensures var lefts, rights := KeyedRows(leftRows, |leftRows|), KeyedRows(rightRows, |rightRows|);
            if Ascending(rights) then JoinedUpTo(equi, mode, lefts, rights, out, err)
            else if equi || !Streams(mode) then out == [] && err == RightOrder
            else exists joined :: JoinedUpTo(equi, mode, lefts, Sent(rights), out, joined) && StreamOutcome(joined, err, false)
  {
    if !equi && Streams(mode) {
      ghost var lefts, rights := KeyedRows(leftRows, |leftRows|), KeyedRows(rightRows, |rightRows|);
      SentFits(mode, lefts, rights);
      var sent, failed := SendRight(rightRows);
      var joined;
      out, joined := JoinStreamed(mode, leftRows, sent);
      err := joined;
      var reached: bool := *;
      if failed && reached && joined.Joins? {
        err := RightOrder;
      }
      assert JoinedUpTo(equi, mode, lefts, Sent(rights), out, joined) && StreamOutcome(joined, err, Ascending(rights));
    } else {
      var rights;
      rights, err := BuildRight(rightRows);
      if !err.Joins? {
        return [], err;
      }
      out, err := JoinMaterialized(equi, mode, leftRows, rights);
    }
  }
}
