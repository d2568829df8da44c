// engine/op_merge_join.go: the join against a materialized right side.
module MergeJoin {
  import opened MergeHeaps
  import opened MergeRows
  import opened AsofSpec
  import opened AsofIndex

  datatype JoinErr = Joins | LeftOrder | RightOrder

  // mergeJoinBuildRight: the right rows with a key, provided that they ascend.
  method BuildRight<R>(children: seq<Row<Tagged<R>>>) returns (rights: seq<Rec<Tagged<R>>>, err: JoinErr)
    ensures err == if Ascending(KeyedRows(children, |children|)) then Joins else RightOrder
    ensures err.Joins? ==> rights == KeyedRows(children, |children|)
  {
    rights, err := [], Joins;
    ghost var all := KeyedRows(children, |children|);
    for i: nat := 0 to |children|
      invariant err.Joins? || err.RightOrder?
      invariant err.Joins? ==> rights == KeyedRows(children, i) && Ascending(rights)
      invariant !err.Joins? ==> !Ascending(all)
    {
      KeyedNext(children, i);
      if err.Joins? && children[i].Keyed? {
        var r := children[i].rec;
        if |rights| > 0 && r.key < rights[|rights| - 1].key {
          assert all[|rights| - 1].key > all[|rights|].key;
          err := RightOrder;
        } else {
          if |rights| > 0 {
            AscendingLast(rights);
            AscendingExtends(rights, r);
          }
          rights := rights + [r];
        }
      }
    }
  }

  // partIdx: each partition's rows.
  method IndexParts<R>(mode: Mode, rights: seq<Rec<Tagged<R>>>) returns (partIdx: map<string, seq<nat>>)
    ensures forall pk :: At(partIdx, pk) == Indices(mode, rights, |rights|, pk)
  {
    partIdx := map[];
    for j: nat := 0 to |rights|
      invariant forall pk :: At(partIdx, pk) == Indices(mode, rights, j, pk)
    {
      var pk := PartOf(mode, rights[j]);
      partIdx := partIdx[pk := At(partIdx, pk) + [j]];
    }
  }

  function At(m: map<string, seq<nat>>, pk: string): seq<nat>
  {
    if pk in m then m[pk] else []
  }

  function CursorAt(m: map<string, nat>, pk: string): nat
  {
    if pk in m then m[pk] else 0
  }

  // held is each partition's last row among the first n.
  ghost predicate HoldsLast<R>(mode: Mode, rights: seq<Rec<Tagged<R>>>, n: nat, held: map<string, nat>)
    requires n <= |rights|
  {
    forall pk :: HoldsLastOf(mode, rights, n, held, pk)
  }

  ghost predicate HoldsLastOf<R>(mode: Mode, rights: seq<Rec<Tagged<R>>>, n: nat, held: map<string, nat>, pk: string)
    requires n <= |rights|
  {
    LastIn(mode, rights, n, pk) == if pk in held then held[pk] else -1
  }

  lemma {:induction false} HoldsLastNext<R>(mode: Mode, rights: seq<Rec<Tagged<R>>>, n: nat, held: map<string, nat>)
    requires n < |rights| && HoldsLast(mode, rights, n, held)
    ensures HoldsLast(mode, rights, n + 1, held[PartOf(mode, rights[n]) := n])
  {
    var m: nat, held' := n + 1, held[PartOf(mode, rights[n]) := n];
    forall pk ensures HoldsLastOf(mode, rights, m, held', pk) {
      assert HoldsLastOf(mode, rights, n, held, pk);
    }
  }

  // Each partition's cursor has only passed keys below k.
  ghost predicate CursorsBelow<R>(mode: Mode, rights: seq<Rec<Tagged<R>>>, held: map<string, nat>, k: Key)
  {
    forall pk :: CursorBelow(rights, Indices(mode, rights, |rights|, pk), CursorAt(held, pk), k)
  }

  ghost predicate CursorBelow<R>(rights: seq<Rec<Tagged<R>>>, idxs: seq<nat>, c: nat, k: Key)
  {
    c <= |idxs| && forall i :: 0 <= i < c ==> idxs[i] < |rights| && rights[idxs[i]].key < k
  }

  lemma {:induction false} CursorsNext<R>(mode: Mode, rights: seq<Rec<Tagged<R>>>, held: map<string, nat>, low: Key, pk: string, c: nat, k: Key)
    requires CursorsBelow(mode, rights, held, low) && low <= k
    requires CursorBelow(rights, Indices(mode, rights, |rights|, pk), c, k)
    ensures CursorsBelow(mode, rights, held[pk := c], k)
  {
    var held' := held[pk := c];
    forall p ensures CursorBelow(rights, Indices(mode, rights, |rights|, p), CursorAt(held', p), k) {
      assert CursorBelow(rights, Indices(mode, rights, |rights|, p), CursorAt(held, p), low);
    }
  }

  lemma {:induction false} CursorFinds<R>(mode: Mode, rights: seq<Rec<Tagged<R>>>, pk: string, c: nat, k: Key)
    requires CursorBelow(rights, Indices(mode, rights, |rights|, pk), c, k)
    requires c < |Indices(mode, rights, |rights|, pk)| ==> k <= rights[Indices(mode, rights, |rights|, pk)[c]].key
    ensures FirstFollowing(mode, rights, 0, pk, k) ==
            if c < |Indices(mode, rights, |rights|, pk)| then Indices(mode, rights, |rights|, pk)[c] else |rights|
  {
    IndexIsNearest(mode, rights, |rights|, pk, k, c);
  }

  // mergeJoinState
  class MergeJoinState<R> {
    const mode: Mode
    const rights: seq<Rec<Tagged<R>>>
    const partIdx: map<string, seq<nat>>
    // The forward position, the held row of an unpartitioned join, and each partition's held row or cursor.
    var rpos: nat
    var heldOne: int
    var held: map<string, nat>
    // No left key so far is above this.
    ghost var low: Key

    ghost predicate Valid()
      reads this
    {
      && Ascending(rights) && rpos <= |rights|
      && (forall pk :: At(partIdx, pk) == Indices(mode, rights, |rights|, pk))
    }

    ghost predicate ValidEqui()
      reads this
    {
      Valid() && forall j :: 0 <= j < rpos ==> rights[j].key < low
    }

    ghost predicate ValidPreceding()
      reads this
    {
      && Valid()
      && (forall j :: 0 <= j < rpos ==> rights[j].key <= low)
      && (if mode.partitioned then HoldsLast(mode, rights, rpos, held) else heldOne == rpos - 1)
    }

    ghost predicate ValidFollowing()
      reads this
    {
      && Valid()
      && (if mode.partitioned then CursorsBelow(mode, rights, held, low) else forall j :: 0 <= j < rpos ==> rights[j].key < low)
    }

    constructor (mode: Mode, rights: seq<Rec<Tagged<R>>>, partIdx: map<string, seq<nat>>)
      requires Ascending(rights) && forall pk :: At(partIdx, pk) == Indices(mode, rights, |rights|, pk)
      ensures this.mode == mode && this.rights == rights
      ensures ValidEqui() && ValidPreceding() && ValidFollowing() && low == MIN_INT64
    {
      this.mode, this.rights, this.partIdx := mode, rights, partIdx;
      rpos, heldOne, held, low := 0, -1, map[], MIN_INT64;
    }

    // mergeJoinStepEqui
    method StepEqui<L>(left: Rec<Tagged<L>>) returns (out: seq<Joined<L, R>>)
      requires ValidEqui() && low <= left.key
      modifies this`rpos, this`low
      ensures ValidEqui() && low == left.key && out == EquiRow(mode, rights, left)
      ensures EquiAnswer(mode, rights, left, out)
    {
      var k := left.key;
      while rpos < |rights| && rights[rpos].key < k
        invariant rpos <= |rights| && forall j :: 0 <= j < rpos ==> rights[j].key < k
      {
        rpos := rpos + 1;
      }
      low := k;
      out := [];
      NoneEqual(left, rights, rpos);
      var j: nat := rpos;
      while j < |rights| && rights[j].key == k
        invariant rpos <= j <= |rights| && out == Equal(left, rights, j)
      {
        out := out + [Joined(left.vals.vals, Some(rights[j].vals.vals))];
        j := j + 1;
      }
      NoMoreEqual(left, rights, j, |rights|);
      EquiRowAnswers(mode, rights, left);
      if out == [] && mode.outer {
        out := [Joined(left.vals.vals, None)];
      }
    }

    // mergeJoinWithinTolerance and mergeJoinWithinToleranceFwd, in int64.
    method WithinTolerance(k: Key, rightKey: Key) returns (ok: bool)
      requires mode.soft ==> KeysNear(k, rightKey)
      ensures ok == Within(mode, k, rightKey)
      ensures ok <==> !mode.soft || (if mode.following then rightKey <= k + mode.tolerance else k <= rightKey + mode.tolerance)
    {
      if !mode.soft {
        return true;
      }
      WrapFits(k - rightKey);
      WrapFits(rightKey - k);
      ok := Wrap(if mode.following then rightKey - k else k - rightKey) <= mode.tolerance;
    }

    // Emit beside right row j, if there is one within the tolerance.
    method Emit<L>(left: Rec<Tagged<L>>, j: int) returns (out: seq<Joined<L, R>>)
      requires DifferencesFit(mode, [left], rights) && j < |rights|
      ensures out == if 0 <= j && Within(mode, left.key, rights[j].key) then [Joined(left.vals.vals, Some(rights[j].vals.vals))] else Unmatched(mode, left)
    {
      if j >= 0 {
        assert [left][0].key == left.key;
        var ok := WithinTolerance(left.key, rights[j].key);
        if ok {
          return [Joined(left.vals.vals, Some(rights[j].vals.vals))];
        }
      }
      out := if mode.outer then [Joined(left.vals.vals, None)] else [];
    }

    // mergeJoinStepAsof
    method StepAsof<L>(left: Rec<Tagged<L>>) returns (out: seq<Joined<L, R>>)
      requires ValidPreceding() && low <= left.key && !mode.following && DifferencesFit(mode, [left], rights)
      modifies this`rpos, this`heldOne, this`held, this`low
      ensures ValidPreceding() && low == left.key && out == AsofRow(mode, rights, left)
      ensures AsofAnswer(mode, rights, left, out)
    {
      var j := -1;
      Absorb(left.key);
      HeldIsNearest(mode, rights, rpos, PartOf(mode, left), left.key);
      if mode.partitioned {
        var pk := PartOf(mode, left);
        assert HoldsLastOf(mode, rights, rpos, held, pk);
        if pk in held {
          j := held[pk];
        }
      } else {
        OnlyPart(mode, rights, rpos);
        j := heldOne;
      }
      AsofRowAnswers(mode, rights, left);
      out := Emit(left, j);
    }

    // Every right row up to k becomes the held one, of its partition or of all.
    method Absorb(k: Key)
      requires ValidPreceding() && low <= k
      modifies this`rpos, this`heldOne, this`held, this`low
      ensures ValidPreceding() && low == k && SplitAt(rights, rpos, k)
    {
      low := k;
      while rpos < |rights| && rights[rpos].key <= k
        invariant low == k && rpos <= |rights| && forall j :: 0 <= j < rpos ==> rights[j].key <= k
        invariant if mode.partitioned then HoldsLast(mode, rights, rpos, held) else heldOne == rpos - 1
        decreases |rights| - rpos
      {
        if mode.partitioned {
          HoldsLastNext(mode, rights, rpos, held);
          held := held[PartOf(mode, rights[rpos]) := rpos];
        } else {
          heldOne := rpos;
        }
        rpos := rpos + 1;
      }
    }

    // mergeJoinStepAsofFollowing; the row found may follow later left rows too.
    method StepAsofFollowing<L>(left: Rec<Tagged<L>>) returns (out: seq<Joined<L, R>>)
      requires ValidFollowing() && low <= left.key && mode.following && DifferencesFit(mode, [left], rights)
      modifies this`rpos, this`held, this`low
      ensures ValidFollowing() && low == left.key && out == AsofRow(mode, rights, left)
      ensures AsofAnswer(mode, rights, left, out)
    {
      var k, j := left.key, -1;
      if mode.partitioned {
        var pk := PartOf(mode, left);
        j := AdvanceCursor(pk, k);
      } else {
        while rpos < |rights| && rights[rpos].key < k
          invariant rpos <= |rights| && forall j :: 0 <= j < rpos ==> rights[j].key < k
        {
          rpos := rpos + 1;
        }
        CursorIsNearest(mode, rights, rpos, k);
        if rpos < |rights| {
          j := rpos;
        }
      }
      low := k;
      AsofRowAnswers(mode, rights, left);
      out := Emit(left, j);
    }

    method AdvanceCursor(pk: string, k: Key) returns (j: int)
      requires Valid() && mode.partitioned && CursorsBelow(mode, rights, held, low) && low <= k
      modifies this`held
      ensures CursorsBelow(mode, rights, held, k)
      ensures var f := FirstFollowing(mode, rights, 0, pk, k); j == if f < |rights| then f else -1
    {
      var idxs := At(partIdx, pk);
      var c := CursorAt(held, pk);
      assert CursorBelow(rights, Indices(mode, rights, |rights|, pk), c, low);
      while c < |idxs| && rights[idxs[c]].key < k
        invariant CursorBelow(rights, idxs, c, k)
      {
        c := c + 1;
      }
      CursorsNext(mode, rights, held, low, pk, c, k);
      CursorFinds(mode, rights, pk, c, k);
      held := held[pk := c];
      j := if c < |idxs| then idxs[c] else -1;
    }
  }

  lemma {:induction false} OnlyPart<R>(mode: Mode, rights: seq<Rec<Tagged<R>>>, n: nat)
    requires n <= |rights| && !mode.partitioned
    ensures LastIn(mode, rights, n, "") == n - 1
  {
  }

  lemma {:induction false} NoneEqual<L, R>(left: Rec<Tagged<L>>, rights: seq<Rec<Tagged<R>>>, n: nat)
    requires n <= |rights| && forall j :: 0 <= j < n ==> rights[j].key < left.key
    ensures Equal(left, rights, n) == []
    decreases n
  {
    if n > 0 {
      NoneEqual(left, rights, n - 1);
    }
  }

  lemma {:induction false} NoMoreEqual<L, R>(left: Rec<Tagged<L>>, rights: seq<Rec<Tagged<R>>>, j: nat, n: nat)
    requires j <= n <= |rights| && Ascending(rights) && (j < |rights| ==> left.key < rights[j].key)
    ensures Equal(left, rights, n) == Equal(left, rights, j)
    decreases n
  {
    if j < n {
      NoMoreEqual(left, rights, j, n - 1);
    }
  }
}
