// engine/op_merge_join.go: what an equi or ASOF join of two keyed inputs is, row by row.
module AsofSpec {
  import opened MergeHeaps
  import opened MergeRows

  datatype Opt<T> = None | Some(value: T)

  // A row's partition-key fields in canonical form, and the row.
  datatype Tagged<V> = Tagged(part: string, vals: V)

  // A left row beside a right one, or beside lenLabelsB MISSINGs.
  datatype Joined<L, R> = Joined(left: L, right: Opt<R>)

  datatype Mode = Mode(soft: bool, tolerance: Key, following: bool, partitioned: bool, outer: bool)

  function PartOf<V>(mode: Mode, r: Rec<Tagged<V>>): string
  {
    if mode.partitioned then r.vals.part else ""
  }

  function Unmatched<L, R>(mode: Mode, left: Rec<Tagged<L>>): seq<Joined<L, R>>
  {
    if mode.outer then [Joined(left.vals.vals, None)] else []
  }

  // ---------------------------------------------------------------- the equi join

  // The nested loop: every right row with the left row's key, in order.
  function Equal<L, R>(left: Rec<Tagged<L>>, rights: seq<Rec<Tagged<R>>>, n: nat): seq<Joined<L, R>>
    requires n <= |rights|
  {
    if n == 0 then []
    else Equal(left, rights, n - 1) + (if rights[n - 1].key == left.key then [Joined(left.vals.vals, Some(rights[n - 1].vals.vals))] else [])
  }

  // The right rows with the left row's key, each once and in order, beside it.
  ghost predicate EquiAnswer<L, R>(mode: Mode, rights: seq<Rec<Tagged<R>>>, left: Rec<Tagged<L>>, out: seq<Joined<L, R>>)
  {
    if forall i :: 0 <= i < |rights| ==> rights[i].key != left.key
    then out == if mode.outer then [Joined(left.vals.vals, None)] else []
    else exists idxs: seq<nat> :: EqualRows(left, rights, |rights|, idxs) && Beside(left, rights, idxs, out)
  }

  ghost predicate Beside<L, R>(left: Rec<Tagged<L>>, rights: seq<Rec<Tagged<R>>>, idxs: seq<nat>, out: seq<Joined<L, R>>)
  {
    |out| == |idxs| && forall k :: 0 <= k < |idxs| ==> idxs[k] < |rights| && out[k] == Joined(left.vals.vals, Some(rights[idxs[k]].vals.vals))
  }

  ghost predicate EqualRows<L, R>(left: Rec<Tagged<L>>, rights: seq<Rec<Tagged<R>>>, n: nat, idxs: seq<nat>)
    requires n <= |rights|
  {
    && (forall k, l :: 0 <= k < l < |idxs| ==> idxs[k] < idxs[l])
    && forall i: nat :: i in idxs <==> i < n && rights[i].key == left.key
  }

  lemma {:induction false} EqualIs<L, R>(left: Rec<Tagged<L>>, rights: seq<Rec<Tagged<R>>>, n: nat) returns (idxs: seq<nat>)
    requires n <= |rights|
    ensures EqualRows(left, rights, n, idxs) && Beside(left, rights, idxs, Equal(left, rights, n))
    decreases n
  {
    idxs := [];
    if n > 0 {
      idxs := EqualIs(left, rights, n - 1);
      if rights[n - 1].key == left.key {
        idxs := idxs + [n - 1];
      }
    }
  }

  lemma {:induction false} EquiRowAnswers<L, R>(mode: Mode, rights: seq<Rec<Tagged<R>>>, left: Rec<Tagged<L>>)
    ensures EquiAnswer(mode, rights, left, EquiRow(mode, rights, left))
  {
    var idxs := EqualIs(left, rights, |rights|);
    if idxs == [] {
      forall i: nat | i < |rights| ensures rights[i].key != left.key {
        assert i !in idxs;
      }
    } else {
      assert idxs[0] in idxs;
    }
  }

  function EquiRow<L, R>(mode: Mode, rights: seq<Rec<Tagged<R>>>, left: Rec<Tagged<L>>): seq<Joined<L, R>>
  {
    var matches := Equal(left, rights, |rights|);
    if matches == [] then Unmatched(mode, left) else matches
  }

  // ---------------------------------------------------------------- the ASOF join

  predicate Preceding<R>(mode: Mode, r: Rec<Tagged<R>>, pk: string, k: Key)
  {
    PartOf(mode, r) == pk && r.key <= k
  }

  predicate Following<R>(mode: Mode, r: Rec<Tagged<R>>, pk: string, k: Key)
  {
    PartOf(mode, r) == pk && k <= r.key
  }

  // Brute force: the last of the first n right rows that precedes, or -1.
  function LastPreceding<R>(mode: Mode, rights: seq<Rec<Tagged<R>>>, n: nat, pk: string, k: Key): (j: int)
    requires n <= |rights|
    ensures -1 <= j < n && (j >= 0 ==> Preceding(mode, rights[j], pk, k))
    ensures forall i :: j < i < n ==> !Preceding(mode, rights[i], pk, k)
  {
    if n == 0 then -1
    else if Preceding(mode, rights[n - 1], pk, k) then n - 1
    else LastPreceding(mode, rights, n - 1, pk, k)
  }

  // Brute force: the first right row from i on that follows, or their number.
  function FirstFollowing<R>(mode: Mode, rights: seq<Rec<Tagged<R>>>, i: nat, pk: string, k: Key): (j: int)
    requires i <= |rights|
    ensures i <= j <= |rights| && (j < |rights| ==> Following(mode, rights[j], pk, k))
    ensures forall t :: i <= t < j ==> !Following(mode, rights[t], pk, k)
    decreases |rights| - i
  {
    if i == |rights| then i
    else if Following(mode, rights[i], pk, k) then i
    else FirstFollowing(mode, rights, i + 1, pk, k)
  }

  function Nearest<R>(mode: Mode, rights: seq<Rec<Tagged<R>>>, pk: string, k: Key): (j: int)
    ensures 0 <= j < |rights| ==> PartOf(mode, rights[j]) == pk
  {
    if mode.following then FirstFollowing(mode, rights, 0, pk, k) else LastPreceding(mode, rights, |rights|, pk, k)
  }

  predicate Within(mode: Mode, k: Key, rightKey: Key)
  {
    mode.soft ==> (if mode.following then rightKey - k else k - rightKey) <= mode.tolerance
  }

  function AsofRow<L, R>(mode: Mode, rights: seq<Rec<Tagged<R>>>, left: Rec<Tagged<L>>): seq<Joined<L, R>>
  {
    var j := Nearest(mode, rights, PartOf(mode, left), left.key);
    if 0 <= j < |rights| && Within(mode, left.key, rights[j].key) then [Joined(left.vals.vals, Some(rights[j].vals.vals))]
    else Unmatched(mode, left)
  }

  // Right row j is the nearest of the left row's partition: the last at or below its key, or, following, the
  // first at or above it.
  ghost predicate IsNearest<L, R>(mode: Mode, rights: seq<Rec<Tagged<R>>>, left: Rec<Tagged<L>>, j: int)
  {
    && 0 <= j < |rights| && Joinable(mode, rights[j], left)
    && forall i :: 0 <= i < |rights| && Joinable(mode, rights[i], left) ==> if mode.following then j <= i else i <= j
  }

  ghost predicate Joinable<L, R>(mode: Mode, right: Rec<Tagged<R>>, left: Rec<Tagged<L>>)
  {
    && (mode.partitioned ==> right.vals.part == left.vals.part)
    && if mode.following then left.key <= right.key else right.key <= left.key
  }

  // The left row beside its nearest right row, if that is no further away than a soft join allows.
  ghost predicate AsofAnswer<L, R>(mode: Mode, rights: seq<Rec<Tagged<R>>>, left: Rec<Tagged<L>>, out: seq<Joined<L, R>>)
  {
    if j :| IsNearest(mode, rights, left, j) && (mode.soft && mode.following ==> rights[j].key - left.key <= mode.tolerance) &&
            (mode.soft && !mode.following ==> left.key - rights[j].key <= mode.tolerance)
    then out == [Joined(left.vals.vals, Some(rights[j].vals.vals))]
    else out == if mode.outer then [Joined(left.vals.vals, None)] else []
  }

  lemma {:induction false} AsofRowAnswers<L, R>(mode: Mode, rights: seq<Rec<Tagged<R>>>, left: Rec<Tagged<L>>)
    ensures AsofAnswer(mode, rights, left, AsofRow(mode, rights, left))
  {
    var j := Nearest(mode, rights, PartOf(mode, left), left.key);
    forall i | 0 <= i < |rights| ensures Joinable(mode, rights[i], left) <==>
      if mode.following then Following(mode, rights[i], PartOf(mode, left), left.key) else Preceding(mode, rights[i], PartOf(mode, left), left.key)
    {
    }
    if 0 <= j < |rights| {
      assert IsNearest(mode, rights, left, j);
    }
    forall i | IsNearest(mode, rights, left, i) ensures i == j {
    }
  }

  // ---------------------------------------------------------------- whole runs

  function RowOf<L, R>(equi: bool, mode: Mode, rights: seq<Rec<Tagged<R>>>, left: Rec<Tagged<L>>): seq<Joined<L, R>>
  {
    if equi then EquiRow(mode, rights, left) else AsofRow(mode, rights, left)
  }

  // The join of the first n left rows.
  function JoinOf<L, R>(equi: bool, mode: Mode, rights: seq<Rec<Tagged<R>>>, lefts: seq<Rec<Tagged<L>>>, n: nat): seq<Joined<L, R>>
    requires n <= |lefts|
  {
    if n == 0 then [] else JoinOf(equi, mode, rights, lefts, n - 1) + RowOf(equi, mode, rights, lefts[n - 1])
  }

  ghost predicate RowAnswer<L, R>(equi: bool, mode: Mode, rights: seq<Rec<Tagged<R>>>, left: Rec<Tagged<L>>, out: seq<Joined<L, R>>)
  {
    if equi then EquiAnswer(mode, rights, left, out) else AsofAnswer(mode, rights, left, out)
  }

  ghost predicate PartIs<L, R>(equi: bool, mode: Mode, rights: seq<Rec<Tagged<R>>>, lefts: seq<Rec<Tagged<L>>>, out: seq<Joined<L, R>>, ends: seq<nat>, i: nat)
  {
    && i < |lefts| && i + 1 < |ends| && ends[i] <= ends[i + 1] <= |out|
    && RowAnswer(equi, mode, rights, lefts[i], out[ends[i]..ends[i + 1]])
  }

  // Cut at ends, out is the left rows' answers one after the other.
  ghost predicate CutAt<L, R>(equi: bool, mode: Mode, rights: seq<Rec<Tagged<R>>>, lefts: seq<Rec<Tagged<L>>>, out: seq<Joined<L, R>>, ends: seq<nat>)
  {
    && |ends| == |lefts| + 1 && ends[0] == 0 && ends[|lefts|] == |out|
    && forall i: nat :: i < |lefts| ==> PartIs(equi, mode, rights, lefts, out, ends, i)
  }

  // Every left row's answer, in the order of the left rows.
  ghost predicate JoinAnswer<L, R>(equi: bool, mode: Mode, rights: seq<Rec<Tagged<R>>>, lefts: seq<Rec<Tagged<L>>>, out: seq<Joined<L, R>>)
  {
    exists ends: seq<nat> :: CutAt(equi, mode, rights, lefts, out, ends)
  }

  lemma {:induction false} CutFurther<L, R>(equi: bool, mode: Mode, rights: seq<Rec<Tagged<R>>>, lefts: seq<Rec<Tagged<L>>>, out: seq<Joined<L, R>>, ends: seq<nat>,
                                            left: Rec<Tagged<L>>, more: seq<Joined<L, R>>)
    requires CutAt(equi, mode, rights, lefts, out, ends) && RowAnswer(equi, mode, rights, left, more)
    ensures CutAt(equi, mode, rights, lefts + [left], out + more, ends + [|out| + |more|])
  {
    var lefts', out', ends' := lefts + [left], out + more, ends + [|out| + |more|];
    forall i: nat | i < |lefts'| ensures PartIs(equi, mode, rights, lefts', out', ends', i) {
      if i < |lefts| {
        PartStays(equi, mode, rights, lefts, out, ends, left, more, i);
      } else {
        assert (out + more)[|out|..|out| + |more|] == more;
      }
    }
  }

  lemma {:induction false} PartStays<L, R>(equi: bool, mode: Mode, rights: seq<Rec<Tagged<R>>>, lefts: seq<Rec<Tagged<L>>>, out: seq<Joined<L, R>>, ends: seq<nat>,
                                           left: Rec<Tagged<L>>, more: seq<Joined<L, R>>, i: nat)
    requires PartIs(equi, mode, rights, lefts, out, ends, i)
    ensures PartIs(equi, mode, rights, lefts + [left], out + more, ends + [|out| + |more|], i)
  {
    var ends' := ends + [|out| + |more|];
    assert ends'[i] == ends[i] && ends'[i + 1] == ends[i + 1] && (lefts + [left])[i] == lefts[i];
    assert (out + more)[ends[i]..ends[i + 1]] == out[ends[i]..ends[i + 1]];
  }

  lemma {:induction false} RowOfAnswers<L, R>(equi: bool, mode: Mode, rights: seq<Rec<Tagged<R>>>, left: Rec<Tagged<L>>)
    ensures RowAnswer(equi, mode, rights, left, RowOf(equi, mode, rights, left))
  {
    if equi {
      EquiRowAnswers(mode, rights, left);
    } else {
      AsofRowAnswers(mode, rights, left);
    }
  }

  lemma {:induction false} JoinAnswers<L, R>(equi: bool, mode: Mode, rights: seq<Rec<Tagged<R>>>, lefts: seq<Rec<Tagged<L>>>, n: nat)
    requires n <= |lefts|
    ensures JoinAnswer(equi, mode, rights, lefts[..n], JoinOf(equi, mode, rights, lefts, n))
    decreases n
  {
    if n == 0 {
      assert CutAt(equi, mode, rights, lefts[..0], JoinOf(equi, mode, rights, lefts, 0), [0]);
    } else {
      var before, more := JoinOf(equi, mode, rights, lefts, n - 1), RowOf(equi, mode, rights, lefts[n - 1]);
      JoinAnswers(equi, mode, rights, lefts, n - 1);
      var ends: seq<nat> :| CutAt(equi, mode, rights, lefts[..n - 1], before, ends);
      RowOfAnswers(equi, mode, rights, lefts[n - 1]);
      CutFurther(equi, mode, rights, lefts[..n - 1], before, ends, lefts[n - 1], more);
      assert lefts[..n] == lefts[..n - 1] + [lefts[n - 1]];
    }
  }

  // The left rows up to the first that steps backwards.
  function AscendingLength<V>(s: seq<Rec<V>>, i: nat): (n: nat)
    requires i <= |s|
    ensures i <= n <= |s|
    decreases |s| - i
  {
    if i == |s| || (i > 0 && s[i].key < s[i - 1].key) then i else AscendingLength(s, i + 1)
  }

  lemma OneFurther<V>(s: seq<Rec<V>>, i: nat)
    requires i < |s| && Ascending(s[..i]) && (i > 0 ==> s[i - 1].key <= s[i].key)
    ensures Ascending(s[..i + 1])
  {
    assert s[..i + 1] == s[..i] + [s[i]];
    if i > 0 {
      AscendingLast(s[..i]);
      AscendingExtends(s[..i], s[i]);
    }
  }

  lemma {:induction false} AscendingLengthIs<V>(s: seq<Rec<V>>, i: nat)
    requires i <= |s| && Ascending(s[..i])
    ensures var n := AscendingLength(s, i);
            Ascending(s[..n]) && (n < |s| ==> !Ascending(s[..n + 1]))
    decreases |s| - i
  {
    if i < |s| {
      if i > 0 && s[i].key < s[i - 1].key {
        assert s[..i + 1][i - 1].key > s[..i + 1][i].key;
      } else {
        OneFurther(s, i);
        AscendingLengthIs(s, i + 1);
      }
    }
  }

  // Under a tolerance, keys whose differences fit int64; nothing is subtracted otherwise.
  ghost predicate DifferencesFit<L, R>(mode: Mode, lefts: seq<Rec<L>>, rights: seq<Rec<R>>)
  {
    mode.soft ==> forall i, j :: 0 <= i < |lefts| && 0 <= j < |rights| ==> KeysNear(lefts[i].key, rights[j].key)
  }

  predicate KeysNear(k: Key, h: Key)
  {
    MIN_INT64 <= k - h <= MAX_INT64 && MIN_INT64 <= h - k <= MAX_INT64
  }

  // What the streamed join needs: its queues only add the tolerance to the left key.
  ghost predicate KeysFit<L, R>(mode: Mode, lefts: seq<Rec<L>>, rights: seq<Rec<R>>)
  {
    if mode.following && mode.partitioned
    then mode.soft ==> forall i :: 0 <= i < |lefts| ==> MIN_INT64 <= lefts[i].key + mode.tolerance <= MAX_INT64
    else DifferencesFit(mode, lefts, rights)
  }

  lemma WrapFits(x: int)
    requires MIN_INT64 <= x <= MAX_INT64
    ensures Wrap(x) == x
  {
  }
}
