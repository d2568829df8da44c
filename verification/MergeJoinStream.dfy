// engine/op_merge_join.go: the ASOF join that co-advances a right stream instead of materializing it.
module MergeJoinStream {
  import opened MergeHeaps
  import opened MergeRows
  import opened AsofSpec
  import opened AsofIndex
  import opened MergeJoin

  // ---------------------------------------------------------------- held rows

  // held is each partition's last row among the n consumed.
  ghost predicate HoldsRows<R>(mode: Mode, rights: seq<Rec<Tagged<R>>>, n: nat, held: map<string, Rec<Tagged<R>>>)
    requires n <= |rights|
  {
    forall pk :: HoldsRowOf(mode, rights, n, held, pk)
  }

  ghost predicate HoldsRowOf<R>(mode: Mode, rights: seq<Rec<Tagged<R>>>, n: nat, held: map<string, Rec<Tagged<R>>>, pk: string)
    requires n <= |rights|
  {
    var j := LastIn(mode, rights, n, pk);
    if pk in held then j >= 0 && held[pk] == rights[j] else j == -1
  }

  lemma {:induction false} HoldsRowsNext<R>(mode: Mode, rights: seq<Rec<Tagged<R>>>, n: nat, held: map<string, Rec<Tagged<R>>>)
    requires n < |rights| && HoldsRows(mode, rights, n, held)
    ensures HoldsRows(mode, rights, n + 1, held[PartOf(mode, rights[n]) := rights[n]])
  {
    var m: nat, held' := n + 1, held[PartOf(mode, rights[n]) := rights[n]];
    forall pk ensures HoldsRowOf(mode, rights, m, held', pk) {
      assert HoldsRowOf(mode, rights, n, held, pk);
    }
  }

  // ---------------------------------------------------------------- pending queues

  function QueueAt<R>(pend: map<string, seq<Rec<Tagged<R>>>>, pk: string): seq<Rec<Tagged<R>>>
  {
    if pk in pend then pend[pk] else []
  }

  // A queue is its partition's consumed rows less some that are below k.
  ghost predicate QueueOk<R>(rights: seq<Rec<Tagged<R>>>, idxs: seq<nat>, q: seq<Rec<Tagged<R>>>, k: Key)
  {
    && (forall i :: 0 <= i < |idxs| ==> idxs[i] < |rights|)
    && |q| <= |idxs|
    && (forall i :: 0 <= i < |q| ==> q[i] == rights[idxs[|idxs| - |q| + i]])
    && (forall i :: 0 <= i < |idxs| - |q| ==> rights[idxs[i]].key < k)
  }

  ghost predicate QueuesOk<R>(mode: Mode, rights: seq<Rec<Tagged<R>>>, n: nat, pend: map<string, seq<Rec<Tagged<R>>>>, k: Key)
    requires n <= |rights|
  {
    forall pk {:trigger QueueAt(pend, pk)} {:trigger QueueOkAt(mode, rights, n, pend, k, pk)} :: QueueOkAt(mode, rights, n, pend, k, pk)
  }

  ghost predicate QueueOkAt<R>(mode: Mode, rights: seq<Rec<Tagged<R>>>, n: nat, pend: map<string, seq<Rec<Tagged<R>>>>, k: Key, pk: string)
    requires n <= |rights|
  {
    QueueOk(rights, Indices(mode, rights, n, pk), QueueAt(pend, pk), k)
  }

  lemma {:induction false} Enqueue<R>(mode: Mode, rights: seq<Rec<Tagged<R>>>, n: nat, pend: map<string, seq<Rec<Tagged<R>>>>, k: Key, part: string, pend': map<string, seq<Rec<Tagged<R>>>>)
    requires n < |rights| && QueuesOk(mode, rights, n, pend, k)
    requires part == PartOf(mode, rights[n]) && pend' == pend[part := QueueAt(pend, part) + [rights[n]]]
    ensures QueuesOk(mode, rights, n + 1, pend', k)
  {
    var m: nat := n + 1;
    forall pk ensures QueueOkAt(mode, rights, m, pend', k, pk) {
      assert QueueOkAt(mode, rights, n, pend, k, pk);
      EnqueueAt(mode, rights, n, pend, k, pk);
    }
  }

  lemma {:induction false} EnqueueAt<R>(mode: Mode, rights: seq<Rec<Tagged<R>>>, n: nat, pend: map<string, seq<Rec<Tagged<R>>>>, k: Key, pk: string)
    requires n < |rights| && QueueOkAt(mode, rights, n, pend, k, pk)
    ensures var part := PartOf(mode, rights[n]); QueueOkAt(mode, rights, n + 1, pend[part := QueueAt(pend, part) + [rights[n]]], k, pk)
  {
    var part, idxs := PartOf(mode, rights[n]), Indices(mode, rights, n, pk);
    var pend' := pend[part := QueueAt(pend, part) + [rights[n]]];
    if pk == part {
      EnqueueOne(rights, idxs, QueueAt(pend, pk), k, n);
      assert QueueAt(pend', pk) == QueueAt(pend, pk) + [rights[n]];
      assert Indices(mode, rights, n + 1, pk) == idxs + [n];
    } else {
      assert QueueAt(pend', pk) == QueueAt(pend, pk);
      assert Indices(mode, rights, n + 1, pk) == idxs;
    }
  }

  lemma {:induction false} EnqueueOne<R>(rights: seq<Rec<Tagged<R>>>, idxs: seq<nat>, q: seq<Rec<Tagged<R>>>, k: Key, n: nat)
    requires n < |rights| && QueueOk(rights, idxs, q, k)
    ensures QueueOk(rights, idxs + [n], q + [rights[n]], k)
  {
  }

  lemma {:induction false} PruneOne<R>(rights: seq<Rec<Tagged<R>>>, idxs: seq<nat>, q: seq<Rec<Tagged<R>>>, k: Key, d: nat)
    requires QueueOk(rights, idxs, q, k) && d <= |q| && forall i :: 0 <= i < d ==> q[i].key < k
    ensures QueueOk(rights, idxs, q[d..], k)
  {
    var q' := q[d..];
    forall i | 0 <= i < |idxs| - |q'| ensures rights[idxs[i]].key < k {
      if i >= |idxs| - |q| {
        assert q[i - (|idxs| - |q|)] == rights[idxs[i]];
      }
    }
  }

  lemma {:induction false} QueuesLater<R>(mode: Mode, rights: seq<Rec<Tagged<R>>>, n: nat, pend: map<string, seq<Rec<Tagged<R>>>>, low: Key, k: Key)
    requires n <= |rights| && QueuesOk(mode, rights, n, pend, low) && low <= k
    ensures QueuesOk(mode, rights, n, pend, k)
  {
    forall pk ensures QueueOkAt(mode, rights, n, pend, k, pk) {
      assert QueueOkAt(mode, rights, n, pend, low, pk);
      QueueLater(rights, Indices(mode, rights, n, pk), QueueAt(pend, pk), low, k);
    }
  }

  lemma {:induction false} QueueLater<R>(rights: seq<Rec<Tagged<R>>>, idxs: seq<nat>, q: seq<Rec<Tagged<R>>>, low: Key, k: Key)
    requires QueueOk(rights, idxs, q, low) && low <= k
    ensures QueueOk(rights, idxs, q, k)
  {
  }

  lemma {:induction false} QueuesPruned<R>(mode: Mode, rights: seq<Rec<Tagged<R>>>, n: nat, pend: map<string, seq<Rec<Tagged<R>>>>, k: Key, p: string, d: nat)
    requires n <= |rights| && QueuesOk(mode, rights, n, pend, k) && p in pend && d <= |pend[p]|
    requires forall i :: 0 <= i < d ==> pend[p][i].key < k
    ensures QueuesOk(mode, rights, n, pend[p := pend[p][d..]], k)
  {
    var pend' := pend[p := pend[p][d..]];
    forall pk ensures QueueOkAt(mode, rights, n, pend', k, pk) {
      assert QueueOkAt(mode, rights, n, pend, k, pk);
      if pk == p {
        PruneOne(rights, Indices(mode, rights, n, pk), pend[p], k, d);
      }
    }
  }

  // The front of a pruned queue is the nearest following row; with none, that row is not consumed yet.
  lemma {:induction false} FrontIsNearest<R>(mode: Mode, rights: seq<Rec<Tagged<R>>>, n: nat, pk: string, k: Key, q: seq<Rec<Tagged<R>>>)
    requires n <= |rights| && QueueOk(rights, Indices(mode, rights, n, pk), q, k) && (q != [] ==> k <= q[0].key)
    ensures var f := FirstFollowing(mode, rights, 0, pk, k);
            if q != [] then f < n && rights[f] == q[0] else f >= n
  {
    var idxs := Indices(mode, rights, n, pk);
    var c: nat := |idxs| - |q|;
    IndexIsNearest(mode, rights, n, pk, k, c);
  }

  ghost predicate FrontFrom<R>(q: seq<Rec<Tagged<R>>>, k: Key)
  {
    q != [] ==> k <= q[0].key
  }

  // What a pruned queue yields for a left row, when every row up to the tolerance has been consumed.
  lemma {:induction false} QueueGivesRow<L, R>(mode: Mode, rights: seq<Rec<Tagged<R>>>, n: nat, pend: map<string, seq<Rec<Tagged<R>>>>, left: Rec<Tagged<L>>)
    requires n <= |rights| && mode.following && mode.soft && QueuesOk(mode, rights, n, pend, left.key)
    requires forall j :: 0 <= j < n ==> rights[j].key <= left.key + mode.tolerance
    requires forall j :: n <= j < |rights| ==> rights[j].key > left.key + mode.tolerance
    requires FrontFrom(QueueAt(pend, PartOf(mode, left)), left.key)
    ensures var q := QueueAt(pend, PartOf(mode, left));
            AsofRow(mode, rights, left) == if q != [] then [Joined(left.vals.vals, Some(q[0].vals.vals))] else Unmatched(mode, left)
  {
    var pk := PartOf(mode, left);
    var q := QueueAt(pend, pk);
    assert QueueOkAt(mode, rights, n, pend, left.key, pk);
    FrontIsNearest(mode, rights, n, pk, left.key, q);
  }

  // ---------------------------------------------------------------- the streamed join

  class StreamJoin<R> {
    const mode: Mode
    // What the right cursor will deliver, and how much of it was consumed.
    const rights: seq<Rec<Tagged<R>>>
    var ri: nat
    var held: map<string, Rec<Tagged<R>>>
    var pend: map<string, seq<Rec<Tagged<R>>>>
    ghost var low: Key

    ghost predicate Valid()
      reads this
    {
      Ascending(rights) && ri <= |rights|
    }

    ghost predicate ValidPreceding()
      reads this
    {
      Valid() && (forall j :: 0 <= j < ri ==> rights[j].key <= low) && HoldsRows(mode, rights, ri, held)
    }

    ghost predicate ValidFollowing()
      reads this
    {
      Valid() && forall j :: 0 <= j < ri ==> rights[j].key < low
    }

    ghost predicate ValidQueues()
      reads this
    {
      && Valid()
      && (forall j :: 0 <= j < ri ==> rights[j].key <= low + mode.tolerance)
      && QueuesOk(mode, rights, ri, pend, low)
    }

    constructor (mode: Mode, rights: seq<Rec<Tagged<R>>>)
      requires Ascending(rights)
      ensures this.mode == mode && this.rights == rights && low == MIN_INT64
      ensures ValidPreceding() && ValidFollowing() && ValidQueues()
    {
      this.mode, this.rights := mode, rights;
      ri, held, pend, low := 0, map[], map[], MIN_INT64;
    }

    method Emit<L>(left: Rec<Tagged<L>>, found: Opt<Rec<Tagged<R>>>) returns (out: seq<Joined<L, R>>)
      requires mode.soft && found.Some? ==> KeysNear(left.key, found.value.key)
      ensures out == if found.Some? && Within(mode, left.key, found.value.key) then [Joined(left.vals.vals, Some(found.value.vals.vals))] else Unmatched(mode, left)
    {
      if found.Some? {
        var k, h := left.key, found.value.key;
        if mode.soft {
          WrapFits(k - h);
          WrapFits(h - k);
        }
        if !mode.soft || Wrap(if mode.following then h - k else k - h) <= mode.tolerance {
          return [Joined(left.vals.vals, Some(found.value.vals.vals))];
        }
      }
      out := if mode.outer then [Joined(left.vals.vals, None)] else [];
    }

    // Nearest preceding, in partitions or not: absorb every right row up to k.
    method StepPreceding<L>(left: Rec<Tagged<L>>) returns (out: seq<Joined<L, R>>)
      requires ValidPreceding() && low <= left.key && !mode.following && KeysFit(mode, [left], rights)
      modifies this`ri, this`held, this`low
      ensures ValidPreceding() && low == left.key && out == AsofRow(mode, rights, left)
      ensures AsofAnswer(mode, rights, left, out)
    {
      var k, pk := left.key, PartOf(mode, left);
      var n: nat, h := ri, held;
      while n < |rights| && rights[n].key <= k
        invariant n <= |rights| && HoldsRows(mode, rights, n, h)
        invariant forall j :: 0 <= j < n ==> rights[j].key <= k
      {
        HoldsRowsNext(mode, rights, n, h);
        h := h[PartOf(mode, rights[n]) := rights[n]];
        n := n + 1;
      }
      HeldIsNearest(mode, rights, n, pk, k);
      assert HoldsRowOf(mode, rights, n, h, pk);
      assert [left][0].key == k;
      ri, held, low := n, h, k;
      AsofRowAnswers(mode, rights, left);
      out := Emit(left, if pk in h then Some(h[pk]) else None);
    }

    // Nearest following without partitions: the row stays pending for later left rows.
    method StepFollowing<L>(left: Rec<Tagged<L>>) returns (out: seq<Joined<L, R>>)
      requires ValidFollowing() && low <= left.key && mode.following && !mode.partitioned && KeysFit(mode, [left], rights)
      modifies this`ri, this`low
      ensures ValidFollowing() && low == left.key && out == AsofRow(mode, rights, left)
      ensures AsofAnswer(mode, rights, left, out)
    {
      var k := left.key;
      low := k;
      while ri < |rights| && rights[ri].key < k
        invariant low == k && ValidFollowing()
        decreases |rights| - ri
      {
        ri := ri + 1;
      }
      CursorIsNearest(mode, rights, ri, k);
      assert [left][0].key == k;
      AsofRowAnswers(mode, rights, left);
      out := Emit(left, if ri < |rights| then Some(rights[ri]) else None);
    }

    // Soft nearest following in partitions: queue what is within the tolerance, prune what is behind.
    method StepQueues<L>(left: Rec<Tagged<L>>) returns (out: seq<Joined<L, R>>)
      requires ValidQueues() && low <= left.key && mode.following && mode.partitioned && mode.soft && KeysFit(mode, [left], rights)
      modifies this`ri, this`pend, this`low
      ensures ValidQueues() && low == left.key && out == AsofRow(mode, rights, left)
      ensures AsofAnswer(mode, rights, left, out)
    {
      var k := left.key;
      assert [left][0].key == k;
      QueuesLater(mode, rights, ri, pend, low, k);
      low := k;
      WrapFits(k + mode.tolerance);
      EnqueueTo(Wrap(k + mode.tolerance));
      Prune(k);
      var q := QueueAt(pend, PartOf(mode, left));
      QueueGivesRow(mode, rights, ri, pend, left);
      AsofRowAnswers(mode, rights, left);
      if q != [] {
        out := [Joined(left.vals.vals, Some(q[0].vals.vals))];
      } else {
        out := if mode.outer then [Joined(left.vals.vals, None)] else [];
      }
    }

    method EnqueueTo(limit: Key)
      requires ValidQueues() && limit == low + mode.tolerance
      modifies this`ri, this`pend
      ensures ValidQueues() && forall j :: ri <= j < |rights| ==> rights[j].key > limit
    {
      while ri < |rights| && rights[ri].key <= limit
        invariant low == old(low) && ri <= |rights| && QueuesOk(mode, rights, ri, pend, low)
        invariant forall j :: 0 <= j < ri ==> rights[j].key <= limit
        decreases |rights| - ri
      {
        EnqueueNext();
      }
    }

    method EnqueueNext()
      requires ri < |rights| && QueuesOk(mode, rights, ri, pend, low)
      modifies this`ri, this`pend
      ensures ri == old(ri) + 1 && QueuesOk(mode, rights, ri, pend, low)
    {
      var part := PartOf(mode, rights[ri]);
      var pend' := pend[part := QueueAt(pend, part) + [rights[ri]]];
      Enqueue(mode, rights, ri, pend, low, part, pend');
      pend, ri := pend', ri + 1;
    }

    // Every queue loses the keys that are now behind k.
    method Prune(k: Key)
      requires ri <= |rights| && QueuesOk(mode, rights, ri, pend, k)
      modifies this`pend
      ensures QueuesOk(mode, rights, ri, pend, k)
      ensures forall pk :: FrontFrom(QueueAt(pend, pk), k)
    {
      var todo := pend.Keys;
      while todo != {}
        invariant QueuesOk(mode, rights, ri, pend, k) && todo <= pend.Keys
        invariant forall pk :: pk !in todo ==> FrontFrom(QueueAt(pend, pk), k)
        decreases |todo|
      {
        var p :| p in todo;
        PruneQueue(p, k);
        todo := todo - {p};
      }
    }

    method PruneQueue(p: string, k: Key)
      requires ri <= |rights| && QueuesOk(mode, rights, ri, pend, k) && p in pend
      modifies this`pend
      ensures QueuesOk(mode, rights, ri, pend, k) && pend.Keys == old(pend.Keys)
      ensures FrontFrom(QueueAt(pend, p), k)
      ensures forall pk :: pk != p ==> QueueAt(pend, pk) == old(QueueAt(pend, pk))
    {
      var q, i: nat := pend[p], 0;
      while i < |q| && q[i].key < k
        invariant i <= |q| && forall j :: 0 <= j < i ==> q[j].key < k
      {
        i := i + 1;
      }
      if i > 0 {
        QueuesPruned(mode, rights, ri, pend, k, p, i);
        pend := pend[p := q[i..]];
      }
    }
  }
}
