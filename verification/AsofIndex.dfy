// engine/op_merge_join.go: why a forward cursor, a held row or a queue finds the nearest right row.
module AsofIndex {
  import opened MergeHeaps
  import opened MergeRows
  import opened AsofSpec

  // The last of the first n right rows in a partition, or -1: what the held state is.
  function LastIn<R>(mode: Mode, rights: seq<Rec<Tagged<R>>>, n: nat, pk: string): (j: int)
    requires n <= |rights|
    ensures -1 <= j < n && (j >= 0 ==> PartOf(mode, rights[j]) == pk)
    ensures forall i :: j < i < n ==> PartOf(mode, rights[i]) != pk
  {
    if n == 0 then -1 else if PartOf(mode, rights[n - 1]) == pk then n - 1 else LastIn(mode, rights, n - 1, pk)
  }

  // The first n rows are at most k, and the others are above it.
  ghost predicate SplitAt<V>(rights: seq<Rec<V>>, n: nat, k: Key)
  {
    && n <= |rights|
    && (forall j :: 0 <= j < n ==> rights[j].key <= k)
    && (forall j :: n <= j < |rights| ==> k < rights[j].key)
  }

  ghost predicate SplitBelow<V>(rights: seq<Rec<V>>, n: nat, k: Key)
  {
    && n <= |rights|
    && (forall j :: 0 <= j < n ==> rights[j].key < k)
    && (forall j :: n <= j < |rights| ==> k <= rights[j].key)
  }

  // Once every row up to k is absorbed, the held row is the nearest preceding one.
  lemma {:induction false} HeldIsNearest<R>(mode: Mode, rights: seq<Rec<Tagged<R>>>, n: nat, pk: string, k: Key)
    requires SplitAt(rights, n, k)
    ensures LastPreceding(mode, rights, |rights|, pk, k) == LastIn(mode, rights, n, pk)
  {
    var p, h := LastPreceding(mode, rights, |rights|, pk, k), LastIn(mode, rights, n, pk);
    assert h >= 0 ==> Preceding(mode, rights[h], pk, k);
    assert p >= 0 ==> p < n;
  }

  // Without partitions the first row that is not below k is the nearest following one.
  lemma {:induction false} CursorIsNearest<R>(mode: Mode, rights: seq<Rec<Tagged<R>>>, n: nat, k: Key)
    requires SplitBelow(rights, n, k) && !mode.partitioned
    ensures FirstFollowing(mode, rights, 0, "", k) == n
  {
    var f := FirstFollowing(mode, rights, 0, "", k);
    assert n < |rights| ==> Following(mode, rights[n], "", k);
  }

  // ---------------------------------------------------------------- one partition's rows

  // The positions of a partition's rows among the first n, ascending.
  function Indices<R>(mode: Mode, rights: seq<Rec<Tagged<R>>>, n: nat, pk: string): (idxs: seq<nat>)
    requires n <= |rights|
    ensures |idxs| <= n && forall i :: 0 <= i < |idxs| ==> idxs[i] < n && PartOf(mode, rights[idxs[i]]) == pk
  {
    if n == 0 then []
    else Indices(mode, rights, n - 1, pk) + (if PartOf(mode, rights[n - 1]) == pk then [n - 1] else [])
  }

  lemma {:induction false} IndicesAscend<R>(mode: Mode, rights: seq<Rec<Tagged<R>>>, n: nat, pk: string, i: nat, j: nat)
    requires n <= |rights| && i < j < |Indices(mode, rights, n, pk)|
    ensures Indices(mode, rights, n, pk)[i] < Indices(mode, rights, n, pk)[j]
    decreases n
  {
    var rest, idxs := Indices(mode, rights, n - 1, pk), Indices(mode, rights, n, pk);
    if j < |rest| {
      IndicesAscend(mode, rights, n - 1, pk, i, j);
    } else {
      assert idxs == rest + [n - 1];
    }
  }

  lemma {:induction false} IndicesHold<R>(mode: Mode, rights: seq<Rec<Tagged<R>>>, n: nat, pk: string, t: nat)
    requires t < n <= |rights| && PartOf(mode, rights[t]) == pk
    ensures t in Indices(mode, rights, n, pk)
    decreases n
  {
    if t < n - 1 {
      IndicesHold(mode, rights, n - 1, pk, t);
    }
  }

  // A cursor c into those positions, past the keys below k and no further, finds the nearest following
  // row, if it is among the first n.
  lemma {:induction false} IndexIsNearest<R>(mode: Mode, rights: seq<Rec<Tagged<R>>>, n: nat, pk: string, k: Key, c: nat)
    requires n <= |rights| && c <= |Indices(mode, rights, n, pk)|
    requires forall i :: 0 <= i < c ==> rights[Indices(mode, rights, n, pk)[i]].key < k
    requires c < |Indices(mode, rights, n, pk)| ==> k <= rights[Indices(mode, rights, n, pk)[c]].key
    ensures var idxs, f := Indices(mode, rights, n, pk), FirstFollowing(mode, rights, 0, pk, k);
            if c < |idxs| then f == idxs[c] else f == FirstFollowing(mode, rights, n, pk, k)
  {
    var idxs, f := Indices(mode, rights, n, pk), FirstFollowing(mode, rights, 0, pk, k);
    var stop := if c < |idxs| then idxs[c] else n;
    forall t | 0 <= t < stop ensures !Following(mode, rights[t], pk, k) {
      NotBeforeCursor(mode, rights, n, pk, k, c, t);
    }
    if c < |idxs| {
      assert Following(mode, rights[idxs[c]], pk, k);
    } else {
      var g := FirstFollowing(mode, rights, n, pk, k);
      assert g < |rights| ==> Following(mode, rights[g], pk, k);
    }
  }

  lemma {:induction false} NotBeforeCursor<R>(mode: Mode, rights: seq<Rec<Tagged<R>>>, n: nat, pk: string, k: Key, c: nat, t: nat)
    requires n <= |rights| && c <= |Indices(mode, rights, n, pk)|
    requires forall i :: 0 <= i < c ==> rights[Indices(mode, rights, n, pk)[i]].key < k
    requires t < if c < |Indices(mode, rights, n, pk)| then Indices(mode, rights, n, pk)[c] else n
    ensures !Following(mode, rights[t], pk, k)
  {
    var idxs := Indices(mode, rights, n, pk);
    if PartOf(mode, rights[t]) == pk {
      IndicesHold(mode, rights, n, pk, t);
      var i :| 0 <= i < |idxs| && idxs[i] == t;
      if c < i {
        IndicesAscend(mode, rights, n, pk, c, i);
      }
    }
  }
}
