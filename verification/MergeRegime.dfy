// engine/op_merge_scan.go: which regime the merge takes, and the back-to-back one.
module MergeRegime {
  import opened MergeHeaps
  import opened MergeRows
  import opened MergeScan

  function KeyedAll<V>(children: seq<seq<Row<V>>>): (r: seq<seq<Rec<V>>>)
    ensures |r| == |children|
  {
    seq(|children|, c requires 0 <= c < |children| => KeyedRows(children[c], |children[c]|))
  }

  // The first k children one after the other.
  function Flat<V>(keyed: seq<seq<Rec<V>>>, k: nat): seq<Rec<V>>
    requires k <= |keyed|
  {
    if k == 0 then [] else Flat(keyed, k - 1) + keyed[k - 1]
  }

  lemma PrefixStaysAscending<V>(a: seq<Rec<V>>, b: seq<Rec<V>>)
    requires Prefix(a, b) && Ascending(b)
    ensures Ascending(a)
  {
  }

  lemma PrefixOfPrefix<T>(a: seq<T>, b: seq<T>, c: seq<T>)
    requires Prefix(a, b) && Prefix(b, c)
    ensures Prefix(a, c)
  {
  }

  lemma PrefixAppends<T>(a: seq<T>, b: seq<T>, c: seq<T>)
    requires Prefix(b, c)
    ensures Prefix(a + b, a + c)
  {
  }

  lemma {:induction false} FlatPrefix<V>(keyed: seq<seq<Rec<V>>>, i: nat, k: nat)
    requires i <= k <= |keyed|
    ensures Prefix(Flat(keyed, i), Flat(keyed, k))
    decreases k
  {
    if i < k {
      FlatPrefix(keyed, i, k - 1);
    }
  }

  lemma {:induction false} SoFarIsPrefix<V>(children: seq<seq<Row<V>>>, i: nat, j: nat)
    requires i < |children| && j <= |children[i]|
    ensures Prefix(Flat(KeyedAll(children), i) + KeyedRows(children[i], j), Flat(KeyedAll(children), |children|))
  {
    var keyed := KeyedAll(children);
    KeyedRowsPrefix(children[i], j, |children[i]|);
    PrefixAppends(Flat(keyed, i), KeyedRows(children[i], j), keyed[i]);
    FlatPrefix(keyed, i + 1, |keyed|);
    PrefixOfPrefix(Flat(keyed, i) + KeyedRows(children[i], j), Flat(keyed, i + 1), Flat(keyed, |keyed|));
  }

  // The state after j rows of child i.
  ghost predicate Concatenating<V>(children: seq<seq<Row<V>>>, i: nat, j: nat, out: seq<Rec<V>>, ok: bool, lastKey: Key, emitted: bool)
    requires i < |children| && j <= |children[i]|
  {
    && Ascending(out)
    && (emitted <==> |out| > 0)
    && (emitted ==> lastKey == out[|out| - 1].key)
    && (ok ==> out == Flat(KeyedAll(children), i) + KeyedRows(children[i], j))
    && (!ok ==> Prefix(out, Flat(KeyedAll(children), |children|)) && !Ascending(Flat(KeyedAll(children), |children|)))
  }

  // A row below the last one yielded means that the children's concatenation is not ascending.
  lemma {:induction false} TripwireIsRight<V>(children: seq<seq<Row<V>>>, i: nat, j: nat, out: seq<Rec<V>>, lastKey: Key)
    requires i < |children| && j < |children[i]| && children[i][j].Keyed? && children[i][j].rec.key < lastKey
    requires Concatenating(children, i, j, out, true, lastKey, true)
    ensures Concatenating(children, i, j + 1, out, false, lastKey, true)
  {
    var rec := children[i][j].rec;
    var all := Flat(KeyedAll(children), |children|);
    SoFarIsPrefix(children, i, j);
    SoFarIsPrefix(children, i, j + 1);
    assert Flat(KeyedAll(children), i) + KeyedRows(children[i], j + 1) == out + [rec];
    assert !Ascending(out + [rec]) by {
      assert (out + [rec])[|out| - 1].key > (out + [rec])[|out|].key;
    }
    if Ascending(all) {
      PrefixStaysAscending(out + [rec], all);
    }
  }

  lemma {:induction false} ConcatenateRow<V>(children: seq<seq<Row<V>>>, i: nat, j: nat, out: seq<Rec<V>>, lastKey: Key, emitted: bool)
    requires i < |children| && j < |children[i]| && children[i][j].Keyed? && (emitted ==> lastKey <= children[i][j].rec.key)
    requires Concatenating(children, i, j, out, true, lastKey, emitted)
    ensures Concatenating(children, i, j + 1, out + [children[i][j].rec], true, children[i][j].rec.key, true)
  {
    AscendingStep(out, children[i][j].rec);
    assert Flat(KeyedAll(children), i) + KeyedRows(children[i], j + 1) == out + [children[i][j].rec];
  }

  lemma {:induction false} ConcatenateNoRow<V>(children: seq<seq<Row<V>>>, i: nat, j: nat, out: seq<Rec<V>>, ok: bool, lastKey: Key, emitted: bool)
    requires i < |children| && j < |children[i]| && (ok ==> children[i][j].Keyless?)
    requires Concatenating(children, i, j, out, ok, lastKey, emitted)
    ensures Concatenating(children, i, j + 1, out, ok, lastKey, emitted)
  {
    assert ok ==> KeyedRows(children[i], j + 1) == KeyedRows(children[i], j);
  }

  // One child's run: its rows go to childYield, which ignores them after an error.
  method ConcatenateChild<V>(children: seq<seq<Row<V>>>, i: nat, out: seq<Rec<V>>, lastKey: Key, emitted: bool)
    returns (out': seq<Rec<V>>, lastKey': Key, emitted': bool, err: MergeErr)
    requires i < |children| && Concatenating(children, i, 0, out, true, lastKey, emitted)
    ensures Concatenating(children, i, |children[i]|, out', err.Ok?, lastKey', emitted')
  {
    out', lastKey', emitted', err := out, lastKey, emitted, Ok;
    for j: nat := 0 to |children[i]|
      invariant Concatenating(children, i, j, out', err.Ok?, lastKey', emitted')
    {
      if err.Ok? && children[i][j].Keyed? {
        var rec := children[i][j].rec;
        if emitted' && rec.key < lastKey' {
          TripwireIsRight(children, i, j, out', lastKey');
          err := OutOfOrder(i, rec.key, lastKey');
        } else {
          ConcatenateRow(children, i, j, out', lastKey', emitted');
          out', lastKey', emitted' := out' + [rec], rec.key, true;
        }
      } else {
        ConcatenateNoRow(children, i, j, out', err.Ok?, lastKey', emitted');
      }
    }
  }

  // Before child i.
  ghost predicate Between<V>(children: seq<seq<Row<V>>>, i: nat, out: seq<Rec<V>>, lastKey: Key, emitted: bool)
    requires i <= |children|
  {
    && Ascending(out) && out == Flat(KeyedAll(children), i)
    && (emitted <==> |out| > 0) && (emitted ==> lastKey == out[|out| - 1].key)
  }

  lemma {:induction false} ChildStarts<V>(children: seq<seq<Row<V>>>, i: nat, out: seq<Rec<V>>, lastKey: Key, emitted: bool)
    requires i < |children| && Between(children, i, out, lastKey, emitted)
    ensures Concatenating(children, i, 0, out, true, lastKey, emitted)
  {
    assert out + KeyedRows(children[i], 0) == out;
  }

  lemma {:induction false} ChildDone<V>(children: seq<seq<Row<V>>>, i: nat, out: seq<Rec<V>>, lastKey: Key, emitted: bool)
    requires i < |children| && Concatenating(children, i, |children[i]|, out, true, lastKey, emitted)
    ensures Between(children, i + 1, out, lastKey, emitted)
  {
  }

  ghost predicate Concatenated<V>(children: seq<seq<Row<V>>>, out: seq<Rec<V>>, err: MergeErr)
  {
    var all := Flat(KeyedAll(children), |children|);
    && Ascending(out) && Prefix(out, all)
    && (err.Ok? <==> Ascending(all))
    && (err.Ok? ==> out == all)
  }

  lemma {:induction false} ChildFailed<V>(children: seq<seq<Row<V>>>, i: nat, out: seq<Rec<V>>, err: MergeErr, lastKey: Key, emitted: bool)
    requires i < |children| && !err.Ok? && Concatenating(children, i, |children[i]|, out, false, lastKey, emitted)
    ensures Concatenated(children, out, err)
  {
  }

  lemma {:induction false} AllChildrenDone<V>(children: seq<seq<Row<V>>>, out: seq<Rec<V>>, lastKey: Key, emitted: bool)
    requires Between(children, |children|, out, lastKey, emitted)
    ensures Concatenated(children, out, Ok)
  {
  }

  // mergeScanConcatenate: the children back to back, with the monotonicity tripwire on each row. It
  // yields a prefix of their concatenation, all of it without error exactly when that is ascending.
  method MergeScanConcatenate<V>(children: seq<seq<Row<V>>>) returns (out: seq<Rec<V>>, err: MergeErr)
    ensures Concatenated(children, out, err)
  {
    var lastKey: Key, emitted := 0, false;
    out, err := [], Ok;
    for i: nat := 0 to |children|
      invariant err.Ok? && Between(children, i, out, lastKey, emitted)
    {
      ChildStarts(children, i, out, lastKey, emitted);
      out, lastKey, emitted, err := ConcatenateChild(children, i, out, lastKey, emitted);
      if !err.Ok? {
        ChildFailed(children, i, out, err, lastKey, emitted);
        return;
      }
      ChildDone(children, i, out, lastKey, emitted);
    }
    AllChildrenDone(children, out, lastKey, emitted);
  }

  // mergeChooseRegime: an explicit choice stands; "auto" proves from the zone maps that the children
  // follow each other.
  method MergeChooseRegime(numChildren: nat, regime: string, minKeys: seq<Key>, maxKeys: seq<Key>) returns (r: string)
    ensures regime == "concatenate" || regime == "heap" ==> r == regime
    ensures r == "concatenate" || r == "heap"
    ensures regime != "concatenate" && regime != "heap" ==>
              (r == "concatenate" <==> numChildren > 0 && |minKeys| == numChildren == |maxKeys| && Disjoint(minKeys, maxKeys))
  {
    if regime == "concatenate" || regime == "heap" {
      return regime;
    }
    if numChildren > 0 && |minKeys| == numChildren && |maxKeys| == numChildren {
      var disjoint := true;
      for i := 0 to numChildren - 1
        invariant disjoint
        invariant forall c: nat :: c < i ==> Follows(minKeys, maxKeys, c)
      {
        if maxKeys[i] > minKeys[i + 1] {
          disjoint := false;
          assert !Follows(minKeys, maxKeys, i);
          break;
        }
      }
      if disjoint {
        return "concatenate";
      }
    }
    return "heap";
  }

  predicate Follows(minKeys: seq<Key>, maxKeys: seq<Key>, c: nat)
  {
    c + 1 < |minKeys| == |maxKeys| ==> maxKeys[c] <= minKeys[c + 1]
  }

  ghost predicate Disjoint(minKeys: seq<Key>, maxKeys: seq<Key>)
  {
    forall c: nat :: Follows(minKeys, maxKeys, c)
  }

  // The zone maps tell the truth: each child's keys lie between its two.
  ghost predicate ZonesHold<V>(keyed: seq<seq<Rec<V>>>, minKeys: seq<Key>, maxKeys: seq<Key>)
  {
    && |minKeys| == |keyed| == |maxKeys|
    && forall c: nat :: c < |keyed| ==> ZoneHolds(keyed[c], minKeys[c], maxKeys[c])
  }

  ghost predicate ZoneHolds<V>(rows: seq<Rec<V>>, lo: Key, hi: Key)
  {
    forall i :: 0 <= i < |rows| ==> lo <= rows[i].key <= hi
  }

  // A child whose map leaves room for a row follows every such child before it.
  ghost predicate RealZonesFollow(minKeys: seq<Key>, maxKeys: seq<Key>)
  {
    |minKeys| == |maxKeys| && forall c: nat, d: nat :: c < d < |minKeys| ==> RealZoneFollows(minKeys, maxKeys, c, d)
  }

  ghost predicate RealZoneFollows(minKeys: seq<Key>, maxKeys: seq<Key>, c: nat, d: nat)
    requires c < d < |minKeys| == |maxKeys|
  {
    minKeys[c] <= maxKeys[c] && minKeys[d] <= maxKeys[d] ==> maxKeys[c] <= minKeys[d]
  }

  // Where no map is empty, it is enough to compare neighbours, as "auto" does.
  lemma {:induction false} NeighboursSuffice(minKeys: seq<Key>, maxKeys: seq<Key>)
    requires |minKeys| == |maxKeys| && Disjoint(minKeys, maxKeys) && forall c :: 0 <= c < |minKeys| ==> minKeys[c] <= maxKeys[c]
    ensures RealZonesFollow(minKeys, maxKeys)
  {
    forall c: nat, d: nat | c < d < |minKeys| ensures RealZoneFollows(minKeys, maxKeys, c, d) {
      NeighboursChain(minKeys, maxKeys, c, d);
    }
  }

  lemma {:induction false} NeighboursChain(minKeys: seq<Key>, maxKeys: seq<Key>, c: nat, d: nat)
    requires c < d < |minKeys| == |maxKeys| && Disjoint(minKeys, maxKeys) && forall c :: 0 <= c < |minKeys| ==> minKeys[c] <= maxKeys[c]
    ensures maxKeys[c] <= minKeys[d]
    decreases d
  {
    assert Follows(minKeys, maxKeys, d - 1);
    if c < d - 1 {
      NeighboursChain(minKeys, maxKeys, c, d - 1);
    }
  }

  lemma {:induction false} FollowingChildrenAscend<V>(keyed: seq<seq<Rec<V>>>, minKeys: seq<Key>, maxKeys: seq<Key>, k: nat)
    requires ZonesHold(keyed, minKeys, maxKeys) && RealZonesFollow(minKeys, maxKeys) && AllAscending(keyed) && k <= |keyed|
    ensures Ascending(Flat(keyed, k))
    ensures forall d: nat :: k <= d < |keyed| && minKeys[d] <= maxKeys[d] ==> AllBelow(Flat(keyed, k), minKeys[d])
    decreases k
  {
    if k > 0 {
      var c := k - 1;
      FollowingChildrenAscend(keyed, minKeys, maxKeys, c);
      assert ZoneHolds(keyed[c], minKeys[c], maxKeys[c]);
      if keyed[c] != [] {
        assert minKeys[c] <= keyed[c][0].key <= maxKeys[c];
        JoinAscends(Flat(keyed, c), keyed[c], minKeys[c], maxKeys[c]);
        forall d: nat | k <= d < |keyed| && minKeys[d] <= maxKeys[d] ensures AllBelow(Flat(keyed, k), minKeys[d]) {
          assert RealZoneFollows(minKeys, maxKeys, c, d);
        }
      }
    }
  }

  lemma JoinAscends<V>(a: seq<Rec<V>>, b: seq<Rec<V>>, mid: Key, hi: Key)
    requires Ascending(a) && Ascending(b) && AllBelow(a, mid) && AllBelow(b, hi) && mid <= hi
    requires forall i :: 0 <= i < |b| ==> mid <= b[i].key
    ensures Ascending(a + b) && AllBelow(a + b, hi)
  {
  }

  lemma {:induction false} FlatAscendsSoChildrenDo<V>(keyed: seq<seq<Rec<V>>>)
    requires Ascending(Flat(keyed, |keyed|))
    ensures AllAscending(keyed)
  {
    forall c: nat | c < |keyed| ensures Ascending(keyed[c]) {
      FlatPrefix(keyed, c + 1, |keyed|);
      PrefixStaysAscending(Flat(keyed, c + 1), Flat(keyed, |keyed|));
      SuffixStaysAscending(Flat(keyed, c), keyed[c]);
    }
  }

  lemma SuffixStaysAscending<V>(a: seq<Rec<V>>, b: seq<Rec<V>>)
    requires Ascending(a + b)
    ensures Ascending(b)
  {
    forall i, j | 0 <= i < j < |b| ensures b[i].key <= b[j].key {
      assert (a + b)[|a| + i] == b[i] && (a + b)[|a| + j] == b[j];
    }
  }

  lemma {:induction false} FlatIsAllRows<V>(keyed: seq<seq<Rec<V>>>, k: nat)
    requires k <= |keyed|
    ensures multiset(Flat(keyed, k)) == AllRows(keyed, k)
    decreases k
  {
    if k > 0 {
      FlatIsAllRows(keyed, k - 1);
    }
  }

  // Over true zone maps that follow each other concatenation fails exactly when the heap merge does, and
  // otherwise every heap merge of these children has concatenation's key sequence.
  lemma ConcatenateIsHeap<V>(keyed: seq<seq<Rec<V>>>, minKeys: seq<Key>, maxKeys: seq<Key>, heaped: seq<Rec<V>>)
    requires ZonesHold(keyed, minKeys, maxKeys) && RealZonesFollow(minKeys, maxKeys)
    ensures Ascending(Flat(keyed, |keyed|)) <==> AllAscending(keyed)
    ensures AllAscending(keyed) && Ascending(heaped) && multiset(heaped) == AllRows(keyed, |keyed|) ==>
              Keys(heaped) == Keys(Flat(keyed, |keyed|))
  {
    if AllAscending(keyed) {
      FollowingChildrenAscend(keyed, minKeys, maxKeys, |keyed|);
    }
    if Ascending(Flat(keyed, |keyed|)) {
      FlatAscendsSoChildrenDo(keyed);
    }
    if AllAscending(keyed) && Ascending(heaped) && multiset(heaped) == AllRows(keyed, |keyed|) {
      FlatIsAllRows(keyed, |keyed|);
      SortedPermutationsAgree(heaped, Flat(keyed, |keyed|));
    }
  }

  // ---------------------------------------------------------------- when zone maps are enough

  // Two children of one row each among empty ones.
  function TwoRows(n: nat, c: nat, a: Key, d: nat, b: Key): (keyed: seq<seq<Rec<int>>>)
    ensures |keyed| == n
    ensures forall i :: 0 <= i < n ==> keyed[i] == if i == c then [Rec(a, 0)] else if i == d then [Rec(b, 0)] else []
  {
    seq(n, i requires 0 <= i < n => if i == c then [Rec(a, 0)] else if i == d then [Rec(b, 0)] else [])
  }

  lemma {:induction false} FlatOfTwo(n: nat, c: nat, a: Key, d: nat, b: Key, k: nat)
    requires c < d < n && k <= n
    ensures Flat(TwoRows(n, c, a, d, b), k) == (if c < k then [Rec(a, 0)] else []) + (if d < k then [Rec(b, 0)] else [])
    decreases k
  {
    if k > 0 {
      FlatOfTwo(n, c, a, d, b, k - 1);
    }
  }

  lemma {:induction false} ZonesMislead(minKeys: seq<Key>, maxKeys: seq<Key>, c: nat, d: nat) returns (keyed: seq<seq<Rec<int>>>)
    requires c < d < |minKeys| == |maxKeys| && !RealZoneFollows(minKeys, maxKeys, c, d)
    ensures ZonesHold(keyed, minKeys, maxKeys) && AllAscending(keyed) && !Ascending(Flat(keyed, |keyed|))
  {
    var n := |minKeys|;
    keyed := TwoRows(n, c, maxKeys[c], d, minKeys[d]);
    FlatOfTwo(n, c, maxKeys[c], d, minKeys[d], n);
    var flat := Flat(keyed, n);
    assert flat[0].key == maxKeys[c] && flat[1].key == minKeys[d];
  }

  // Zone maps alone prove that concatenation is right exactly when the real ones follow each other.
  lemma {:induction false} ZonesSufficeIff(minKeys: seq<Key>, maxKeys: seq<Key>)
    requires |minKeys| == |maxKeys|
    ensures RealZonesFollow(minKeys, maxKeys) <==>
            forall keyed: seq<seq<Rec<int>>> :: ZonesHold(keyed, minKeys, maxKeys) && AllAscending(keyed) ==> Ascending(Flat(keyed, |keyed|))
  {
    if RealZonesFollow(minKeys, maxKeys) {
      forall keyed: seq<seq<Rec<int>>> | ZonesHold(keyed, minKeys, maxKeys) && AllAscending(keyed) ensures Ascending(Flat(keyed, |keyed|)) {
        FollowingChildrenAscend(keyed, minKeys, maxKeys, |keyed|);
      }
    } else {
      var c: nat, d: nat :| c < d < |minKeys| && !RealZoneFollows(minKeys, maxKeys, c, d);
      var keyed := ZonesMislead(minKeys, maxKeys, c, d);
      assert ZonesHold(keyed, minKeys, maxKeys) && AllAscending(keyed) && !Ascending(Flat(keyed, |keyed|));
    }
  }

  // So "auto", which compares neighbours only, can be misled: an empty map links a high range to a low one.
  lemma EmptyZoneMisleads() returns (keyed: seq<seq<Rec<int>>>, minKeys: seq<Key>, maxKeys: seq<Key>)
    ensures Disjoint(minKeys, maxKeys) && !RealZonesFollow(minKeys, maxKeys)
    ensures ZonesHold(keyed, minKeys, maxKeys) && AllAscending(keyed) && !Ascending(Flat(keyed, |keyed|))
  {
    minKeys, maxKeys := [9, 9, 1], [9, 1, 1];
    keyed := ZonesMislead(minKeys, maxKeys, 0, 2);
  }
}
