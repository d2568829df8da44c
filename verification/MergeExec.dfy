// engine/op_merge_scan.go: MergeScanExec, which picks the merge loop.
module MergeExec {
  import opened MergeHeaps
  import opened MergeRows
  import opened MergeScan
  import opened MergeReorder
  import opened MergeNear
  import opened MergeStream
  import opened MergeRegime

  ghost predicate DeclaresNear(sortedness: seq<string>)
  {
    exists i :: 0 <= i < |sortedness| && (sortedness[i] == "near" || sortedness[i] == "none")
  }

  method MergeHasNear(sortedness: seq<string>) returns (near: bool)
    ensures near <==> DeclaresNear(sortedness)
  {
    for i := 0 to |sortedness|
      invariant forall c :: 0 <= c < i ==> sortedness[c] != "near" && sortedness[c] != "none"
    {
      if sortedness[i] == "near" || sortedness[i] == "none" {
        return true;
      }
    }
    return false;
  }

  // How far child c may fall behind, by its own declaration.
  function Declared(sortedness: seq<string>, bounds: seq<Key>, c: nat): Key
  {
    if c < |bounds| && !(c < |sortedness| && sortedness[c] == "strict") && bounds[c] > 0 then bounds[c] else 0
  }

  // mergeMaxBound: the least bound that covers every child's own.
  method MergeMaxBound(sortedness: seq<string>, bounds: seq<Key>) returns (max: Key)
    ensures max >= 0 && forall c: nat :: Declared(sortedness, bounds, c) <= max
    ensures max > 0 ==> exists c: nat :: Declared(sortedness, bounds, c) == max
  {
    max := 0;
    for i: nat := 0 to |bounds|
      invariant max >= 0 && forall c: nat :: c < i ==> Declared(sortedness, bounds, c) <= max
      invariant max > 0 ==> exists c: nat :: Declared(sortedness, bounds, c) == max
    {
      var s := if i < |sortedness| then sortedness[i] else "";
      if s == "strict" {
        continue;
      }
      if bounds[i] > max {
        max := bounds[i];
        assert Declared(sortedness, bounds, i) == max;
      }
    }
  }

  ghost predicate AsDeclared<V>(keyed: seq<seq<Rec<V>>>, sortedness: seq<string>, bounds: seq<Key>)
  {
    forall c: nat :: c < |keyed| ==> WithinBound(keyed[c], Declared(sortedness, bounds, c))
  }

  lemma WithinGreaterBound<V>(rows: seq<Rec<V>>, b: Key, bound: Key)
    requires WithinBound(rows, b) && b <= bound
    ensures WithinBound(rows, bound)
  {
  }

  method CursorsOf<V>(children: seq<seq<Row<V>>>) returns (keyed: seq<seq<Rec<V>>>)
    ensures keyed == KeyedAll(children)
  {
    keyed := [];
    for c: nat := 0 to |children|
      invariant keyed == KeyedAll(children)[..c]
    {
      var rows: seq<Rec<V>> := [];
      for j: nat := 0 to |children[c]|
        invariant rows == KeyedRows(children[c], j)
      {
        if children[c][j].Keyed? {
          rows := rows + [children[c][j].rec];
        }
      }
      keyed := keyed + [rows];
    }
  }

  lemma {:induction false} OneChild<V>(keyed: seq<seq<Rec<V>>>)
    requires |keyed| == 1
    ensures AllRows(keyed, 1) == multiset(keyed[0])
  {
    assert AllRows(keyed, 1) == AllRows(keyed, 0) + multiset(keyed[0]);
  }

  // The near-sorted path: children that keep what they declare always merge.
  method MergeScanWatermarked<V>(children: seq<seq<Row<V>>>, sortedness: seq<string>, bounds: seq<Key>, strict: bool) returns (run: Run<V>)
    ensures strict || run.warned == 0 ==> Ascending(run.out)
    ensures run.err.Ok? ==> multiset(run.out) == AllRows(KeyedAll(children), |children|)
    ensures !strict ==> run.err.Ok?
    ensures AsDeclared(KeyedAll(children), sortedness, bounds) ==> run.err.Ok? && run.warned == 0
  {
    ghost var all := KeyedAll(children);
    var maxBound := MergeMaxBound(sortedness, bounds);
    if AsDeclared(all, sortedness, bounds) {
      forall c: nat | c < |all| ensures WithinBound(all[c], maxBound) {
        WithinGreaterBound(all[c], Declared(sortedness, bounds, c), maxBound);
      }
    }
    if |children| == 1 {
      OneChild(all);
      run := MergeScanStream(children[0], maxBound, strict);
    } else {
      var keyed := CursorsOf(children);
      run := MergeScanKway(keyed, maxBound, strict);
    }
  }

  // The children are concatenated.
  ghost predicate PicksConcatenation(numChildren: nat, regime: string, minKeys: seq<Key>, maxKeys: seq<Key>)
  {
    if regime == "concatenate" || regime == "heap" then regime == "concatenate"
    else numChildren > 0 && |minKeys| == numChildren == |maxKeys| && Disjoint(minKeys, maxKeys)
  }

  // MergeScanExec for children declared strictly sorted: true zone maps that follow each other only choose
  // the cheaper loop.
  method MergeScanStrict<V>(children: seq<seq<Row<V>>>, regime: string, minKeys: seq<Key>, maxKeys: seq<Key>) returns (out: seq<Rec<V>>, err: MergeErr)
    ensures Ascending(out)
    ensures err.Ok? ==> multiset(out) == AllRows(KeyedAll(children), |children|)
    ensures !PicksConcatenation(|children|, regime, minKeys, maxKeys) || (ZonesHold(KeyedAll(children), minKeys, maxKeys) && RealZonesFollow(minKeys, maxKeys)) ==>
              (err.Ok? <==> AllAscending(KeyedAll(children)))
  {
    ghost var all := KeyedAll(children);
    var chosen := MergeChooseRegime(|children|, regime, minKeys, maxKeys);
    if chosen == "concatenate" {
      out, err := MergeScanConcatenate(children);
      FlatIsAllRows(all, |children|);
      if ZonesHold(all, minKeys, maxKeys) && RealZonesFollow(minKeys, maxKeys) {
        ConcatenateIsHeap(all, minKeys, maxKeys, out);
      }
    } else {
      var keyed := CursorsOf(children);
      ghost var from;
      out, err, from := MergeScanHeap(keyed);
    }
  }
}
