// engine/op_group.go: GROUP BY over a map of concatenated accumulators.
module Group {
  import opened Bytes
  import opened Expr
  import opened ValsCodec

  // What Update gives back: its own new bytes, what follows its own old ones, and whether they differ.
  datatype Updated = Updated(bytes: Str, rest: Str, changed: bool)

  // base.Agg; takes says which operands it has room for, and owns which byte strings are its states after
  // so many updates.
  datatype Agg = Agg(init: Str, update: (Value, Str) -> Updated, takes: Value -> bool, owns: (Str, nat) -> bool)

  // Every update consumes exactly the aggregate's own prefix, whatever follows it, and reports no change
  // only when the bytes are the same.
  ghost predicate Behaves(agg: Agg)
  {
    && agg.owns(agg.init, 0)
    && forall v: Value, a: Str, rest: Str, k: nat {:trigger agg.update(v, a + rest), agg.owns(a, k)} ::
         k + 1 < TWO64 && agg.takes(v) && agg.owns(a, k) ==> UpdateBehaves(agg, v, a, rest, k)
  }

  ghost predicate UpdateBehaves(agg: Agg, v: Value, a: Str, rest: Str, k: nat)
  {
    var u := agg.update(v, a + rest);
    u.bytes == agg.update(v, a).bytes && u.rest == rest && agg.owns(u.bytes, k + 1) && (!u.changed ==> u.bytes == a)
  }

  // The aggregate's own fold of some operands.
  function Fold(agg: Agg, vals: seq<Value>, n: nat): Str
    requires n <= |vals|
  {
    if n == 0 then agg.init else agg.update(vals[n - 1], Fold(agg, vals, n - 1)).bytes
  }

  // A row: its group key, and the operand of each aggregate.
  datatype Row = Row(key: Str, operands: seq<Value>)

  ghost predicate RowsOk(aggs: seq<Agg>, rows: seq<Row>)
  {
    && |rows| < TWO64
    && (forall i :: 0 <= i < |aggs| ==> Behaves(aggs[i]))
    && (forall r :: 0 <= r < |rows| ==> |rows[r].operands| == |aggs|)
    && (forall r, i :: 0 <= r < |rows| && 0 <= i < |aggs| ==> aggs[i].takes(rows[r].operands[i]))
  }

  // The i-th operands of a key's rows among the first n, in arrival order.
  function OperandsOf(rows: seq<Row>, n: nat, key: Str, i: nat): seq<Value>
    requires n <= |rows| && forall r :: 0 <= r < n ==> i < |rows[r].operands|
  {
    if n == 0 then []
    else OperandsOf(rows, n - 1, key, i) + (if rows[n - 1].key == key then [rows[n - 1].operands[i]] else [])
  }

  function Whole(agg: Agg, vals: seq<Value>): Str
  {
    Fold(agg, vals, |vals|)
  }

  // A group's bytes from the i-th aggregate on: each one's own fold, one after the other.
  function Folds(aggs: seq<Agg>, rows: seq<Row>, n: nat, key: Str, i: nat): Str
    requires n <= |rows| && (forall r :: 0 <= r < |rows| ==> |rows[r].operands| == |aggs|) && i <= |aggs|
    decreases |aggs| - i
  {
    if i == |aggs| then [] else Whole(aggs[i], OperandsOf(rows, n, key, i)) + Folds(aggs, rows, n, key, i + 1)
  }

  lemma {:induction false} FoldMore(agg: Agg, vals: seq<Value>, v: Value, n: nat)
    requires n <= |vals|
    ensures Fold(agg, vals + [v], n) == Fold(agg, vals, n)
    decreases n
  {
    if n > 0 {
      FoldMore(agg, vals, v, n - 1);
    }
  }

  lemma {:induction false} WholeMore(agg: Agg, vals: seq<Value>, v: Value)
    ensures Whole(agg, vals + [v]) == agg.update(v, Whole(agg, vals)).bytes
  {
    FoldMore(agg, vals, v, |vals|);
  }

  lemma {:induction false} FoldOwned(agg: Agg, vals: seq<Value>, n: nat)
    requires n <= |vals| < TWO64 && Behaves(agg) && forall i :: 0 <= i < |vals| ==> agg.takes(vals[i])
    ensures agg.owns(Fold(agg, vals, n), n)
    decreases n
  {
    if n > 0 {
      FoldOwned(agg, vals, n - 1);
      Behaved(agg, vals[n - 1], Fold(agg, vals, n - 1), [], n - 1);
      assert Fold(agg, vals, n - 1) + [] == Fold(agg, vals, n - 1);
    }
  }

  lemma Behaved(agg: Agg, v: Value, a: Str, rest: Str, k: nat)
    requires Behaves(agg) && k + 1 < TWO64 && agg.takes(v) && agg.owns(a, k)
    ensures UpdateBehaves(agg, v, a, rest, k)
  {
    assert agg.update(v, a + rest) == agg.update(v, a + rest);
  }

  lemma {:induction false} OperandsTaken(aggs: seq<Agg>, rows: seq<Row>, n: nat, key: Str, i: nat)
    requires RowsOk(aggs, rows) && n <= |rows| && i < |aggs|
    ensures |OperandsOf(rows, n, key, i)| <= n
    ensures forall j :: 0 <= j < |OperandsOf(rows, n, key, i)| ==> aggs[i].takes(OperandsOf(rows, n, key, i)[j])
    decreases n
  {
    if n > 0 {
      OperandsTaken(aggs, rows, n - 1, key, i);
    }
  }

  lemma {:induction false} OtherKeysStay(aggs: seq<Agg>, rows: seq<Row>, n: nat, key: Str, i: nat)
    requires n < |rows| && (forall r :: 0 <= r < |rows| ==> |rows[r].operands| == |aggs|) && i <= |aggs| && rows[n].key != key
    ensures Folds(aggs, rows, n + 1, key, i) == Folds(aggs, rows, n, key, i)
    decreases |aggs| - i
  {
    if i < |aggs| {
      OtherKeysStay(aggs, rows, n, key, i + 1);
      assert OperandsOf(rows, n + 1, key, i) == OperandsOf(rows, n, key, i);
    }
  }

  // A key that has no row yet is at its initial state.
  lemma {:induction false} NoOperands(rows: seq<Row>, n: nat, key: Str, i: nat)
    requires n <= |rows| && (forall r :: 0 <= r < n ==> i < |rows[r].operands|) && forall r :: 0 <= r < n ==> rows[r].key != key
    ensures OperandsOf(rows, n, key, i) == []
    decreases n
  {
    if n > 0 {
      NoOperands(rows, n - 1, key, i);
    }
  }

  function Inits(aggs: seq<Agg>, i: nat): Str
    requires i <= |aggs|
    decreases |aggs| - i
  {
    if i == |aggs| then [] else aggs[i].init + Inits(aggs, i + 1)
  }

  lemma {:induction false} FoldsOfNothing(aggs: seq<Agg>, rows: seq<Row>, n: nat, key: Str, i: nat)
    requires n <= |rows| && (forall r :: 0 <= r < |rows| ==> |rows[r].operands| == |aggs|) && i <= |aggs| && forall r :: 0 <= r < n ==> rows[r].key != key
    ensures Folds(aggs, rows, n, key, i) == Inits(aggs, i)
    decreases |aggs| - i
  {
    if i < |aggs| {
      NoOperands(rows, n, key, i);
      FoldsOfNothing(aggs, rows, n, key, i + 1);
    }
  }

  // ---------------------------------------------------------------- one row

  method InitAll(aggs: seq<Agg>) returns (bytes: Str)
    ensures bytes == Inits(aggs, 0)
  {
    bytes := [];
    for i: nat := 0 to |aggs|
      invariant bytes + Inits(aggs, i) == Inits(aggs, 0)
    {
      assert (bytes + aggs[i].init) + Inits(aggs, i + 1) == bytes + (aggs[i].init + Inits(aggs, i + 1));
      bytes := bytes + aggs[i].init;
    }
    assert bytes + [] == bytes;
  }

  // The first i aggregates have consumed their prefixes and written their new bytes.
  ghost predicate Updating(aggs: seq<Agg>, rows: seq<Row>, n: nat, i: nat, groupVal: Str, groupValNew: Str, rest: Str, changed: bool)
    requires n < |rows| && (forall r :: 0 <= r < |rows| ==> |rows[r].operands| == |aggs|) && i <= |aggs|
  {
    && rest == Folds(aggs, rows, n, rows[n].key, i)
    && groupValNew + Folds(aggs, rows, n + 1, rows[n].key, i) == Folds(aggs, rows, n + 1, rows[n].key, 0)
    && (!changed ==> groupValNew + rest == groupVal)
  }

  lemma {:induction false} UpdatingNext(aggs: seq<Agg>, rows: seq<Row>, n: nat, i: nat, groupVal: Str, groupValNew: Str, rest: Str, changed: bool)
    requires RowsOk(aggs, rows) && n < |rows| && i < |aggs| && Updating(aggs, rows, n, i, groupVal, groupValNew, rest, changed)
    ensures var u := aggs[i].update(rows[n].operands[i], rest);
            Updating(aggs, rows, n, i + 1, groupVal, groupValNew + u.bytes, u.rest, changed || u.changed)
  {
    OneUpdate(aggs, rows, n, i);
    var u := aggs[i].update(rows[n].operands[i], rest);
    Assoc(groupValNew, u.bytes, Folds(aggs, rows, n + 1, rows[n].key, i + 1));
    Assoc(groupValNew, u.bytes, u.rest);
  }

  // The update loop over a group's bytes: each aggregate takes its own prefix and leaves the rest.
  method UpdateAll(aggs: seq<Agg>, ghost rows: seq<Row>, ghost n: nat, row: Row, groupVal: Str) returns (groupValNew: Str, changed: bool)
    requires RowsOk(aggs, rows) && n < |rows| && row == rows[n]
    requires groupVal == Folds(aggs, rows, n, row.key, 0)
    ensures groupValNew == Folds(aggs, rows, n + 1, row.key, 0)
    ensures !changed ==> groupValNew == groupVal
  {
    var rest := groupVal;
    groupValNew, changed := [], false;
    for i: nat := 0 to |aggs|
      invariant Updating(aggs, rows, n, i, groupVal, groupValNew, rest, changed)
    {
      UpdatingNext(aggs, rows, n, i, groupVal, groupValNew, rest, changed);
      var u := aggs[i].update(row.operands[i], rest);
      groupValNew, rest, changed := groupValNew + u.bytes, u.rest, changed || u.changed;
    }
    assert groupValNew + [] == groupValNew;
  }

  lemma Assoc(a: Str, b: Str, c: Str)
    ensures (a + b) + c == a + (b + c)
  {
  }

  lemma {:induction false} OneUpdate(aggs: seq<Agg>, rows: seq<Row>, n: nat, i: nat)
    requires RowsOk(aggs, rows) && n < |rows| && i < |aggs|
    ensures var key, own := rows[n].key, Whole(aggs[i], OperandsOf(rows, n, rows[n].key, i));
            var u := aggs[i].update(rows[n].operands[i], Folds(aggs, rows, n, key, i));
            && Folds(aggs, rows, n, key, i) == own + Folds(aggs, rows, n, key, i + 1)
            && u.rest == Folds(aggs, rows, n, key, i + 1)
            && Folds(aggs, rows, n + 1, key, i) == u.bytes + Folds(aggs, rows, n + 1, key, i + 1)
            && (!u.changed ==> u.bytes == own)
  {
    var key := rows[n].key;
    var vals := OperandsOf(rows, n, key, i);
    OperandsTaken(aggs, rows, n, key, i);
    FoldOwned(aggs[i], vals, |vals|);
    Behaved(aggs[i], rows[n].operands[i], Whole(aggs[i], vals), Folds(aggs, rows, n, key, i + 1), |vals|);
    WholeMore(aggs[i], vals, rows[n].operands[i]);
    assert OperandsOf(rows, n + 1, key, i) == vals + [rows[n].operands[i]];
  }

  // ---------------------------------------------------------------- the group map

  ghost predicate Grouped(rows: seq<Row>, n: nat, key: Str)
    requires n <= |rows|
  {
    exists r :: 0 <= r < n && rows[r].key == key
  }

  // One entry per distinct key, or the seeded one, holding each aggregate's fold of that key's rows.
  ghost predicate GroupOk(aggs: seq<Agg>, rows: seq<Row>, n: nat, seeded: bool, seed: Str, groups: map<Str, Str>, key: Str)
    requires n <= |rows| && forall r :: 0 <= r < |rows| ==> |rows[r].operands| == |aggs|
  {
    && (key in groups <==> Grouped(rows, n, key) || (seeded && key == seed))
    && (key in groups ==> groups[key] == Folds(aggs, rows, n, key, 0))
  }

  ghost predicate GroupsOk(aggs: seq<Agg>, rows: seq<Row>, n: nat, seeded: bool, seed: Str, groups: map<Str, Str>)
    requires n <= |rows| && forall r :: 0 <= r < |rows| ==> |rows[r].operands| == |aggs|
  {
    forall key {:trigger key in groups} {:trigger GroupOk(aggs, rows, n, seeded, seed, groups, key)} :: GroupOk(aggs, rows, n, seeded, seed, groups, key)
  }

  lemma {:induction false} GroupsNext(aggs: seq<Agg>, rows: seq<Row>, n: nat, seeded: bool, seed: Str, groups: map<Str, Str>, groups': map<Str, Str>, key: Str)
    requires RowsOk(aggs, rows) && n < |rows| && GroupsOk(aggs, rows, n, seeded, seed, groups)
    requires groups' == groups[rows[n].key := Folds(aggs, rows, n + 1, rows[n].key, 0)]
    ensures GroupOk(aggs, rows, n + 1, seeded, seed, groups', key)
  {
    assert GroupOk(aggs, rows, n, seeded, seed, groups, key);
    if key != rows[n].key {
      OtherKeysStay(aggs, rows, n, key, 0);
    }
    assert Grouped(rows, n, key) ==> Grouped(rows, n + 1, key);
    assert Grouped(rows, n + 1, key) ==> Grouped(rows, n, key) || rows[n].key == key;
    assert rows[n].key == key ==> Grouped(rows, n + 1, key);
  }

  // A row folds into its group, in place when its bytes keep their length.
  method GroupRow(aggs: seq<Agg>, ghost rows: seq<Row>, ghost n: nat, row: Row, ghost seeded: bool, ghost seed: Str, groups: map<Str, Str>) returns (groups': map<Str, Str>)
    requires RowsOk(aggs, rows) && n < |rows| && row == rows[n] && GroupsOk(aggs, rows, n, seeded, seed, groups)
    ensures GroupsOk(aggs, rows, n + 1, seeded, seed, groups')
  {
    assert GroupOk(aggs, rows, n, seeded, seed, groups, row.key);
    var groupVal;
    if row.key in groups {
      groupVal := groups[row.key];
    } else {
      groupVal := InitAll(aggs);
      FoldsOfNothing(aggs, rows, n, row.key, 0);
    }
    var groupValNew, changed := UpdateAll(aggs, rows, n, row, groupVal);
    groups' := groups;
    if row.key !in groups {
      groups' := groups[row.key := groupValNew];
    } else if changed {
      if |groupVal| == |groupValNew| {
        // copy
        groups' := groups[row.key := groupValNew + groupVal[|groupValNew|..]];
        assert groupVal[|groupValNew|..] == [] && groupValNew + [] == groupValNew;
      } else {
        groups' := groups[row.key := groupValNew];
      }
    }
    assert groups' == groups[row.key := groupValNew];
    ghost var n': nat := n + 1;
    forall key ensures GroupOk(aggs, rows, n', seeded, seed, groups', key) {
      GroupsNext(aggs, rows, n, seeded, seed, groups, groups', key);
    }
  }

  // Before the first row there is the seeded group, or none.
  lemma {:induction false} NothingGrouped(aggs: seq<Agg>, rows: seq<Row>, seeded: bool, seed: Str)
    requires forall r :: 0 <= r < |rows| ==> |rows[r].operands| == |aggs|
    ensures GroupsOk(aggs, rows, 0, seeded, seed, if seeded then map[seed := Inits(aggs, 0)] else map[])
  {
    var groups := if seeded then map[seed := Inits(aggs, 0)] else map[];
    FoldsOfNothing(aggs, rows, 0, seed, 0);
    forall key ensures GroupOk(aggs, rows, 0, seeded, seed, groups, key) {
    }
  }

  // OpGroup: with no group expressions, aggregates over no rows at all still leave one initialized group.
  method OpGroup(aggs: seq<Agg>, rows: seq<Row>, numGroupExprs: nat, emptyKey: Str) returns (groups: map<Str, Str>)
    requires RowsOk(aggs, rows)
    ensures GroupsOk(aggs, rows, |rows|, aggs != [] && numGroupExprs == 0, emptyKey, groups)
    ensures aggs != [] && numGroupExprs == 0 && rows == [] ==> groups == map[emptyKey := Inits(aggs, 0)]
    ensures rows == [] && (aggs == [] || numGroupExprs > 0) ==> groups == map[]
    ensures aggs != [] && numGroupExprs == 0 && (forall r :: 0 <= r < |rows| ==> rows[r].key == emptyKey) ==>
              groups == map[emptyKey := Folds(aggs, rows, |rows|, emptyKey, 0)]
  {
    groups := map[];
    ghost var seeded := aggs != [] && numGroupExprs == 0;
    NothingGrouped(aggs, rows, seeded, emptyKey);
    if aggs != [] && numGroupExprs == 0 {
      var inits := InitAll(aggs);
      groups := map[emptyKey := inits];
    }
    for n: nat := 0 to |rows|
      invariant GroupsOk(aggs, rows, n, seeded, emptyKey, groups)
      invariant n == 0 ==> groups == if seeded then map[emptyKey := Inits(aggs, 0)] else map[]
    {
      groups := GroupRow(aggs, rows, n, rows[n], seeded, emptyKey, groups);
    }
    if seeded && forall r :: 0 <= r < |rows| ==> rows[r].key == emptyKey {
      OneGroup(aggs, rows, emptyKey, groups);
    }
  }

  // Every row has the constant key of no expressions: one group, whatever the rows.
  lemma {:induction false} OneGroup(aggs: seq<Agg>, rows: seq<Row>, key: Str, groups: map<Str, Str>)
    requires forall r :: 0 <= r < |rows| ==> |rows[r].operands| == |aggs| && rows[r].key == key
    requires GroupsOk(aggs, rows, |rows|, true, key, groups)
    ensures groups == map[key := Folds(aggs, rows, |rows|, key, 0)]
  {
    forall k ensures k in groups <==> k == key {
      assert GroupOk(aggs, rows, |rows|, true, key, groups, k);
    }
  }
}
