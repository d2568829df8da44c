// engine/op_join_hash.go, base/base.go: what the probe keys mean for the values they are made from.
module HashKeys {
  import opened Bytes
  import opened Json
  import opened Expr
  import Collation
  import opened ValsCodec
  import opened HashProbe
  import opened HashJoin
  import opened Selection

  // ---------------------------------------------------------------- join keys

  // A join key is the canonical form of the join expression's value.
  function JoinKeyed<R>(fmt: real -> Str, keys: seq<Json>, rows: seq<R>): (r: seq<Keyed<R>>)
    requires |keys| == |rows|
    ensures |r| == |rows| && forall i :: 0 <= i < |rows| ==> r[i] == Keyed(Collation.Canonical(fmt, keys[i]), rows[i])
  {
    seq(|rows|, i requires 0 <= i < |rows| => Keyed(Collation.Canonical(fmt, keys[i]), rows[i]))
  }

  // SQL equality: neither is NULL, and they compare equal.
  predicate JoinMatch(a: Json, b: Json)
  {
    !a.Null? && !b.Null? && Collation.Compare(a, b) == 0
  }

  lemma KeysMatch(fmt: real -> Str, nums: iset<real>, a: Json, b: Json)
    requires Collation.FormatOk(fmt, nums) && Collation.Wellformed(nums, a) && Collation.Wellformed(nums, b)
    ensures JoinMatch(a, b) <==>
            ValuedKey(Collation.Canonical(fmt, a)) && ValuedKey(Collation.Canonical(fmt, b)) && Collation.Canonical(fmt, a) == Collation.Canonical(fmt, b)
  {
    Collation.FirstByte(fmt, nums, a);
    Collation.FirstByte(fmt, nums, b);
    Collation.CanonicalIffEqual(fmt, nums, a, b);
  }

  // The nested loop over the values themselves, under any notion of a match.
  ghost function ValueJoinedTo<L, R>(joins: (Json, Json) -> bool, leftKeys: seq<Json>, lefts: seq<L>, m: nat, rightKey: Json, right: R): multiset<Pair<L, R>>
    requires m <= |lefts| == |leftKeys|
  {
    if m == 0 then multiset{}
    else ValueJoinedTo(joins, leftKeys, lefts, m - 1, rightKey, right) +
         (if joins(leftKeys[m - 1], rightKey) then multiset{Pair(lefts[m - 1], Some(right))} else multiset{})
  }

  ghost function ValueBags<L, R>(joins: (Json, Json) -> bool, leftKeys: seq<Json>, lefts: seq<L>, rightKeys: seq<Json>, rights: seq<R>): (bags: seq<multiset<Pair<L, R>>>)
    requires |lefts| == |leftKeys| && |rights| == |rightKeys|
    ensures |bags| == |rights| && forall j :: 0 <= j < |rights| ==> bags[j] == ValueJoinedTo(joins, leftKeys, lefts, |lefts|, rightKeys[j], rights[j])
  {
    seq(|rights|, j requires 0 <= j < |rights| => ValueJoinedTo(joins, leftKeys, lefts, |lefts|, rightKeys[j], rights[j]))
  }

  ghost function ValueNestedLoop<L, R>(joins: (Json, Json) -> bool, leftKeys: seq<Json>, lefts: seq<L>, rightKeys: seq<Json>, rights: seq<R>, n: nat): multiset<Pair<L, R>>
    requires |lefts| == |leftKeys| && n <= |rights| == |rightKeys|
  {
    Total(ValueBags(joins, leftKeys, lefts, rightKeys, rights), n)
  }

  ghost predicate AllWellformed(nums: iset<real>, keys: seq<Json>)
  {
    forall i :: 0 <= i < |keys| ==> Collation.Wellformed(nums, keys[i])
  }

  // The keys stand for the values: two match as keys exactly when the values do.
  ghost predicate KeysStandFor<L, R>(joins: (Json, Json) -> bool, leftKeys: seq<Json>, lefts: seq<Keyed<L>>, rightKeys: seq<Json>, rights: seq<Keyed<R>>)
  {
    && |leftKeys| == |lefts| && |rightKeys| == |rights|
    && forall i, j :: 0 <= i < |lefts| && 0 <= j < |rights| ==>
         (joins(leftKeys[i], rightKeys[j]) <==> ValuedKey(lefts[i].key) && ValuedKey(rights[j].key) && lefts[i].key == rights[j].key)
  }

  function Bare<R>(rows: seq<Keyed<R>>): (r: seq<R>)
    ensures |r| == |rows| && forall i :: 0 <= i < |rows| ==> r[i] == rows[i].row
  {
    seq(|rows|, i requires 0 <= i < |rows| => rows[i].row)
  }

  lemma {:induction false} JoinedToIsByValue<L, R>(joins: (Json, Json) -> bool, leftKeys: seq<Json>, lefts: seq<Keyed<L>>, rightKeys: seq<Json>, rights: seq<Keyed<R>>, m: nat, j: nat)
    requires KeysStandFor(joins, leftKeys, lefts, rightKeys, rights) && m <= |lefts| && j < |rights|
    ensures JoinedTo(lefts, m, rights[j]) == ValueJoinedTo(joins, leftKeys, Bare(lefts), m, rightKeys[j], rights[j].row)
    decreases m
  {
    if m > 0 {
      JoinedToIsByValue(joins, leftKeys, lefts, rightKeys, rights, m - 1, j);
    }
  }

  lemma {:induction false} NestedLoopIsByValue<L, R>(joins: (Json, Json) -> bool, leftKeys: seq<Json>, lefts: seq<Keyed<L>>, rightKeys: seq<Json>, rights: seq<Keyed<R>>)
    requires KeysStandFor(joins, leftKeys, lefts, rightKeys, rights)
    ensures NestedLoop(lefts, rights, |rights|) == ValueNestedLoop(joins, leftKeys, Bare(lefts), rightKeys, Bare(rights), |rights|)
  {
    var a, b := JoinBags(lefts, rights), ValueBags(joins, leftKeys, Bare(lefts), rightKeys, Bare(rights));
    forall j | 0 <= j < |rights| ensures a[j] == b[j] {
      JoinedToIsByValue(joins, leftKeys, lefts, rightKeys, rights, |lefts|, j);
    }
    assert a == b;
  }

  // Joining by canonical keys is the nested loop under SQL equality.
  lemma {:induction false} JoinIsBySqlEquality<L, R>(fmt: real -> Str, nums: iset<real>, leftKeys: seq<Json>, lefts: seq<L>, rightKeys: seq<Json>, rights: seq<R>)
    requires |lefts| == |leftKeys| && |rights| == |rightKeys|
    requires Collation.FormatOk(fmt, nums) && AllWellformed(nums, leftKeys) && AllWellformed(nums, rightKeys)
    ensures NestedLoop(JoinKeyed(fmt, leftKeys, lefts), JoinKeyed(fmt, rightKeys, rights), |rights|) ==
            ValueNestedLoop(JoinMatch, leftKeys, lefts, rightKeys, rights, |rights|)
  {
    var ls, rs := JoinKeyed(fmt, leftKeys, lefts), JoinKeyed(fmt, rightKeys, rights);
    forall i, j | 0 <= i < |ls| && 0 <= j < |rs|
      ensures JoinMatch(leftKeys[i], rightKeys[j]) <==> ValuedKey(ls[i].key) && ValuedKey(rs[j].key) && ls[i].key == rs[j].key
    {
      KeysMatch(fmt, nums, leftKeys[i], rightKeys[j]);
    }
    assert Bare(ls) == lefts && Bare(rs) == rights;
    NestedLoopIsByValue(JoinMatch, leftKeys, ls, rightKeys, rs);
  }

  // ---------------------------------------------------------------- whole rows as keys

  // ValsEncodeCanonical's slots: a MISSING one stays empty.
  function CanonicalSlot(fmt: real -> Str, v: Value): Str
  {
    if v.Missing? then [] else Collation.Canonical(fmt, v.j)
  }

  function CanonicalRow(fmt: real -> Str, row: seq<Value>): (r: seq<Str>)
    ensures |r| == |row| && forall i :: 0 <= i < |row| ==> r[i] == CanonicalSlot(fmt, row[i])
  {
    seq(|row|, i requires 0 <= i < |row| => CanonicalSlot(fmt, row[i]))
  }

  function RowKey(fmt: real -> Str, row: seq<Value>): Str
  {
    Encode(CanonicalRow(fmt, row))
  }

  predicate SameSlot(a: Value, b: Value)
  {
    if a.Missing? || b.Missing? then a.Missing? && b.Missing? else Collation.Compare(a.j, b.j) == 0
  }

  ghost predicate SameRow(a: seq<Value>, b: seq<Value>)
  {
    |a| == |b| && forall i :: 0 <= i < |a| ==> SameSlot(a[i], b[i])
  }

  ghost predicate WellformedRow(nums: iset<real>, row: seq<Value>)
  {
    forall i :: 0 <= i < |row| && row[i].Val? ==> Collation.Wellformed(nums, row[i].j)
  }

  // Two rows have the same key exactly when they agree slot by slot.
  lemma {:induction false} RowKeysMatch(fmt: real -> Str, nums: iset<real>, a: seq<Value>, b: seq<Value>)
    requires Collation.FormatOk(fmt, nums) && WellformedRow(nums, a) && WellformedRow(nums, b)
    requires Encodable(CanonicalRow(fmt, a)) && Encodable(CanonicalRow(fmt, b))
    ensures RowKey(fmt, a) == RowKey(fmt, b) <==> SameRow(a, b)
  {
    var x, y := CanonicalRow(fmt, a), CanonicalRow(fmt, b);
    DecodeInverts(x);
    DecodeInverts(y);
    if |a| == |b| {
      forall i | 0 <= i < |a| ensures x[i] == y[i] <==> SameSlot(a[i], b[i]) {
        SlotsMatch(fmt, nums, a[i], b[i]);
      }
      if SameRow(a, b) {
        assert x == y;
      }
    }
  }

  lemma SlotsMatch(fmt: real -> Str, nums: iset<real>, a: Value, b: Value)
    requires Collation.FormatOk(fmt, nums) && (a.Val? ==> Collation.Wellformed(nums, a.j)) && (b.Val? ==> Collation.Wellformed(nums, b.j))
    ensures CanonicalSlot(fmt, a) == CanonicalSlot(fmt, b) <==> SameSlot(a, b)
  {
    if a.Val? {
      Collation.FirstByte(fmt, nums, a.j);
    }
    if b.Val? {
      Collation.FirstByte(fmt, nums, b.j);
    }
    if a.Val? && b.Val? {
      Collation.CanonicalIffEqual(fmt, nums, a.j, b.j);
    }
  }

  // A row's key counts as valued by its first byte, which is the low byte of the row's width: rows of 110
  // columns, and of 110 more than any multiple of 256, pass for NULL and take part in no set operation.
  lemma WideRowsAreLost(fmt: real -> Str, row: seq<Value>)
    ensures ValuedKey(RowKey(fmt, row)) <==> |row| % 256 != 110
  {
    FirstByteIsWidth(CanonicalRow(fmt, row));
  }

  function DecodeAll(keys: seq<Str>): (rows: seq<seq<Str>>)
    ensures |rows| == |keys| && forall i :: 0 <= i < |keys| ==> rows[i] == Decode(keys[i])
  {
    seq(|keys|, i requires 0 <= i < |keys| => Decode(keys[i]))
  }

  lemma OneMore<T>(s: seq<T>, x: T, y: T)
    ensures multiset(s + [x])[y] == multiset(s)[y] + (if x == y then 1 else 0)
  {
  }

  lemma {:induction false} DecodedCount(keys: seq<Str>, vals: seq<Str>)
    requires Encodable(vals)
    requires forall i :: 0 <= i < |keys| ==> IsEncoding(keys[i])
    ensures multiset(DecodeAll(keys))[vals] == multiset(keys)[Encode(vals)]
    decreases |keys|
  {
    if keys != [] {
      var n := |keys| - 1;
      var rest, last := keys[..n], keys[n];
      DecodedCount(rest, vals);
      assert keys == rest + [last];
      assert DecodeAll(keys) == DecodeAll(rest) + [Decode(last)];
      OneMore(rest, last, Encode(vals));
      OneMore(DecodeAll(rest), Decode(last), vals);
      DecodeInverts(vals);
      assert Decode(last) == vals <==> last == Encode(vals);
    }
  }

  ghost predicate IsEncoding(key: Str)
  {
    Encode(Decode(key)) == key
  }

  ghost predicate RowKeys<L>(lefts: seq<Keyed<L>>)
  {
    forall i :: 0 <= i < |lefts| ==> IsEncoding(lefts[i].key)
  }

  lemma {:induction false} CountedKeyIsThere<L>(lefts: seq<Keyed<L>>, n: nat, key: Str)
    requires n <= |lefts| && Count(lefts, n, key) > 0
    ensures exists i :: 0 <= i < n && lefts[i].key == key
    decreases n
  {
    if lefts[n - 1].key != key {
      CountedKeyIsThere(lefts, n - 1, key);
    }
  }

  // What INTERSECT and EXCEPT yield, decoded: a row of a width that passes for a value is there as often as
  // SQL says for its m left and n right occurrences, and no other row is there at all.
  lemma {:induction false} SetResult<L, R>(kind: Kind, lefts: seq<Keyed<L>>, rights: seq<Keyed<R>>, keys: seq<Str>, vals: seq<Str>)
    requires KeysOk(kind, lefts, rights, |rights|, keys) && RowKeys(lefts) && Encodable(vals)
    ensures |vals| % 256 == 110 ==> multiset(DecodeAll(keys))[vals] == 0
    ensures |vals| % 256 != 110 ==>
              var ls, rs, count := multiset(KeysOf(lefts)), multiset(KeysOf(rights)), multiset(DecodeAll(keys))[vals];
              && (kind.IntersectAll? ==> count == (ls * rs)[Encode(vals)])
              && (kind.IntersectDistinct? ==> count == if Encode(vals) in ls && Encode(vals) in rs then 1 else 0)
              && (kind.ExceptAll? ==> count == (ls - rs)[Encode(vals)])
              && (kind.ExceptDistinct? ==> count == if Encode(vals) in ls && Encode(vals) !in rs then 1 else 0)
  {
    forall i | 0 <= i < |keys| ensures IsEncoding(keys[i]) {
      YieldedIsLeft(kind, lefts, rights, keys, i);
    }
    DecodedCount(keys, vals);
    FirstByteIsWidth(vals);
    OwedIsBagwise(kind, lefts, rights, keys, Encode(vals));
    assert multiset(keys)[Encode(vals)] == 0 <==> Encode(vals) !in keys;
  }

  lemma {:induction false} YieldedIsLeft<L, R>(kind: Kind, lefts: seq<Keyed<L>>, rights: seq<Keyed<R>>, keys: seq<Str>, i: nat)
    requires KeysOk(kind, lefts, rights, |rights|, keys) && RowKeys(lefts) && i < |keys|
    ensures IsEncoding(keys[i])
  {
    assert keys[i] in multiset(keys);
    assert multiset(keys)[keys[i]] == Owed(kind, lefts, rights, |rights|, keys[i]);
    CountedKeyIsThere(lefts, |lefts|, keys[i]);
  }
}
