// engine/op_order.go, base/heap.go: the ORDER BY comparator and the encoded heap items.
module OrderBy {
  import opened Bytes
  import opened Json
  import opened Expr
  import Collation
  import opened ValsCodec
  import TopK
  import MergeHeaps

  datatype Nulls = Natural | First | Last

  // "asc" or "desc", with or without "-nulls-first" or "-nulls-last".
  datatype Direction = Direction(asc: bool, nulls: Nulls)

  // ValComparer.Compare of two slots: MISSING does not parse, and sorts below every value.
  function CompareSlots(a: Value, b: Value): int
  {
    if a.Val? && b.Val? then Collation.Compare(a.j, b.j)
    else if a.Missing? && b.Missing? then 0
    else if a.Missing? then -1
    else 1
  }

  predicate Nullish(v: Value)
  {
    v.Missing? || v.j.Null?
  }

  // The comparator's loop from column i on.
  function Less(dirs: seq<Direction>, a: seq<Value>, b: seq<Value>, i: nat): bool
    requires |a| == |b| == |dirs| && i <= |dirs|
    decreases |dirs| - i
  {
    if i == |dirs| then false
    else if dirs[i].nulls != Natural && Nullish(a[i]) != Nullish(b[i]) then
      if Nullish(a[i]) then dirs[i].nulls == First else dirs[i].nulls == Last
    else
      var cmp := CompareSlots(a[i], b[i]);
      if cmp < 0 then dirs[i].asc
      else if cmp > 0 then !dirs[i].asc
      else Less(dirs, a, b, i + 1)
  }

  // ---------------------------------------------------------------- a strict weak order

  ghost predicate UniqueSlots(row: seq<Value>)
  {
    forall i :: 0 <= i < |row| && row[i].Val? ==> Collation.UniqueNames(row[i].j)
  }

  // One column, three ways.
  function Column(d: Direction, a: Value, b: Value): int
  {
    if d.nulls != Natural && Nullish(a) != Nullish(b) then (if Nullish(a) == d.nulls.First? then -1 else 1)
    else if d.asc then CompareSlots(a, b) else -CompareSlots(a, b)
  }

  lemma SlotsReverse(a: Value, b: Value)
    requires (a.Val? ==> Collation.UniqueNames(a.j)) && (b.Val? ==> Collation.UniqueNames(b.j))
    ensures CompareSlots(b, a) == -CompareSlots(a, b)
  {
    if a.Val? && b.Val? {
      Collation.CompareReverses(a.j, b.j);
    }
  }

  lemma SlotsChain(a: Value, b: Value, c: Value)
    requires (a.Val? ==> Collation.UniqueNames(a.j)) && (b.Val? ==> Collation.UniqueNames(b.j)) && (c.Val? ==> Collation.UniqueNames(c.j))
    ensures Collation.Chains(CompareSlots(a, b), CompareSlots(b, c), CompareSlots(a, c))
  {
    if a.Val? && b.Val? && c.Val? {
      Collation.CompareTransitive(a.j, b.j, c.j);
    }
  }

  lemma ColumnReverses(d: Direction, a: Value, b: Value)
    requires (a.Val? ==> Collation.UniqueNames(a.j)) && (b.Val? ==> Collation.UniqueNames(b.j))
    ensures Column(d, b, a) == -Column(d, a, b)
  {
    SlotsReverse(a, b);
  }

  lemma ColumnChains(d: Direction, a: Value, b: Value, c: Value)
    requires (a.Val? ==> Collation.UniqueNames(a.j)) && (b.Val? ==> Collation.UniqueNames(b.j)) && (c.Val? ==> Collation.UniqueNames(c.j))
    ensures Collation.Chains(Column(d, a, b), Column(d, b, c), Column(d, a, c))
  {
    SlotsChain(a, b, c);
    SlotsChain(c, b, a);
    SlotsReverse(a, b);
    SlotsReverse(b, c);
    SlotsReverse(a, c);
    NullishApart(a, b);
    NullishApart(b, c);
    NullishApart(a, c);
  }

  // MISSING and NULL sort below everything else.
  lemma NullishApart(a: Value, b: Value)
    ensures Nullish(a) && !Nullish(b) ==> CompareSlots(a, b) < 0
  {
  }

  // The columns from i on, three ways: the first that differs decides.
  function Tuple(dirs: seq<Direction>, a: seq<Value>, b: seq<Value>, i: nat): int
    requires |a| == |b| == |dirs| && i <= |dirs|
    decreases |dirs| - i
  {
    if i == |dirs| then 0
    else if Column(dirs[i], a[i], b[i]) != 0 then Column(dirs[i], a[i], b[i])
    else Tuple(dirs, a, b, i + 1)
  }

  lemma {:induction false} LessIsTuple(dirs: seq<Direction>, a: seq<Value>, b: seq<Value>, i: nat)
    requires |a| == |b| == |dirs| && i <= |dirs|
    ensures Less(dirs, a, b, i) <==> Tuple(dirs, a, b, i) < 0
    decreases |dirs| - i
  {
    if i < |dirs| {
      LessIsTuple(dirs, a, b, i + 1);
    }
  }

  lemma {:induction false} TupleReverses(dirs: seq<Direction>, a: seq<Value>, b: seq<Value>, i: nat)
    requires |a| == |b| == |dirs| && i <= |dirs| && UniqueSlots(a) && UniqueSlots(b)
    ensures Tuple(dirs, b, a, i) == -Tuple(dirs, a, b, i)
    decreases |dirs| - i
  {
    if i < |dirs| {
      ColumnReverses(dirs[i], a[i], b[i]);
      TupleReverses(dirs, a, b, i + 1);
    }
  }

  lemma {:induction false} TupleChains(dirs: seq<Direction>, a: seq<Value>, b: seq<Value>, c: seq<Value>, i: nat)
    requires |a| == |b| == |c| == |dirs| && i <= |dirs| && UniqueSlots(a) && UniqueSlots(b) && UniqueSlots(c)
    ensures Collation.Chains(Tuple(dirs, a, b, i), Tuple(dirs, b, c, i), Tuple(dirs, a, c, i))
    decreases |dirs| - i
  {
    if i < |dirs| {
      var ab, bc, ac := Column(dirs[i], a[i], b[i]), Column(dirs[i], b[i], c[i]), Column(dirs[i], a[i], c[i]);
      ColumnChains(dirs[i], a[i], b[i], c[i]);
      ColumnChains(dirs[i], c[i], b[i], a[i]);
      ColumnReverses(dirs[i], a[i], b[i]);
      ColumnReverses(dirs[i], b[i], c[i]);
      ColumnReverses(dirs[i], a[i], c[i]);
      TupleChains(dirs, a, b, c, i + 1);
    }
  }

  // Whatever the directions and the placement of NULLs: asymmetric, and not-less is transitive, so the
  // comparator is a strict weak order.
  lemma {:induction false} LessIsWeakOrder(dirs: seq<Direction>, a: seq<Value>, b: seq<Value>, c: seq<Value>)
    requires |a| == |b| == |c| == |dirs| && UniqueSlots(a) && UniqueSlots(b) && UniqueSlots(c)
    ensures Less(dirs, a, b, 0) ==> !Less(dirs, b, a, 0)
    ensures Less(dirs, a, b, 0) && Less(dirs, b, c, 0) ==> Less(dirs, a, c, 0)
    ensures !Less(dirs, a, b, 0) && !Less(dirs, b, c, 0) ==> !Less(dirs, a, c, 0)
  {
    LessIsTuple(dirs, a, b, 0);
    LessIsTuple(dirs, b, a, 0);
    LessIsTuple(dirs, b, c, 0);
    LessIsTuple(dirs, a, c, 0);
    TupleReverses(dirs, a, b, 0);
    TupleReverses(dirs, b, c, 0);
    TupleReverses(dirs, a, c, 0);
    TupleChains(dirs, a, b, c, 0);
    TupleChains(dirs, c, b, a, 0);
  }

  // ---------------------------------------------------------------- whole rows

  // A row with the values of the ORDER BY expressions on it.
  datatype Item = Item(keys: seq<Value>, row: seq<Value>)

  function ItemLess(dirs: seq<Direction>): (Item, Item) -> bool
  {
    (a: Item, b: Item) => |a.keys| == |b.keys| == |dirs| && Less(dirs, a.keys, b.keys, 0)
  }

  function Items(env: Env, labels: seq<string>, orders: seq<Node>, rows: seq<seq<Value>>): (items: seq<Item>)
    ensures |items| == |rows|
    ensures forall i :: 0 <= i < |rows| ==> items[i] == Item(Project(env, labels, rows[i], orders), rows[i])
  {
    seq(|rows|, i requires 0 <= i < |rows| => Item(Project(env, labels, rows[i], orders), rows[i]))
  }

  function RowsOf(items: seq<Item>): (rows: seq<seq<Value>>)
    ensures |rows| == |items| && forall i :: 0 <= i < |items| ==> rows[i] == items[i].row
  {
    seq(|items|, i requires 0 <= i < |items| => items[i].row)
  }

  ghost predicate Comparable(dirs: seq<Direction>, items: seq<Item>)
  {
    forall i :: 0 <= i < |items| ==> |items[i].keys| == |dirs| && UniqueSlots(items[i].keys)
  }

  // So the bounded heap sorts by it.
  lemma {:induction false} ItemsAreOrdered(dirs: seq<Direction>, items: seq<Item>)
    requires Comparable(dirs, items)
    ensures TopK.WeakOrder(ItemLess(dirs), multiset(items))
  {
    var less := ItemLess(dirs);
    forall a, b | a in multiset(items) && b in multiset(items) && less(a, b) ensures !less(b, a) {
      assert a in items && b in items;
      LessIsWeakOrder(dirs, a.keys, b.keys, b.keys);
    }
    forall a, b, c | a in multiset(items) && b in multiset(items) && c in multiset(items) && !less(a, b) && !less(b, c) ensures !less(a, c) {
      assert a in items && b in items && c in items;
      LessIsWeakOrder(dirs, a.keys, b.keys, c.keys);
    }
  }

  // MISSING first, then the values in collation order.
  ghost predicate SlotAtMost(x: Value, y: Value)
  {
    x.Missing? || (x.Val? && y.Val? && Collation.Compare(x.j, y.j) <= 0)
  }

  ghost predicate SlotsTie(x: Value, y: Value)
  {
    (x.Missing? && y.Missing?) || (x.Val? && y.Val? && Collation.Compare(x.j, y.j) == 0)
  }

  // x may stand before y in a column: NULLs and MISSINGs on the side asked for; otherwise ascending or
  // descending as asked for.
  ghost predicate MayPrecede(d: Direction, x: Value, y: Value)
  {
    && (d.nulls == First && Nullish(y) ==> Nullish(x))
    && (d.nulls == Last && Nullish(x) ==> Nullish(y))
    && (d.nulls == Natural || (Nullish(x) <==> Nullish(y)) ==> if d.asc then SlotAtMost(x, y) else SlotAtMost(y, x))
  }

  lemma {:induction false} ColumnMayPrecede(d: Direction, x: Value, y: Value)
    requires (x.Val? ==> Collation.UniqueNames(x.j)) && (y.Val? ==> Collation.UniqueNames(y.j))
    ensures Column(d, y, x) >= 0 ==> MayPrecede(d, x, y)
    ensures SlotsTie(x, y) ==> Column(d, y, x) == 0
  {
    if x.Val? && y.Val? {
      Collation.CompareReverses(x.j, y.j);
    }
    NullishApart(x, y);
    NullishApart(y, x);
  }

  lemma {:induction false} TiesSkip(dirs: seq<Direction>, x: seq<Value>, y: seq<Value>, i: nat, c: nat)
    requires |x| == |y| == |dirs| && UniqueSlots(x) && UniqueSlots(y) && i <= c < |dirs|
    requires forall k :: i <= k < c ==> SlotsTie(x[k], y[k])
    ensures Tuple(dirs, y, x, i) == Tuple(dirs, y, x, c)
    decreases c - i
  {
    if i < c {
      ColumnMayPrecede(dirs[i], x[i], y[i]);
      TiesSkip(dirs, x, y, i + 1, c);
    }
  }

  ghost predicate TiedBefore(x: seq<Value>, y: seq<Value>, c: nat)
    requires |x| == |y| && c <= |x|
  {
    forall k :: 0 <= k < c ==> SlotsTie(x[k], y[k])
  }

  // A row with keys x may stand before one with keys y: the first column is in the order asked for, and so is
  // every other one where all the columns before it tie.
  ghost predicate KeysMayPrecede(dirs: seq<Direction>, x: seq<Value>, y: seq<Value>)
  {
    |x| == |y| == |dirs| && forall c: nat :: c < |dirs| && TiedBefore(x, y, c) ==> MayPrecede(dirs[c], x[c], y[c])
  }

  ghost predicate InOrder(dirs: seq<Direction>, sorted: seq<Item>)
  {
    forall i, j :: 0 <= i < j < |sorted| ==> KeysMayPrecede(dirs, sorted[i].keys, sorted[j].keys)
  }

  lemma {:induction false} NotLessMayFollow(dirs: seq<Direction>, x: seq<Value>, y: seq<Value>)
    requires |x| == |y| == |dirs| && UniqueSlots(x) && UniqueSlots(y) && !Less(dirs, y, x, 0)
    ensures KeysMayPrecede(dirs, x, y)
  {
    LessIsTuple(dirs, y, x, 0);
    forall c: nat | c < |dirs| && TiedBefore(x, y, c) ensures MayPrecede(dirs[c], x[c], y[c]) {
      TiesSkip(dirs, x, y, 0, c);
      ColumnMayPrecede(dirs[c], x[c], y[c]);
    }
  }

  // The order of sorted rows, in the collation's own terms.
  lemma {:induction false} SortedIsInOrder(dirs: seq<Direction>, items: seq<Item>, sorted: seq<Item>)
    requires Comparable(dirs, items) && TopK.SortOf(ItemLess(dirs), items, sorted)
    ensures InOrder(dirs, sorted)
  {
    forall i, j | 0 <= i < j < |sorted| ensures KeysMayPrecede(dirs, sorted[i].keys, sorted[j].keys) {
      assert sorted[i] in multiset(sorted) && sorted[j] in multiset(sorted);
      assert sorted[i] in items && sorted[j] in items;
      assert !ItemLess(dirs)(sorted[j], sorted[i]);
      NotLessMayFollow(dirs, sorted[i].keys, sorted[j].keys);
    }
  }

  // ORDER BY, OFFSET and LIMIT of a stream: that page of its rows sorted by the comparator.
  method OrderRows(env: Env, labels: seq<string>, orders: seq<Node>, dirs: seq<Direction>, rows: seq<seq<Value>>, offset: MergeHeaps.Key, limit: MergeHeaps.Key)
    returns (out: seq<seq<Value>>)
    requires Comparable(dirs, Items(env, labels, orders, rows)) && 0 <= offset && 0 <= limit && |rows| <= MergeHeaps.MAX_INT64
    ensures exists sorted :: TopK.SortOf(ItemLess(dirs), Items(env, labels, orders, rows), sorted) && InOrder(dirs, sorted) &&
              out == RowsOf(TopK.Page(sorted, offset, limit))
  {
    var items := Items(env, labels, orders, rows);
    ItemsAreOrdered(dirs, items);
    var page := TopK.OrderOffsetLimit(ItemLess(dirs), items, offset, limit);
    ghost var sorted :| TopK.SortOf(ItemLess(dirs), items, sorted) && page == TopK.Page(sorted, offset, limit);
    SortedIsInOrder(dirs, items, sorted);
    out := RowsOf(page);
  }

  lemma {:induction false} TiedColumns(dirs: seq<Direction>, a: seq<Value>, b: seq<Value>, i: nat, c: nat)
    requires |a| == |b| == |dirs| && i <= c < |dirs| && Tuple(dirs, a, b, i) == 0
    ensures CompareSlots(a[c], b[c]) == 0
    decreases c - i
  {
    if i < c {
      TiedColumns(dirs, a, b, i + 1, c);
    }
  }

  // However ties are broken, the key tuples at each position of the page compare equal column by column.
  lemma {:induction false} KeyTuplesAreDetermined(dirs: seq<Direction>, items: seq<Item>, a: seq<Item>, b: seq<Item>, offset: nat, limit: nat, i: nat, c: nat)
    requires Comparable(dirs, items) && TopK.SortOf(ItemLess(dirs), items, a) && TopK.SortOf(ItemLess(dirs), items, b)
    requires i < |TopK.Page(a, offset, limit)| && c < |dirs|
    ensures i < |TopK.Page(b, offset, limit)|
    ensures var x, y := TopK.Page(a, offset, limit)[i], TopK.Page(b, offset, limit)[i];
            |x.keys| == |y.keys| == |dirs| && CompareSlots(x.keys[c], y.keys[c]) == 0
  {
    ItemsAreOrdered(dirs, items);
    TopK.PagesTie(ItemLess(dirs), items, a, b, offset, limit);
    var x, y := TopK.Page(a, offset, limit)[i], TopK.Page(b, offset, limit)[i];
    assert x in multiset(a) && y in multiset(b);
    assert x in items && y in items;
    LessIsTuple(dirs, x.keys, y.keys, 0);
    LessIsTuple(dirs, y.keys, x.keys, 0);
    TupleReverses(dirs, x.keys, y.keys, 0);
    TiedColumns(dirs, x.keys, y.keys, 0, c);
  }

  // In sorted rows NULLS FIRST and LAST put the first column's NULLs and MISSINGs all before or all after
  // the others, whatever its direction.
  lemma {:induction false} NullsAreApart(dirs: seq<Direction>, items: seq<Item>, sorted: seq<Item>, i: nat, j: nat)
    requires Comparable(dirs, items) && TopK.SortOf(ItemLess(dirs), items, sorted) && i < j < |sorted| && dirs != []
    ensures |sorted[i].keys| == |sorted[j].keys| == |dirs|
    ensures dirs[0].nulls == First && Nullish(sorted[j].keys[0]) ==> Nullish(sorted[i].keys[0])
    ensures dirs[0].nulls == Last && Nullish(sorted[i].keys[0]) ==> Nullish(sorted[j].keys[0])
  {
    assert sorted[i] in multiset(sorted) && sorted[j] in multiset(sorted);
    assert sorted[i] in items && sorted[j] in items;
    assert !ItemLess(dirs)(sorted[j], sorted[i]);
  }

  // ---------------------------------------------------------------- the heap's items

  // ValsProjectedEncode: the length of the encoded key tuple, that tuple, and the row.
  function ProjectedEncode(vals: seq<Str>, projected: seq<Str>): Str
  {
    Uint64(|Encode(projected)|) + Encode(projected) + Encode(vals)
  }

  // It leaves room for the length and writes it once the tuple is encoded.
  method ValsProjectedEncode(vals: seq<Str>, projected: seq<Str>) returns (out: Str)
    ensures out == ProjectedEncode(vals, projected)
  {
    out := [0, 0, 0, 0, 0, 0, 0, 0];
    out := ValsEncode(projected, out);
    var buf8 := Uint64(|out| - 8);
    out := buf8 + out[8..];
    out := ValsEncode(vals, out);
  }

  function DecodeVals(b: Str): seq<Str>
  {
    if |b| < 8 || 8 + FromLittleEndian(b[..8]) > |b| then [] else Decode(b[8 + FromLittleEndian(b[..8])..])
  }

  function DecodeProjected(b: Str): seq<Str>
  {
    if |b| < 8 || 8 + FromLittleEndian(b[..8]) > |b| then [] else Decode(b[8..8 + FromLittleEndian(b[..8])])
  }

  // Both decoders give back what was encoded.
  lemma {:induction false} ProjectedRoundTrip(vals: seq<Str>, projected: seq<Str>)
    requires Encodable(vals) && Encodable(projected) && |Encode(projected)| < TWO64
    ensures DecodeVals(ProjectedEncode(vals, projected)) == vals
    ensures DecodeProjected(ProjectedEncode(vals, projected)) == projected
  {
    var p, v := Encode(projected), Encode(vals);
    var b := ProjectedEncode(vals, projected);
    assert b == Uint64(|p|) + (p + v);
    Uint64RoundTrip(|p|, p + v);
    assert b[8..8 + |p|] == p && b[8 + |p|..] == v;
    DecodeInverts(vals);
    DecodeInverts(projected);
  }
}
