// base/compare.go: which of two values comes first, kind by kind.
module CollationOrder {
  import opened Bytes
  import opened Json
  import opened Collation

  // Byte by byte, a proper prefix first.
  ghost predicate Before(x: Str, y: Str)
  {
    exists k: nat :: FirstByteBefore(x, y, k)
  }

  ghost predicate FirstByteBefore(x: Str, y: Str, k: nat)
  {
    && k <= |x| && k < |y| && x[..k] == y[..k]
    && (k < |x| ==> x[k] < y[k])
  }

  lemma SameFirst(x: Str, y: Str, k: nat)
    requires FirstByteBefore(x, y, k) && k > 0
    ensures x != [] && y != [] && x[0] == y[0]
  {
    assert x[..k][0] == x[0] && y[..k][0] == y[0];
  }

  lemma {:induction false} LexIsBefore(x: Str, y: Str)
    ensures Lex(x, y) < 0 <==> Before(x, y)
    decreases |x|
  {
    if x == [] || y == [] || x[0] != y[0] {
      if Lex(x, y) < 0 {
        assert FirstByteBefore(x, y, 0);
      }
      if k: nat :| FirstByteBefore(x, y, k) && k > 0 {
        SameFirst(x, y, k);
      }
    } else {
      LexIsBefore(x[1..], y[1..]);
      if k: nat :| FirstByteBefore(x[1..], y[1..], k) {
        assert x[..k + 1] == [x[0]] + x[1..][..k] && y[..k + 1] == [y[0]] + y[1..][..k];
        assert FirstByteBefore(x, y, k + 1);
      }
      if k: nat :| FirstByteBefore(x, y, k) {
        assert x[1..][..k - 1] == x[..k][1..] && y[1..][..k - 1] == y[..k][1..];
        assert FirstByteBefore(x[1..], y[1..], k - 1);
      }
    }
  }

  lemma NumbersInOrder(x: real, s: Str, y: real, t: Str)
    ensures Compare(Number(x, s), Number(y, t)) < 0 <==> x < y
    ensures Compare(Number(x, s), Number(y, t)) == 0 <==> x == y
  {
  }

  lemma BooleansInOrder()
    ensures Compare(Bool(false), Bool(true)) < 0 < Compare(Bool(true), Bool(false))
    ensures Compare(Bool(false), Bool(false)) == 0 == Compare(Bool(true), Bool(true))
  {
  }

  lemma {:induction false} StringsInOrder(x: Plain, y: Plain)
    ensures Compare(String(x), String(y)) < 0 <==> Before(x, y)
    ensures Compare(String(x), String(y)) == 0 <==> x == y
  {
    LexIsBefore(x, y);
  }

  // NULL, booleans, numbers, strings, arrays, objects.
  lemma KindsInOrder(a: Json, b: Json)
    ensures a.Null? && !b.Null? ==> Compare(a, b) < 0 < Compare(b, a)
    ensures a.Bool? && (b.Number? || b.String? || b.Array? || b.Object?) ==> Compare(a, b) < 0 < Compare(b, a)
    ensures a.Number? && (b.String? || b.Array? || b.Object?) ==> Compare(a, b) < 0 < Compare(b, a)
    ensures a.String? && (b.Array? || b.Object?) ==> Compare(a, b) < 0 < Compare(b, a)
    ensures a.Array? && b.Object? ==> Compare(a, b) < 0 < Compare(b, a)
    ensures a.Null? && b.Null? ==> Compare(a, b) == 0
  {
  }

  // ---------------------------------------------------------------- arrays

  // The first k elements are equal, and there xs ends or has the smaller element.
  ghost predicate ItemsBeforeAt(xs: seq<Json>, ys: seq<Json>, k: nat)
  {
    && k <= |xs| && k < |ys| && (forall i :: 0 <= i < k ==> Compare(xs[i], ys[i]) == 0)
    && (k < |xs| ==> Compare(xs[k], ys[k]) < 0)
  }

  lemma SameFirstItem(xs: seq<Json>, ys: seq<Json>, k: nat)
    requires ItemsBeforeAt(xs, ys, k) && k > 0
    ensures xs != [] && ys != [] && Compare(xs[0], ys[0]) == 0
  {
  }

  lemma {:induction false} ItemsInOrder(xs: seq<Json>, ys: seq<Json>)
    ensures CompareItems(xs, ys) < 0 <==> exists k: nat :: ItemsBeforeAt(xs, ys, k)
    decreases |xs|
  {
    if xs == [] || ys == [] || Compare(xs[0], ys[0]) != 0 {
      if CompareItems(xs, ys) < 0 {
        assert ItemsBeforeAt(xs, ys, 0);
      }
      if k: nat :| ItemsBeforeAt(xs, ys, k) && k > 0 {
        SameFirstItem(xs, ys, k);
      }
    } else {
      ItemsInOrder(xs[1..], ys[1..]);
      if k: nat :| ItemsBeforeAt(xs[1..], ys[1..], k) {
        ItemsMore(xs, ys, k);
      }
      if k: nat :| ItemsBeforeAt(xs, ys, k) {
        ItemsLess(xs, ys, k);
      }
    }
  }

  lemma {:induction false} ItemsMore(xs: seq<Json>, ys: seq<Json>, k: nat)
    requires xs != [] && ys != [] && Compare(xs[0], ys[0]) == 0 && ItemsBeforeAt(xs[1..], ys[1..], k)
    ensures ItemsBeforeAt(xs, ys, k + 1)
  {
    forall i | 0 <= i < k + 1 ensures Compare(xs[i], ys[i]) == 0 {
      if i > 0 {
        assert xs[1..][i - 1] == xs[i] && ys[1..][i - 1] == ys[i];
      }
    }
  }

  lemma {:induction false} ItemsLess(xs: seq<Json>, ys: seq<Json>, k: nat)
    requires xs != [] && ys != [] && Compare(xs[0], ys[0]) == 0 && ItemsBeforeAt(xs, ys, k)
    ensures k > 0 && ItemsBeforeAt(xs[1..], ys[1..], k - 1)
  {
    assert forall i :: 0 <= i < k - 1 ==> xs[1..][i] == xs[i + 1] && ys[1..][i] == ys[i + 1];
  }

  lemma {:induction false} ArraysInOrder(xs: seq<Json>, ys: seq<Json>)
    ensures Compare(Array(xs), Array(ys)) < 0 <==> exists k: nat :: ItemsBeforeAt(xs, ys, k)
  {
    ItemsInOrder(xs, ys);
  }

  // ---------------------------------------------------------------- objects

  // Ordered lists an object's fields, each name before the next.
  lemma {:induction false} OrderedIsByName(fields: seq<Field>)
    requires UniqueNames(Object(fields))
    ensures multiset(Ordered(fields)) == multiset(KeyVals(fields, 0))
    ensures forall i, j :: 0 <= i < j < |fields| ==> Before(Ordered(fields)[i].key, Ordered(fields)[j].key)
  {
    SortSorts(KeyVals(fields, 0));
    InMultiset(Ordered(fields), KeyVals(fields, 0));
    forall i, j | 0 <= i < j < |fields| ensures Before(Ordered(fields)[i].key, Ordered(fields)[j].key) {
      NameBefore(Ordered(fields)[i], Ordered(fields)[j]);
      assert Ordered(fields)[i] in KeyVals(fields, 0) && Ordered(fields)[j] in KeyVals(fields, 0);
    }
  }

  lemma {:induction false} NameBefore(x: KeyVal, y: KeyVal)
    ensures Less(x, y) && x.pos == y.pos ==> Before(x.key, y.key)
  {
    LexIsBefore(x.key, y.key);
  }

  // At the first field, in name order, in which two objects of one size differ, the first has the later
  // name, or under one name the smaller value.
  ghost predicate FieldsBeforeAt(xs: seq<KeyVal>, ys: seq<KeyVal>, k: nat)
  {
    && k < |xs| == |ys| && (forall i :: 0 <= i < k ==> xs[i].key == ys[i].key && Compare(xs[i].val, ys[i].val) == 0)
    && if xs[k].key == ys[k].key then Compare(xs[k].val, ys[k].val) < 0 else Before(ys[k].key, xs[k].key)
  }

  lemma SameFirstField(xs: seq<KeyVal>, ys: seq<KeyVal>, k: nat)
    requires FieldsBeforeAt(xs, ys, k) && k > 0
    ensures xs != [] && xs[0].key == ys[0].key && Compare(xs[0].val, ys[0].val) == 0
  {
  }

  lemma {:induction false} FieldsMore(xs: seq<KeyVal>, ys: seq<KeyVal>, k: nat)
    requires xs != [] && |xs| == |ys| && xs[0].key == ys[0].key && Compare(xs[0].val, ys[0].val) == 0 && FieldsBeforeAt(xs[1..], ys[1..], k)
    ensures FieldsBeforeAt(xs, ys, k + 1)
  {
    forall i | 0 <= i < k + 1 ensures xs[i].key == ys[i].key && Compare(xs[i].val, ys[i].val) == 0 {
      if i > 0 {
        assert xs[1..][i - 1] == xs[i] && ys[1..][i - 1] == ys[i];
      }
    }
  }

  lemma {:induction false} FieldsLess(xs: seq<KeyVal>, ys: seq<KeyVal>, k: nat)
    requires k > 0 && FieldsBeforeAt(xs, ys, k)
    ensures FieldsBeforeAt(xs[1..], ys[1..], k - 1)
  {
    assert forall i :: 0 <= i < k - 1 ==> xs[1..][i] == xs[i + 1] && ys[1..][i] == ys[i + 1];
  }

  lemma {:induction false} FieldsInOrder(xs: seq<KeyVal>, ys: seq<KeyVal>)
    requires |xs| == |ys|
    ensures CompareOrdered(xs, ys) < 0 <==> exists k: nat :: FieldsBeforeAt(xs, ys, k)
    decreases |xs|
  {
    if xs != [] {
      LexReverses(xs[0].key, ys[0].key);
      LexIsBefore(ys[0].key, xs[0].key);
      if xs[0].key != ys[0].key || Compare(xs[0].val, ys[0].val) != 0 {
        if CompareOrdered(xs, ys) < 0 {
          assert FieldsBeforeAt(xs, ys, 0);
        }
        if k: nat :| FieldsBeforeAt(xs, ys, k) && k > 0 {
          SameFirstField(xs, ys, k);
        }
      } else {
        FieldsInOrder(xs[1..], ys[1..]);
        if k: nat :| FieldsBeforeAt(xs[1..], ys[1..], k) {
          FieldsMore(xs, ys, k);
        }
        if k: nat :| FieldsBeforeAt(xs, ys, k) && k > 0 {
          FieldsLess(xs, ys, k);
        }
      }
    }
  }

  // The object with fewer fields first, then by the first field that differs.
  lemma {:induction false} ObjectsInOrder(xs: seq<Field>, ys: seq<Field>)
    requires UniqueNames(Object(xs)) && UniqueNames(Object(ys))
    ensures Compare(Object(xs), Object(ys)) < 0 <==>
            |xs| < |ys| || (|xs| == |ys| && exists k: nat :: FieldsBeforeAt(Ordered(xs), Ordered(ys), k))
  {
    if |xs| == |ys| {
      CompareObjects(xs, ys);
      FieldsInOrder(Ordered(xs), Ordered(ys));
    }
  }
}
