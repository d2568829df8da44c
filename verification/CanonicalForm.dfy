// base/canonical.go: the canonical form is ordinary JSON text, that of a value in normal form.
module CanonicalForm {
  import opened Bytes
  import opened Json
  import opened Collation

  // The value with its fields in name order and its numbers as fmt writes them, at every depth.
  function Normal(fmt: real -> Str, j: Json): (n: Json)
    decreases Height(j), 0
  {
    match j
    case Number(v, _) => Number(v, fmt(v))
    case Array(items) => Array(NormalItems(fmt, items))
    case Object(fields) =>
      OrderedFacts(fields);
      Object(NormalFields(fmt, Ordered(fields), FieldsHeight(fields)))
    case _ => j
  }

  function NormalItems(fmt: real -> Str, items: seq<Json>): (r: seq<Json>)
    ensures |r| == |items| && forall i :: 0 <= i < |items| ==> r[i] == Normal(fmt, items[i])
    decreases ItemsHeight(items), 1, |items|
  {
    if items == [] then [] else [Normal(fmt, items[0])] + NormalItems(fmt, items[1..])
  }

  function NormalFields(fmt: real -> Str, kvs: seq<KeyVal>, h: nat): (r: seq<Field>)
    requires forall i :: 0 <= i < |kvs| ==> Height(kvs[i].val) <= h
    ensures |r| == |kvs| && forall i :: 0 <= i < |kvs| ==> r[i] == Field(kvs[i].key, Normal(fmt, kvs[i].val))
    decreases h, 1, |kvs|
  {
    if kvs == [] then [] else [Field(kvs[0].key, Normal(fmt, kvs[0].val))] + NormalFields(fmt, kvs[1..], h)
  }

  lemma {:induction false} CanonicalIsText(fmt: real -> Str, j: Json)
    ensures Canonical(fmt, j) == Text(Normal(fmt, j))
    decreases Height(j), 0, 0
  {
    match j
    case Array(items) => ItemsAreText(fmt, items);
    case Object(fields) =>
      OrderedFacts(fields);
      FieldsAreText(fmt, Ordered(fields), FieldsHeight(fields));
    case _ =>
  }

  lemma {:induction false} ItemsAreText(fmt: real -> Str, items: seq<Json>)
    ensures CanonicalItems(fmt, items) == ItemsText(NormalItems(fmt, items))
    decreases ItemsHeight(items), 1, |items|
  {
    if items != [] {
      CanonicalIsText(fmt, items[0]);
      ItemsAreText(fmt, items[1..]);
      assert NormalItems(fmt, items)[1..] == NormalItems(fmt, items[1..]);
    }
  }

  lemma {:induction false} FieldsAreText(fmt: real -> Str, kvs: seq<KeyVal>, h: nat)
    requires forall i :: 0 <= i < |kvs| ==> Height(kvs[i].val) <= h
    ensures CanonicalPairs(fmt, kvs, h) == FieldsText(NormalFields(fmt, kvs, h))
    decreases h, 1, |kvs|
  {
    if kvs != [] {
      CanonicalIsText(fmt, kvs[0].val);
      FieldsAreText(fmt, kvs[1..], h);
      assert NormalFields(fmt, kvs, h)[1..] == NormalFields(fmt, kvs[1..], h);
    }
  }

  // The normal form of an object has exactly its fields, each with its normal value, names ascending.
  lemma {:induction false} NormalObject(fmt: real -> Str, fields: seq<Field>)
    requires UniqueNames(Object(fields))
    ensures var n := Normal(fmt, Object(fields));
            && n.Object? && |n.fields| == |fields|
            && (forall i, k :: 0 <= i < k < |n.fields| ==> Lex(n.fields[i].name, n.fields[k].name) < 0)
            && forall i :: 0 <= i < |fields| ==> Field(fields[i].name, Normal(fmt, fields[i].val)) in n.fields
  {
    var kvs := KeyVals(fields, 0);
    OrderedFacts(fields);
    InMultiset(kvs, Ordered(fields));
    OrderedAscends(fields);
    var n := Normal(fmt, Object(fields));
    forall i | 0 <= i < |fields| ensures Field(fields[i].name, Normal(fmt, fields[i].val)) in n.fields {
      assert kvs[i] in Ordered(fields);
      var k :| 0 <= k < |fields| && Ordered(fields)[k] == kvs[i];
      assert n.fields[k] == Field(fields[i].name, Normal(fmt, fields[i].val));
    }
  }

  lemma {:induction false} OrderedAscends(fields: seq<Field>)
    requires UniqueNames(Object(fields))
    ensures forall i, k :: 0 <= i < k < |Ordered(fields)| ==> Lex(Ordered(fields)[i].key, Ordered(fields)[k].key) < 0
  {
    var kvs := KeyVals(fields, 0);
    SortSorts(kvs);
    InMultiset(Ordered(fields), kvs);
    forall i, k | 0 <= i < k < |Ordered(fields)| ensures Lex(Ordered(fields)[i].key, Ordered(fields)[k].key) < 0 {
      assert Less(Ordered(fields)[i], Ordered(fields)[k]);
      assert Ordered(fields)[i] in kvs && Ordered(fields)[k] in kvs;
    }
  }
}
