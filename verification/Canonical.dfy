// base/canonical.go: CanonicalJSONWithType, appending to an output buffer.
module CanonicalBuffer {
  import opened Bytes
  import opened Json
  import opened Collation

  lemma Appends(a: Str, b: Str, c: Str)
    ensures (a + b) + c == a + (b + c)
  {
  }

  // The value's canonical text is appended to what is there.
  method CanonicalJSON(fmt: real -> Str, j: Json, out: Str) returns (rv: Str)
    ensures rv == out + Canonical(fmt, j)
    decreases Height(j), 1
  {
    match j
    case Null => rv := out + NULL;
    case Bool(b) => rv := out + (if b then TRUE else FALSE);
    case Number(v, _) => rv := out + fmt(v);
    case String(s) => rv := out + Quoted(s);
    case Array(items) => rv := CanonicalArray(fmt, items, out);
    case Object(fields) => rv := CanonicalObject(fmt, fields, out);
  }

  // What of an array's text is still to be written at element i.
  function ItemsFrom(fmt: real -> Str, items: seq<Json>, i: nat): Str
    requires i <= |items|
  {
    if i == |items| then [] else (if i > 0 then [COMMA] else []) + CanonicalItems(fmt, items[i..])
  }

  lemma {:induction false} ItemsStep(fmt: real -> Str, items: seq<Json>, i: nat)
    requires i < |items|
    ensures ItemsFrom(fmt, items, i) == (if i > 0 then [COMMA] else []) + (Canonical(fmt, items[i]) + ItemsFrom(fmt, items, i + 1))
  {
    var rest := items[i..];
    assert rest[0] == items[i] && rest[1..] == items[i + 1..];
    if |rest| == 1 {
      assert Canonical(fmt, items[i]) + [] == Canonical(fmt, items[i]);
    } else {
      Appends(Canonical(fmt, items[i]), [COMMA], CanonicalItems(fmt, items[i + 1..]));
    }
  }

  method CanonicalArray(fmt: real -> Str, items: seq<Json>, out: Str) returns (rv: Str)
    ensures rv == out + Canonical(fmt, Array(items))
    decreases ItemsHeight(items) + 1, 0
  {
    rv := out + [LBRACKET];
    assert items[0..] == items;
    for i: nat := 0 to |items|
      invariant rv + ItemsFrom(fmt, items, i) == (out + [LBRACKET]) + CanonicalItems(fmt, items)
    {
      ItemsStep(fmt, items, i);
      var sep: Str := if i > 0 then [COMMA] else [];
      Appends(rv, sep, Canonical(fmt, items[i]) + ItemsFrom(fmt, items, i + 1));
      Appends(rv + sep, Canonical(fmt, items[i]), ItemsFrom(fmt, items, i + 1));
      rv := CanonicalJSON(fmt, items[i], rv + sep);
    }
    assert rv + [] == rv;
    rv := rv + [RBRACKET];
    Appends(out, [LBRACKET], CanonicalItems(fmt, items));
    Appends(out, [LBRACKET] + CanonicalItems(fmt, items), [RBRACKET]);
  }

  function PairsFrom(fmt: real -> Str, kvs: seq<KeyVal>, h: nat, i: nat): Str
    requires i <= |kvs| && forall k :: 0 <= k < |kvs| ==> Height(kvs[k].val) <= h
  {
    if i == |kvs| then [] else (if i > 0 then [COMMA] else []) + CanonicalPairs(fmt, kvs[i..], h)
  }

  lemma {:induction false} PairsStep(fmt: real -> Str, kvs: seq<KeyVal>, h: nat, i: nat)
    requires i < |kvs| && forall k :: 0 <= k < |kvs| ==> Height(kvs[k].val) <= h
    ensures PairsFrom(fmt, kvs, h, i) ==
            (if i > 0 then [COMMA] else []) + ((Quoted(kvs[i].key) + [COLON] + Canonical(fmt, kvs[i].val)) + PairsFrom(fmt, kvs, h, i + 1))
  {
    var rest := kvs[i..];
    var head := Quoted(kvs[i].key) + [COLON] + Canonical(fmt, kvs[i].val);
    assert rest[0] == kvs[i] && rest[1..] == kvs[i + 1..];
    if |rest| == 1 {
      assert head + [] == head;
    } else {
      Appends(head, [COMMA], CanonicalPairs(fmt, kvs[i + 1..], h));
    }
  }

  // The fields are collected, sorted by name, and written out in that order.
  method CanonicalObject(fmt: real -> Str, fields: seq<Field>, out: Str) returns (rv: Str)
    ensures rv == out + Canonical(fmt, Object(fields))
    decreases FieldsHeight(fields) + 1, 0
  {
    OrderedFacts(fields);
    var kvs := Ordered(fields);
    ghost var h := FieldsHeight(fields);
    rv := out + [LBRACE];
    assert kvs[0..] == kvs;
    for i: nat := 0 to |kvs|
      invariant rv + PairsFrom(fmt, kvs, h, i) == (out + [LBRACE]) + CanonicalPairs(fmt, kvs, h)
    {
      PairsStep(fmt, kvs, h, i);
      var sep: Str := if i > 0 then [COMMA] else [];
      var name := Quoted(kvs[i].key) + [COLON];
      ghost var rest := PairsFrom(fmt, kvs, h, i + 1);
      Appends(rv, sep, (name + Canonical(fmt, kvs[i].val)) + rest);
      Appends(rv + sep, name + Canonical(fmt, kvs[i].val), rest);
      Appends(rv + sep, name, Canonical(fmt, kvs[i].val));
      rv := CanonicalJSON(fmt, kvs[i].val, rv + sep + name);
    }
    assert rv + [] == rv;
    rv := rv + [RBRACE];
    Appends(out, [LBRACE], CanonicalPairs(fmt, kvs, h));
    Appends(out, [LBRACE] + CanonicalPairs(fmt, kvs, h), [RBRACE]);
  }
}
