// JSON values as the engine sees them once a slot's bytes have been parsed, and their text.
module Json {
  import opened Bytes

  const QUOTE: Byte := 0x22
  const BACKSLASH: Byte := 0x5C
  const COMMA: Byte := 0x2C
  const COLON: Byte := 0x3A
  const LBRACKET: Byte := 0x5B
  const RBRACKET: Byte := 0x5D
  const LBRACE: Byte := 0x7B
  const RBRACE: Byte := 0x7D
  const TRUE: Str := [0x74, 0x72, 0x75, 0x65]
  const FALSE: Str := [0x66, 0x61, 0x6C, 0x73, 0x65]
  const NULL: Str := [0x6E, 0x75, 0x6C, 0x6C]

  // String contents that need no escape (RFC 8259, section 7).
  type Plain = s: Str | IsPlain(s)

  predicate IsPlain(s: Str)
  {
    forall i :: 0 <= i < |s| ==> s[i] != QUOTE && s[i] != BACKSLASH && s[i] >= 0x20
  }

  // A number keeps its source text beside the value it parses to.
  datatype Json =
    | Null
    | Bool(b: bool)
    | Number(v: real, text: Str)
    | String(s: Plain)
    | Array(items: seq<Json>)
    | Object(fields: seq<Field>)

  datatype Field = Field(name: Plain, val: Json)

  function Height(j: Json): nat
  {
    match j
    case Array(items) => 1 + ItemsHeight(items)
    case Object(fields) => 1 + FieldsHeight(fields)
    case _ => 0
  }

  function ItemsHeight(items: seq<Json>): (h: nat)
    ensures forall i :: 0 <= i < |items| ==> Height(items[i]) <= h
  {
    if items == [] then 0 else Max(Height(items[0]), ItemsHeight(items[1..]))
  }

  function FieldsHeight(fields: seq<Field>): (h: nat)
    ensures forall i :: 0 <= i < |fields| ==> Height(fields[i].val) <= h
  {
    if fields == [] then 0 else Max(Height(fields[0].val), FieldsHeight(fields[1..]))
  }

  function Max(x: int, y: int): int
  {
    if x < y then y else x
  }

  // ---------------------------------------------------------------- text

  function Quoted(s: Str): Str
  {
    [QUOTE] + s + [QUOTE]
  }

  // The compact text of a value: what a row's slot holds.
  function Text(j: Json): Str
    decreases j
  {
    match j
    case Null => NULL
    case Bool(b) => if b then TRUE else FALSE
    case Number(_, text) => text
    case String(s) => Quoted(s)
    case Array(items) => [LBRACKET] + ItemsText(items) + [RBRACKET]
    case Object(fields) => [LBRACE] + FieldsText(fields) + [RBRACE]
  }

  function ItemsText(items: seq<Json>): Str
    decreases items
  {
    if items == [] then []
    else if |items| == 1 then Text(items[0])
    else Text(items[0]) + [COMMA] + ItemsText(items[1..])
  }

  function FieldText(f: Field): Str
    decreases f
  {
    Quoted(f.name) + [COLON] + Text(f.val)
  }

  function FieldsText(fields: seq<Field>): Str
    decreases fields
  {
    if fields == [] then []
    else if |fields| == 1 then FieldText(fields[0])
    else FieldText(fields[0]) + [COMMA] + FieldsText(fields[1..])
  }

  // v is j itself or sits somewhere inside it: all that path navigation can return.
  ghost predicate Inside(v: Json, j: Json)
    decreases j
  {
    || v == j
    || (j.Array? && exists i :: 0 <= i < |j.items| && Inside(v, j.items[i]))
    || (j.Object? && exists i :: 0 <= i < |j.fields| && Inside(v, j.fields[i].val))
  }

  // The text of a nested value is part of the text around it.
  lemma {:induction false} NestedTextOccurs(v: Json, j: Json)
    requires Inside(v, j)
    ensures Occurs(Text(v), Text(j))
    decreases j
  {
    if v == j {
      OccursInSelf(Text(j));
    } else if j.Array? {
      var i :| 0 <= i < |j.items| && Inside(v, j.items[i]);
      NestedTextOccurs(v, j.items[i]);
      ItemTextOccurs(j.items, i);
      OccursTransitive(Text(v), Text(j.items[i]), ItemsText(j.items));
      OccursInside(Text(v), [LBRACKET], ItemsText(j.items), [RBRACKET]);
    } else {
      var i :| 0 <= i < |j.fields| && Inside(v, j.fields[i].val);
      NestedTextOccurs(v, j.fields[i].val);
      FieldTextOccurs(j.fields, i);
      OccursTransitive(Text(v), Text(j.fields[i].val), FieldsText(j.fields));
      OccursInside(Text(v), [LBRACE], FieldsText(j.fields), [RBRACE]);
    }
  }

  lemma {:induction false} ItemTextOccurs(items: seq<Json>, i: nat)
    requires i < |items|
    ensures Occurs(Text(items[i]), ItemsText(items))
  {
    var t := Text(items[i]);
    if |items| == 1 {
      OccursInSelf(t);
    } else if i == 0 {
      OccursInSelf(t);
      OccursInside(t, [], t, [COMMA] + ItemsText(items[1..]));
      assert [] + t + ([COMMA] + ItemsText(items[1..])) == ItemsText(items);
    } else {
      ItemTextOccurs(items[1..], i - 1);
      OccursInside(t, Text(items[0]) + [COMMA], ItemsText(items[1..]), []);
      assert Text(items[0]) + [COMMA] + ItemsText(items[1..]) + [] == ItemsText(items);
    }
  }

  lemma {:induction false} FieldTextOccurs(fields: seq<Field>, i: nat)
    requires i < |fields|
    ensures Occurs(Text(fields[i].val), FieldsText(fields))
  {
    var t := Text(fields[i].val);
    var f := FieldText(fields[i]);
    OccursInSelf(t);
    OccursInside(t, Quoted(fields[i].name) + [COLON], t, []);
    assert Quoted(fields[i].name) + [COLON] + t + [] == f;
    if |fields| == 1 {
    } else if i == 0 {
      OccursInside(t, [], f, [COMMA] + FieldsText(fields[1..]));
      assert [] + f + ([COMMA] + FieldsText(fields[1..])) == FieldsText(fields);
    } else {
      FieldTextOccurs(fields[1..], i - 1);
      OccursInside(t, FieldText(fields[0]) + [COMMA], FieldsText(fields[1..]), []);
      assert FieldText(fields[0]) + [COMMA] + FieldsText(fields[1..]) + [] == FieldsText(fields);
    }
  }
}
