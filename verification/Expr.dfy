// Expression trees and their evaluation on a row (engine/expr.go, engine/expr_str.go,
// engine/expr_logic.go, base/logic.go, base/base.go).
module Expr {
  import opened Bytes
  import opened Json
  import Collation

  // A row slot or an expression's result; a MISSING slot is the empty byte string.
  datatype Value = Missing | Val(j: Json)

  // A tree is a list headed by an operator name; ["json", text] carries the parsed text.
  datatype Node = Word(w: string) | Const(j: Json) | List(items: seq<Node>)

  // What an operator sees of one of its parameters.
  datatype Arg = Operand(v: Value) | Raw(n: Node)

  // The operators, and jsonparser's navigation into a slot.
  datatype Env = Env(ops: (string, seq<Arg>) -> Value, nav: (Json, seq<string>) -> Value)

  predicate IsTree(n: Node)
  {
    n.List? && |n.items| > 0 && n.items[0].Word?
  }

  predicate HasHead(n: Node, head: string)
  {
    IsTree(n) && n.items[0].w == head
  }

  function IndexOf(labels: seq<string>, label_: string): (idx: int)
    ensures -1 <= idx < |labels|
    ensures idx >= 0 ==> labels[idx] == label_ && label_ !in labels[..idx]
    ensures idx == -1 ==> label_ !in labels
  {
    if labels == [] then -1
    else if labels[0] == label_ then 0
    else
      var r := IndexOf(labels[1..], label_);
      assert labels == [labels[0]] + labels[1..];
      if r == -1 then -1 else assert labels[..r + 1] == [labels[0]] + labels[1..][..r]; r + 1
  }

  // The string steps of a labelPath; other parameters cannot occur (the source panics on them).
  function Steps(items: seq<Node>): seq<string>
  {
    if items == [] then []
    else (if items[0].Word? then [items[0].w] else []) + Steps(items[1..])
  }

  // ExprLabelPath
  function ReadLabel(env: Env, labels: seq<string>, row: seq<Value>, items: seq<Node>): Value
  {
    if |items| < 2 || !items[1].Word? then Missing
    else
      var idx := IndexOf(labels, items[1].w);
      if idx < 0 || idx >= |row| then Missing
      else if |items| == 2 || row[idx].Missing? then row[idx]
      else env.nav(row[idx].j, Steps(items[2..]))
  }

  function Eval(env: Env, labels: seq<string>, row: seq<Value>, n: Node): Value
    decreases n, 1
  {
    if !IsTree(n) then Missing
    else if n.items[0].w == "json" then
      if |n.items| >= 2 && n.items[1].Const? then Val(n.items[1].j) else Missing
    else if n.items[0].w == "labelPath" then ReadLabel(env, labels, row, n.items)
    else env.ops(n.items[0].w, EvalArgs(env, labels, row, n.items[1..]))
  }

  function EvalArgs(env: Env, labels: seq<string>, row: seq<Value>, items: seq<Node>): (args: seq<Arg>)
    ensures |args| == |items|
    ensures forall i :: 0 <= i < |items| ==>
              args[i] == if IsTree(items[i]) then Operand(Eval(env, labels, row, items[i])) else Raw(items[i])
    decreases items, 0
  {
    if items == [] then []
    else
      [if IsTree(items[0]) then Operand(Eval(env, labels, row, items[0])) else Raw(items[0])]
      + EvalArgs(env, labels, row, items[1..])
  }

  // MakeProjectFunc
  function Project(env: Env, labels: seq<string>, row: seq<Value>, proj: seq<Node>): (out: seq<Value>)
    ensures |out| == |proj|
    ensures forall i :: 0 <= i < |proj| ==> out[i] == Eval(env, labels, row, proj[i])
  {
    seq(|proj|, i requires 0 <= i < |proj| => Eval(env, labels, row, proj[i]))
  }

  // ValTruthy
  predicate Truthy(v: Value)
  {
    match v
    case Missing => false
    case Val(Null) => false
    case Val(Bool(b)) => b
    case Val(Number(r, _)) => r != 0.0
    case Val(String(s)) => s != []
    case Val(Array(items)) => items != []
    case Val(Object(fields)) => fields != []
  }

  // What is not truthy, listed.
  ghost predicate Falsy(v: Value)
  {
    || v == Missing
    || v.j in {Null, Bool(false), String([]), Array([]), Object([])}
    || (v.j.Number? && v.j.v == 0.0)
  }

  lemma TruthyUnlessFalsy(v: Value)
    ensures Truthy(v) <==> !Falsy(v)
  {
  }

  // LogicAnd2
  function And2(a: Value, b: Value): Value
  {
    if (Valued(a) && !Truthy(a)) || (Valued(b) && !Truthy(b)) then Val(Bool(false))
    else if a.Missing? || b.Missing? then Missing
    else if a == Val(Null) || b == Val(Null) then Val(Null)
    else Val(Bool(true))
  }

  // ValHasValue
  predicate Valued(v: Value)
  {
    v.Val? && v.j != Null
  }

  // StrContains
  ghost function StrContains(a: Value, b: Value): Value
  {
    if a.Missing? || b.Missing? then Missing
    else if !a.j.String? || !b.j.String? then Val(Null)
    else Val(Bool(Occurs(b.j.s, a.j.s)))
  }

  // The regexp metacharacters .*+?()[]{}|^$\ that keep a pattern from being a plain substring.
  predicate IsMeta(b: Byte)
  {
    b in [0x2E, 0x2A, 0x2B, 0x3F, 0x28, 0x29, 0x5B, 0x5D, 0x7B, 0x7D, 0x7C, 0x5E, 0x24, 0x5C]
  }

  predicate PlainPattern(p: Str)
  {
    p != [] && forall i :: 0 <= i < |p| ==> !IsMeta(p[i])
  }

  // What the operators the index knows about are built from: the two-operand string and logic
  // operators read their first two parameters only, and a pattern without metacharacters
  // matches as a substring (REGEXP_LIKE: as the whole string).
  ghost predicate StandardOps(env: Env)
  {
    && (forall args: seq<Arg> :: |args| >= 2 && args[0].Operand? && args[1].Operand? ==>
          env.ops("contains", args) == StrContains(args[0].v, args[1].v))
    && (forall args: seq<Arg> :: |args| >= 2 && args[0].Operand? && args[1].Operand? ==>
          env.ops("and", args) == And2(args[0].v, args[1].v))
    && (forall args: seq<Arg> :: |args| >= 2 && args[0].Operand? && args[1].Operand? ==>
          (Truthy(env.ops("eq", args)) <==>
           Valued(args[0].v) && Valued(args[1].v) && Collation.Compare(args[0].v.j, args[1].v.j) == 0))
    && (forall args: seq<Arg> :: PatternArgs(args) ==>
          (Truthy(env.ops("regexp_contains", args)) <==>
           args[0].v.Val? && args[0].v.j.String? && Occurs(args[1].v.j.s, args[0].v.j.s)))
    && (forall args: seq<Arg> :: PatternArgs(args) ==>
          (Truthy(env.ops("regexp_like", args)) <==>
           args[0].v.Val? && args[0].v.j.String? && args[0].v.j.s == args[1].v.j.s))
  }

  ghost predicate PatternArgs(args: seq<Arg>)
  {
    && |args| >= 2 && args[0].Operand? && args[1].Operand?
    && args[1].v.Val? && args[1].v.j.String? && PlainPattern(args[1].v.j.s)
  }

  // jsonparser.Get finds nothing that is not inside the value it navigates.
  ghost predicate StandardNav(env: Env)
  {
    forall j: Json, steps: seq<string> :: env.nav(j, steps).Val? ==> Inside(env.nav(j, steps).j, j)
  }

  // ---------------------------------------------------------------- the bytes of a row

  function SlotBytes(v: Value): Str
  {
    if v.Missing? then [] else Text(v.j)
  }

  function RowBytes(row: seq<Value>): Str
  {
    if row == [] then [] else RowBytes(row[..|row| - 1]) + SlotBytes(row[|row| - 1])
  }

  lemma {:induction false} SlotOccurs(row: seq<Value>, i: nat)
    requires i < |row|
    ensures Occurs(SlotBytes(row[i]), RowBytes(row))
  {
    var n := |row| - 1;
    var head, last := RowBytes(row[..n]), SlotBytes(row[n]);
    if i == n {
      OccursInSelf(last);
      OccursInside(last, head, last, []);
      assert head + last + [] == head + last;
    } else {
      SlotOccurs(row[..n], i);
      OccursInside(SlotBytes(row[i]), [], head, last);
      assert [] + head + last == head + last;
    }
  }

  // A string read from a row sits, byte for byte, in the row's bytes.
  lemma FieldStringOccurs(env: Env, labels: seq<string>, row: seq<Value>, n: Node)
    requires StandardNav(env) && HasHead(n, "labelPath")
    requires Eval(env, labels, row, n).Val? && Eval(env, labels, row, n).j.String?
    ensures row != [] && Occurs(Eval(env, labels, row, n).j.s, RowBytes(row))
  {
    var v := Eval(env, labels, row, n);
    var idx := IndexOf(labels, n.items[1].w);
    SlotOccurs(row, idx);
    NestedTextOccurs(v.j, row[idx].j);
    OccursInSelf(v.j.s);
    OccursInside(v.j.s, [QUOTE], v.j.s, [QUOTE]);
    OccursTransitive(v.j.s, Text(v.j), Text(row[idx].j));
    OccursTransitive(v.j.s, Text(row[idx].j), RowBytes(row));
  }
}
