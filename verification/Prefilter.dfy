// The necessary-literal extractor of engine/op_broadcast_indexed.go.
module Prefilter {
  import opened Bytes
  import opened Json
  import opened Expr
  import Collation

  datatype Literal = None | Some(s: Plain)

  predicate IsFieldOperand(n: Node)
  {
    HasHead(n, "labelPath")
  }

  function JsonStringLiteral(n: Node): Literal
  {
    if HasHead(n, "json") && |n.items| >= 2 && n.items[1].Const? && n.items[1].j.String?
    then Some(n.items[1].j.s) else None
  }

  // A substring the row must contain whenever pred is true, or None.
  function PrefilterLiteral(pred: Node): Literal
    decreases pred, 1
  {
    if HasHead(pred, "contains") then
      if |pred.items| >= 3 && IsFieldOperand(pred.items[1]) then JsonStringLiteral(pred.items[2]) else None
    else if HasHead(pred, "eq") then
      if |pred.items| < 3 then None
      else if JsonStringLiteral(pred.items[2]).Some? && IsFieldOperand(pred.items[1]) then JsonStringLiteral(pred.items[2])
      else if JsonStringLiteral(pred.items[1]).Some? && IsFieldOperand(pred.items[2]) then JsonStringLiteral(pred.items[1])
      else None
    else if HasHead(pred, "regexp_contains") || HasHead(pred, "regexp_like") then
      if |pred.items| >= 3 && IsFieldOperand(pred.items[1]) then
        var lit := JsonStringLiteral(pred.items[2]);
        if lit.Some? && PlainPattern(lit.s) then lit else None
      else None
    else if HasHead(pred, "and") then FirstLiteral(pred.items[1..])
    else None
  }

  function FirstLiteral(conjuncts: seq<Node>): Literal
    decreases conjuncts, 0
  {
    if conjuncts == [] then None
    else
      var lit := if conjuncts[0].List? then PrefilterLiteral(conjuncts[0]) else None;
      if lit.Some? then lit else FirstLiteral(conjuncts[1..])
  }

  // ExprAnd evaluates its first two operands and no other; an "and" is well formed when it has
  // both, and its literal is usable when it comes from one of them.
  ghost predicate FromEvaluated(pred: Node)
    decreases pred
  {
    HasHead(pred, "and") ==>
      && |pred.items| >= 3 && IsTree(pred.items[1]) && IsTree(pred.items[2])
      && (if PrefilterLiteral(pred.items[1]).Some? then FromEvaluated(pred.items[1])
          else if PrefilterLiteral(pred.items[2]).Some? then FromEvaluated(pred.items[2])
          else PrefilterLiteral(pred).None?)
  }

  // Every "and" has exactly two operands, the only shape the optimizer emits.
  ghost predicate BinaryAnds(pred: Node)
    decreases pred
  {
    HasHead(pred, "and") ==>
      && |pred.items| == 3 && IsTree(pred.items[1]) && IsTree(pred.items[2])
      && BinaryAnds(pred.items[1]) && BinaryAnds(pred.items[2])
  }

  lemma {:induction false} BinaryAndsSuffice(pred: Node)
    requires BinaryAnds(pred)
    ensures FromEvaluated(pred)
    decreases pred
  {
    if HasHead(pred, "and") {
      BinaryAndsSuffice(pred.items[1]);
      BinaryAndsSuffice(pred.items[2]);
      TwoConjuncts(pred.items);
    }
  }

  lemma TwoConjuncts(items: seq<Node>)
    requires |items| >= 3 && items[1].List? && items[2].List?
    ensures PrefilterLiteral(items[1]).Some? ==> FirstLiteral(items[1..]) == PrefilterLiteral(items[1])
    ensures PrefilterLiteral(items[1]).None? && PrefilterLiteral(items[2]).Some? ==>
              FirstLiteral(items[1..]) == PrefilterLiteral(items[2])
    ensures PrefilterLiteral(items[1]).None? && PrefilterLiteral(items[2]).None? ==>
              FirstLiteral(items[1..]) == FirstLiteral(items[3..])
  {
    assert items[1..][1..] == items[2..] && items[2..][1..] == items[3..];
    assert items[1..][0] == items[1] && items[2..][0] == items[2];
  }

  function StringNode(s: Plain): Node
  {
    List([Word("json"), Const(String(s))])
  }

  // What is indexed: a field that contains or equals a string, on either side of the equality, or matches a
  // pattern without metacharacters; and of two conjuncts the first that is.
  lemma WhatIsIndexed(field: Node, s: Plain, a: Node, b: Node)
    requires IsFieldOperand(field) && a.List? && b.List?
    ensures PrefilterLiteral(List([Word("contains"), field, StringNode(s)])) == Some(s)
    ensures PrefilterLiteral(List([Word("eq"), field, StringNode(s)])) == Some(s)
    ensures PrefilterLiteral(List([Word("eq"), StringNode(s), field])) == Some(s)
    ensures PrefilterLiteral(List([Word("regexp_contains"), field, StringNode(s)])) == if PlainPattern(s) then Some(s) else None
    ensures PrefilterLiteral(List([Word("regexp_like"), field, StringNode(s)])) == if PlainPattern(s) then Some(s) else None
    ensures PrefilterLiteral(List([Word("and"), a, b])) == if PrefilterLiteral(a).Some? then PrefilterLiteral(a) else PrefilterLiteral(b)
  {
    TwoConjuncts([Word("and"), a, b]);
    assert [Word("and"), a, b][3..] == [];
  }

  // ---------------------------------------------------------------- the literal is necessary

  // lit is a substring of the bytes of any row of this shape on which pred is truthy.
  ghost predicate Necessary(env: Env, labels: seq<string>, row: seq<Value>, pred: Node, lit: Str)
  {
    Truthy(Eval(env, labels, row, pred)) ==> row != [] && Occurs(lit, RowBytes(row))
  }

  lemma EqualStrings(a: Json, s: Plain)
    ensures Collation.Compare(a, String(s)) == 0 ==> a == String(s)
    ensures Collation.Compare(String(s), a) == 0 ==> a == String(s)
  {
  }

  // The absence of the literal proves the predicate false: skipping the query is safe.
  lemma {:induction false} LiteralIsNecessary(env: Env, labels: seq<string>, row: seq<Value>, pred: Node)
    requires StandardOps(env) && StandardNav(env) && FromEvaluated(pred) && PrefilterLiteral(pred).Some?
    ensures Necessary(env, labels, row, pred, PrefilterLiteral(pred).s)
    decreases pred
  {
    var v := Eval(env, labels, row, pred);
    if Truthy(v) {
      var items := pred.items;
      var args := EvalArgs(env, labels, row, items[1..]);
      assert v == env.ops(items[0].w, args);
      assert items[1..][0] == items[1] && items[1..][1] == items[2];
      if HasHead(pred, "and") {
        TwoConjuncts(items);
        assert v == And2(args[0].v, args[1].v);
        LiteralIsNecessary(env, labels, row, if PrefilterLiteral(items[1]).Some? then items[1] else items[2]);
      } else {
        LeafLiteralIsNecessary(env, labels, row, pred, args);
      }
    }
  }

  lemma {:induction false} LeafLiteralIsNecessary(env: Env, labels: seq<string>, row: seq<Value>, pred: Node, args: seq<Arg>)
    requires StandardOps(env) && StandardNav(env) && PrefilterLiteral(pred).Some? && !HasHead(pred, "and")
    requires |args| == |pred.items| - 1 >= 2 && Truthy(env.ops(pred.items[0].w, args))
    requires forall i :: 0 <= i < 2 && IsTree(pred.items[i + 1]) ==> args[i] == Operand(Eval(env, labels, row, pred.items[i + 1]))
    ensures row != [] && Occurs(PrefilterLiteral(pred).s, RowBytes(row))
  {
    var items, lit := pred.items, PrefilterLiteral(pred).s;
    assert IsTree(items[0 + 1]) && IsTree(items[1 + 1]);
    if HasHead(pred, "eq") {
      var k := if JsonStringLiteral(items[2]).Some? && IsFieldOperand(items[1]) then 0 else 1;
      EqualStrings(args[k].v.j, lit);
      FieldStringOccurs(env, labels, row, items[k + 1]);
    } else {
      FieldStringOccurs(env, labels, row, items[1]);
      OccursInSelf(lit);
      OccursTransitive(lit, args[0].v.j.s, RowBytes(row));
    }
  }

  // ---------------------------------------------------------------- the limit of the extractor

  // Every "and" has two operands at least and n at most.
  ghost predicate AndsUpTo(n: nat, pred: Node)
    decreases pred
  {
    HasHead(pred, "and") ==>
      && 3 <= |pred.items| <= n + 1
      && forall i :: 1 <= i < |pred.items| ==> IsTree(pred.items[i]) && AndsUpTo(n, pred.items[i])
  }

  ghost predicate SoundUpTo(n: nat)
  {
    forall env: Env, labels: seq<string>, row: seq<Value>, pred: Node ::
      StandardOps(env) && StandardNav(env) && AndsUpTo(n, pred) && PrefilterLiteral(pred).Some? ==>
        Necessary(env, labels, row, pred, PrefilterLiteral(pred).s)
  }

  // One environment: these operators as they are, and every other one MISSING.
  ghost function CatalogOps(op: string, args: seq<Arg>): Value
  {
    var both := |args| >= 2 && args[0].Operand? && args[1].Operand?;
    if op == "contains" && both then StrContains(args[0].v, args[1].v)
    else if op == "and" && both then And2(args[0].v, args[1].v)
    else if op == "eq" && both then SameValue(args[0].v, args[1].v)
    else if op == "regexp_contains" && both then StrContains(args[0].v, args[1].v)
    else if op == "regexp_like" && both then Val(Bool(args[0].v.Val? && args[0].v == args[1].v))
    else Missing
  }

  ghost function SameValue(a: Value, b: Value): (v: Value)
    ensures Truthy(v) <==> Valued(a) && Valued(b) && Collation.Compare(a.j, b.j) == 0
  {
    Val(Bool(Valued(a) && Valued(b) && Collation.Compare(a.j, b.j) == 0))
  }

  ghost function CatalogEnv(): Env
  {
    Env((op, args) => CatalogOps(op, args), (j, steps) => Missing)
  }

  lemma CatalogOpsAreStandard(args: seq<Arg>)
    requires |args| >= 2 && args[0].Operand? && args[1].Operand?
    ensures CatalogOps("contains", args) == CatalogOps("regexp_contains", args) == StrContains(args[0].v, args[1].v)
    ensures CatalogOps("and", args) == And2(args[0].v, args[1].v)
    ensures CatalogOps("eq", args) == SameValue(args[0].v, args[1].v)
    ensures CatalogOps("regexp_like", args) == Val(Bool(args[0].v.Val? && args[0].v == args[1].v))
  {
  }

  lemma CatalogIsStandard()
    ensures StandardOps(CatalogEnv()) && StandardNav(CatalogEnv())
  {
    var env := CatalogEnv();
    forall op: string, args: seq<Arg> ensures env.ops(op, args) == CatalogOps(op, args) {
    }
    forall args: seq<Arg> | |args| >= 2 && args[0].Operand? && args[1].Operand?
      ensures env.ops("contains", args) == env.ops("regexp_contains", args) == StrContains(args[0].v, args[1].v)
      ensures env.ops("and", args) == And2(args[0].v, args[1].v)
      ensures env.ops("eq", args) == SameValue(args[0].v, args[1].v)
      ensures env.ops("regexp_like", args) == Val(Bool(args[0].v.Val? && args[0].v == args[1].v))
    {
      CatalogOpsAreStandard(args);
    }
  }

  // "and" of two constants and a third conjunct: its literal is extracted, but it is never evaluated.
  function ThirdConjunct(lit: Plain): Node
  {
    var yes := List([Word("json"), Const(Bool(true))]);
    List([Word("and"), yes, yes,
          List([Word("contains"), List([Word("labelPath"), Word(".")]), List([Word("json"), Const(String(lit))])])])
  }

  lemma ThirdIsExtracted(lit: Plain)
    ensures PrefilterLiteral(ThirdConjunct(lit)) == Some(lit)
  {
    var items := ThirdConjunct(lit).items;
    TwoConjuncts(items);
    assert items[3..][0] == items[3] && PrefilterLiteral(items[3]) == Some(lit);
  }

  lemma AndOfTrue(env: Env, args: seq<Arg>)
    requires StandardOps(env) && |args| >= 2 && args[0] == args[1] == Operand(Val(Bool(true)))
    ensures env.ops("and", args) == Val(Bool(true))
  {
  }

  lemma ThirdIsNotEvaluated(env: Env, labels: seq<string>, row: seq<Value>, lit: Plain)
    requires StandardOps(env)
    ensures Eval(env, labels, row, ThirdConjunct(lit)) == Val(Bool(true))
  {
    var items := ThirdConjunct(lit).items;
    assert items[1..][0] == items[1] && items[1..][1] == items[2];
    assert items[1].items[1] == Const(Bool(true)) && items[2].items[1] == Const(Bool(true));
    var args := EvalArgs(env, labels, row, items[1..]);
    AndOfTrue(env, args);
  }

  // So the predicate is true of every row, and the index drops each that does not contain the literal.
  lemma ThirdConjunctUnderWakes(env: Env, labels: seq<string>, row: seq<Value>, lit: Plain)
    requires StandardOps(env)
    ensures PrefilterLiteral(ThirdConjunct(lit)) == Some(lit) && Truthy(Eval(env, labels, row, ThirdConjunct(lit)))
    ensures Necessary(env, labels, row, ThirdConjunct(lit), lit) <==> row != [] && Occurs(lit, RowBytes(row))
  {
    ThirdIsExtracted(lit);
    ThirdIsNotEvaluated(env, labels, row, lit);
  }

  lemma {:induction false} TwoOperandsAreEvaluated(pred: Node)
    requires AndsUpTo(2, pred)
    ensures BinaryAnds(pred)
    decreases pred
  {
    if HasHead(pred, "and") {
      TwoOperandsAreEvaluated(pred.items[1]);
      TwoOperandsAreEvaluated(pred.items[2]);
    }
  }

  lemma BinaryIsSound()
    ensures SoundUpTo(2)
  {
    forall env: Env, labels: seq<string>, row: seq<Value>, pred: Node
      | StandardOps(env) && StandardNav(env) && AndsUpTo(2, pred) && PrefilterLiteral(pred).Some?
      ensures Necessary(env, labels, row, pred, PrefilterLiteral(pred).s)
    {
      TwoOperandsAreEvaluated(pred);
      BinaryAndsSuffice(pred);
      LiteralIsNecessary(env, labels, row, pred);
    }
  }

  lemma ThirdConjunctShape(n: nat, lit: Plain)
    requires n >= 3
    ensures AndsUpTo(n, ThirdConjunct(lit))
  {
    var items := ThirdConjunct(lit).items;
    forall i | 1 <= i < |items| ensures IsTree(items[i]) && !HasHead(items[i], "and") {
    }
  }

  lemma XIsNotInNull() returns (lit: Plain)
    ensures !Occurs(lit, RowBytes([Val(Null)]))
  {
    lit := [0x78];
    var row := [Val(Null)];
    assert row[..0] == [] && RowBytes(row) == NULL;
    forall i ensures !OccursAt(lit, NULL, i) {
      assert 0 <= i < |NULL| ==> NULL[i..i + 1] == [NULL[i]];
    }
  }

  lemma TernaryIsNot(n: nat)
    requires n >= 3
    ensures !SoundUpTo(n)
  {
    var lit := XIsNotInNull();
    var env, labels, row, pred := CatalogEnv(), ["."], [Val(Null)], ThirdConjunct(lit);
    CatalogIsStandard();
    ThirdConjunctShape(n, lit);
    ThirdConjunctUnderWakes(env, labels, row, lit);
    assert !Necessary(env, labels, row, pred, PrefilterLiteral(pred).s);
  }

  // The extracted literal is necessary for every predicate exactly when no "and" has more than two operands.
  lemma ExtractorSoundIffBinary(n: nat)
    requires n >= 2
    ensures SoundUpTo(n) <==> n == 2
  {
    if n == 2 {
      BinaryIsSound();
    } else {
      TernaryIsNot(n);
    }
  }
}
