// Visiting parts of a collection in some order, each at most once.
module Selection {
  import opened Seqs

  ghost predicate Once(order: seq<nat>)
  {
    forall i, j :: 0 <= i < j < |order| ==> order[i] != order[j]
  }

  ghost function Members(order: seq<nat>): set<nat>
  {
    set i | i in order
  }

  function PartAt<T>(parts: seq<seq<T>>, i: nat): seq<T>
  {
    if i < |parts| then parts[i] else []
  }

  function Concat<T>(parts: seq<seq<T>>, k: nat): seq<T>
  {
    if k == 0 then [] else Concat(parts, k - 1) + PartAt(parts, k - 1)
  }

  // All that the visited parts hold.
  ghost function Visited<T>(parts: seq<seq<T>>, order: seq<nat>): multiset<T>
  {
    if order == [] then multiset{} else multiset(PartAt(parts, order[0])) + Visited(parts, order[1..])
  }

  // All that the chosen ones among the first k parts hold.
  ghost function Chosen<T>(parts: seq<seq<T>>, chosen: set<nat>, k: nat): multiset<T>
  {
    if k == 0 then multiset{}
    else Chosen(parts, chosen, k - 1) + (if k - 1 in chosen then multiset(PartAt(parts, k - 1)) else multiset{})
  }

  lemma {:induction false} VisitedAppend<T>(parts: seq<seq<T>>, a: seq<nat>, b: seq<nat>)
    ensures Visited(parts, a + b) == Visited(parts, a) + Visited(parts, b)
    decreases |a|
  {
    if a == [] {
      assert a + b == b;
    } else {
      assert (a + b)[1..] == a[1..] + b;
      VisitedAppend(parts, a[1..], b);
    }
  }

  lemma VisitedOne<T>(parts: seq<seq<T>>, i: nat)
    ensures Visited(parts, [i]) == multiset(PartAt(parts, i))
  {
    assert [i][1..] == [];
  }

  lemma {:induction false} VisitedWithout<T>(parts: seq<seq<T>>, order: seq<nat>, p: nat)
    requires p < |order|
    ensures Visited(parts, order) == Visited(parts, Without(order, p)) + multiset(PartAt(parts, order[p]))
  {
    var a, i, b := order[..p], order[p], order[p + 1..];
    assert order == a + [i] + b;
    VisitedAppend(parts, a + [i], b);
    VisitedAppend(parts, a, [i]);
    VisitedAppend(parts, a, b);
    VisitedOne(parts, i);
  }

  ghost function Below(chosen: set<nat>, k: nat): set<nat>
  {
    set i | i in chosen && i < k
  }

  lemma MembersWithout(order: seq<nat>, p: nat)
    requires p < |order| && Once(order)
    ensures Once(Without(order, p)) && Members(Without(order, p)) == Members(order) - {order[p]}
  {
    var rest := Without(order, p);
    forall x | x in order && x != order[p] ensures x in rest {
      var i :| 0 <= i < |order| && order[i] == x;
      assert x == rest[if i < p then i else i - 1];
    }
  }

  lemma PickLast(order: seq<nat>, chosen: set<nat>, k: nat) returns (p: nat)
    requires Once(order) && k > 0 && Members(order) == Below(chosen, k) && k - 1 in chosen
    ensures p < |order| && order[p] == k - 1
    ensures Once(Without(order, p)) && Members(Without(order, p)) == Below(chosen, k - 1)
  {
    assert k - 1 in Members(order);
    p :| p < |order| && order[p] == k - 1;
    MembersWithout(order, p);
  }

  lemma NothingChosen<T>(parts: seq<seq<T>>, chosen: set<nat>, order: seq<nat>)
    requires Members(order) == Below(chosen, 0)
    ensures Visited(parts, order) == Chosen(parts, chosen, 0)
  {
    assert forall i :: 0 <= i < |order| ==> order[i] in Members(order);
  }

  lemma {:induction false} ChosenStep<T>(parts: seq<seq<T>>, chosen: set<nat>, k: nat, order: seq<nat>, p: nat)
    requires p < |order| && order[p] == k - 1 && k - 1 in chosen
    requires Visited(parts, Without(order, p)) == Chosen(parts, chosen, k - 1)
    ensures Visited(parts, order) == Chosen(parts, chosen, k)
  {
    VisitedWithout(parts, order, p);
  }

  // Visiting the chosen parts, each once, in whatever order, yields what the chosen parts hold.
  lemma {:induction false} VisitedIsChosen<T>(parts: seq<seq<T>>, chosen: set<nat>, k: nat, order: seq<nat>)
    requires Once(order) && Members(order) == Below(chosen, k)
    ensures Visited(parts, order) == Chosen(parts, chosen, k)
    decreases k
  {
    if k == 0 {
      NothingChosen(parts, chosen, order);
    } else if k - 1 in chosen {
      var p := PickLast(order, chosen, k);
      VisitedIsChosen(parts, chosen, k - 1, Without(order, p));
      ChosenStep(parts, chosen, k, order, p);
    } else {
      assert Below(chosen, k) == Below(chosen, k - 1);
      VisitedIsChosen(parts, chosen, k - 1, order);
    }
  }

  // Leaving out empty parts leaves out nothing.
  lemma {:induction false} ChosenIsAll<T>(parts: seq<seq<T>>, chosen: set<nat>, k: nat)
    requires forall i :: 0 <= i < k && i < |parts| && i !in chosen ==> parts[i] == []
    ensures Chosen(parts, chosen, k) == multiset(Concat(parts, k))
    decreases k
  {
    if k > 0 {
      ChosenIsAll(parts, chosen, k - 1);
    }
  }

  // ---------------------------------------------------------------- bags, added up

  ghost function Total<T>(bags: seq<multiset<T>>, n: nat): multiset<T>
    requires n <= |bags|
  {
    if n == 0 then multiset{} else Total(bags, n - 1) + bags[n - 1]
  }

  lemma {:induction false} TotalIsConcat<T>(bags: seq<multiset<T>>, parts: seq<seq<T>>, n: nat)
    requires n <= |bags| == |parts| && forall i :: 0 <= i < n ==> bags[i] == multiset(parts[i])
    ensures Total(bags, n) == multiset(Concat(parts, n))
    decreases n
  {
    if n > 0 {
      TotalIsConcat(bags, parts, n - 1);
    }
  }
}
