// The theory behind base/ahocorasick.go: tries, longest suffixes, failure links, outputs, and the
// breadth-first order in which the links become final.
module Automaton {
  import opened Bytes

  // ---------------------------------------------------------------- the trie, declaratively

  // spell[n] is the string spelled by the goto edges from the root to node n.
  ghost predicate Trie(next: seq<map<Byte, nat>>, spell: seq<Str>)
  {
    && |next| == |spell| > 0
    && spell[0] == []
    && (forall n, b :: 0 <= n < |next| && b in next[n] ==>
          0 < next[n][b] < |next| && spell[next[n][b]] == spell[n] + [b])
    && (forall n :: 0 < n < |spell| ==> HasParent(next, spell, n))
  }

  ghost predicate HasParent(next: seq<map<Byte, nat>>, spell: seq<Str>, n: int)
    requires |next| == |spell| && 0 <= n < |spell|
  {
    spell[n] != [] && exists p :: IsParent(next, spell, p, n)
  }

  ghost predicate IsParent(next: seq<map<Byte, nat>>, spell: seq<Str>, p: int, n: int)
    requires |next| == |spell| && 0 <= n < |spell|
  {
    && 0 <= p < |next| && spell[n] != []
    && spell[p] == spell[n][..|spell[n]| - 1]
    && spell[n][|spell[n]| - 1] in next[p] && next[p][spell[n][|spell[n]| - 1]] == n
  }

  // Distinct nodes spell distinct strings.
  lemma {:induction false} SpellingsAreDistinct(next: seq<map<Byte, nat>>, spell: seq<Str>, m: nat, n: nat)
    requires Trie(next, spell) && m < |spell| && n < |spell| && spell[m] == spell[n]
    ensures m == n
    decreases |spell[m]|
  {
    assert m == 0 || HasParent(next, spell, m);
    assert n == 0 || HasParent(next, spell, n);
    if m != 0 && n != 0 {
      var p :| IsParent(next, spell, p, m);
      var q :| IsParent(next, spell, q, n);
      SpellingsAreDistinct(next, spell, p, q);
    }
  }

  // The trie is closed under dropping the last byte.
  lemma TrieIsPrefixClosed(next: seq<map<Byte, nat>>, spell: seq<Str>, v: Str, c: Byte)
    requires Trie(next, spell) && v + [c] in spell
    ensures v in spell
    ensures forall n :: 0 <= n < |spell| && spell[n] == v ==> c in next[n] && spell[next[n][c]] == v + [c]
  {
    var m :| 0 <= m < |spell| && spell[m] == v + [c];
    assert HasParent(next, spell, m);
    var p :| IsParent(next, spell, p, m);
    assert spell[m][..|spell[m]| - 1] == v;
    forall n | 0 <= n < |spell| && spell[n] == v ensures c in next[n] && spell[next[n][c]] == v + [c] {
      SpellingsAreDistinct(next, spell, n, p);
    }
  }

  // Appending a fresh leaf under a node keeps the trie.
  lemma TrieGrows(next: seq<map<Byte, nat>>, spell: seq<Str>, node: nat, b: Byte)
    requires Trie(next, spell) && node < |next| && b !in next[node]
    ensures Trie((next + [map[]])[node := next[node][b := |next|]], spell + [spell[node] + [b]])
  {
    var next' := (next + [map[]])[node := next[node][b := |next|]];
    var spell' := spell + [spell[node] + [b]];
    forall n | 0 < n < |spell'| ensures HasParent(next', spell', n) {
      if n < |spell| {
        assert HasParent(next, spell, n);
        var p :| IsParent(next, spell, p, n);
        assert IsParent(next', spell', p, n);
      } else {
        assert spell'[n][..|spell'[n]| - 1] == spell[node];
        assert IsParent(next', spell', node, n);
      }
    }
  }

  // ---------------------------------------------------------------- the automaton's states

  // Node n spells the longest trie string that is a suffix of t: the state a scan of t must be in.
  ghost predicate LongestSuffix(spell: seq<Str>, t: Str, n: nat)
  {
    && n < |spell| && IsSuffix(spell[n], t)
    && forall m :: 0 <= m < |spell| && IsSuffix(spell[m], t) ==> |spell[m]| <= |spell[n]|
  }

  // Failure links: the longest proper suffix of the node's own string.
  ghost predicate FailLink(spell: seq<Str>, fail: seq<nat>, n: nat)
    requires n < |spell| == |fail|
  {
    if n == 0 then fail[0] == 0
    else spell[n] != [] && LongestSuffix(spell, spell[n][1..], fail[n])
  }

  // While a step from text t on byte c falls back, f is the current node: every trie string
  // that could become the new state extends a suffix no longer than f's.
  ghost predicate Falling(spell: seq<Str>, t: Str, c: Byte, f: nat)
  {
    && f < |spell| && IsSuffix(spell[f], t)
    && forall v :: IsSuffix(v, t) && v + [c] in spell ==> |v| <= |spell[f]|
  }

  lemma FallingStarts(next: seq<map<Byte, nat>>, spell: seq<Str>, t: Str, c: Byte, f: nat)
    requires Trie(next, spell) && LongestSuffix(spell, t, f)
    ensures Falling(spell, t, c, f)
  {
    forall v | IsSuffix(v, t) && v + [c] in spell ensures |v| <= |spell[f]| {
      TrieIsPrefixClosed(next, spell, v, c);
      var m :| 0 <= m < |spell| && spell[m] == v;
    }
  }

  // The fallback stops at an edge on c, and the child is the longest suffix of t + [c].
  lemma FallingLands(next: seq<map<Byte, nat>>, spell: seq<Str>, t: Str, c: Byte, f: nat)
    requires Trie(next, spell) && Falling(spell, t, c, f) && c in next[f]
    ensures LongestSuffix(spell, t + [c], next[f][c])
  {
    SuffixAppend(spell[f], t, c);
    forall m | 0 <= m < |spell| && IsSuffix(spell[m], t + [c]) ensures |spell[m]| <= |spell[f]| + 1 {
      if spell[m] != [] {
        SuffixOfAppend(spell[m], t, c);
      }
    }
  }

  // ... or at the root, where no trie string ends in c.
  lemma FallingFailsAtRoot(next: seq<map<Byte, nat>>, spell: seq<Str>, t: Str, c: Byte)
    requires Trie(next, spell) && Falling(spell, t, c, 0) && c !in next[0]
    ensures LongestSuffix(spell, t + [c], 0)
  {
    forall m | 0 <= m < |spell| && IsSuffix(spell[m], t + [c]) ensures |spell[m]| <= 0 {
      if spell[m] != [] {
        SuffixOfAppend(spell[m], t, c);
        var v := spell[m][..|spell[m]| - 1];
        TrieIsPrefixClosed(next, spell, v, c);
      }
    }
  }

  // ... and otherwise the failure link keeps the fallback on track, strictly closer to the root.
  lemma FallingFollowsFail(next: seq<map<Byte, nat>>, spell: seq<Str>, fail: seq<nat>, t: Str, c: Byte, f: nat)
    requires Trie(next, spell) && Falling(spell, t, c, f) && c !in next[f] && f != 0
    requires |fail| == |spell| && FailLink(spell, fail, f)
    ensures Falling(spell, t, c, fail[f]) && |spell[fail[f]]| < |spell[f]|
  {
    assert HasParent(next, spell, f);
    var g := fail[f];
    assert IsSuffix(spell[f][1..], spell[f]);
    SuffixTransitive(spell[g], spell[f][1..], spell[f]);
    SuffixTransitive(spell[g], spell[f], t);
    forall v | IsSuffix(v, t) && v + [c] in spell ensures |v| <= |spell[g]| {
      TrieIsPrefixClosed(next, spell, v, c);
      SuffixesNest(v, spell[f], t);
      ProperSuffix(v, spell[f]);
      var m :| 0 <= m < |spell| && spell[m] == v;
    }
  }

  // The state after a scan is a function of the bytes read, however they were sliced.
  lemma StateIsUnique(next: seq<map<Byte, nat>>, spell: seq<Str>, t: Str, m: nat, n: nat)
    requires Trie(next, spell) && LongestSuffix(spell, t, m) && LongestSuffix(spell, t, n)
    ensures m == n
  {
    SuffixesNest(spell[m], spell[n], t);
    assert spell[n][0..] == spell[n];
    SpellingsAreDistinct(next, spell, m, n);
  }

  // ---------------------------------------------------------------- outputs

  ghost predicate Terminal(patterns: seq<Str>, s: Str, id: nat)
  {
    id < |patterns| && patterns[id] != [] && patterns[id] == s
  }

  // Pattern id is nonempty and ends wherever the text s ends.
  ghost predicate EndsHere(patterns: seq<Str>, s: Str, id: nat)
  {
    id < |patterns| && patterns[id] != [] && IsSuffix(patterns[id], s)
  }

  ghost predicate OwnOutput(patterns: seq<Str>, s: Str, out: seq<nat>)
  {
    forall id: nat :: id in out <==> Terminal(patterns, s, id)
  }

  ghost predicate FullOutput(patterns: seq<Str>, s: Str, out: seq<nat>)
  {
    forall id: nat :: id in out <==> EndsHere(patterns, s, id)
  }

  ghost predicate PatternsInTrie(patterns: seq<Str>, spell: seq<Str>)
  {
    forall id: nat :: id < |patterns| && patterns[id] != [] ==> patterns[id] in spell
  }

  // Flattening: a node's own patterns plus its failure node's are all that end at the node.
  lemma {:induction false} FlattenedOutput(spell: seq<Str>, patterns: seq<Str>, own: seq<nat>, outs: seq<nat>, n: nat, f: nat)
    requires n < |spell| && spell[n] != [] && LongestSuffix(spell, spell[n][1..], f)
    requires PatternsInTrie(patterns, spell)
    requires OwnOutput(patterns, spell[n], own)
    requires FullOutput(patterns, spell[f], outs)
    ensures FullOutput(patterns, spell[n], own + outs)
  {
    var tail := spell[n][1..];
    assert IsSuffix(tail, spell[n]);
    forall id: nat ensures id in own + outs <==> EndsHere(patterns, spell[n], id) {
      if id in outs {
        SuffixTransitive(patterns[id], spell[f], tail);
        SuffixTransitive(patterns[id], tail, spell[n]);
      }
      if EndsHere(patterns, spell[n], id) && patterns[id] != spell[n] {
        ProperSuffix(patterns[id], spell[n]);
        var m :| 0 <= m < |spell| && spell[m] == patterns[id];
        SuffixesNest(spell[m], spell[f], tail);
      }
    }
  }

  // The patterns ending at a scan's state are those ending at the end of the text.
  lemma StateReportsEnds(spell: seq<Str>, patterns: seq<Str>, t: Str, n: nat, id: nat)
    requires LongestSuffix(spell, t, n)
    requires PatternsInTrie(patterns, spell)
    ensures EndsHere(patterns, spell[n], id) <==> EndsHere(patterns, t, id)
  {
    if EndsHere(patterns, spell[n], id) {
      SuffixTransitive(patterns[id], spell[n], t);
    }
    if EndsHere(patterns, t, id) {
      var m :| 0 <= m < |spell| && spell[m] == patterns[id];
      SuffixesNest(spell[m], spell[n], t);
    }
  }

  // What a scan of t reports: the patterns occurring in t, the empty one included.
  ghost function Present(patterns: seq<Str>, t: Str): set<nat>
  {
    set id | 0 <= id < |patterns| && Occurs(patterns[id], t)
  }

  // The nonempty patterns that occur in t.
  ghost function Found(patterns: seq<Str>, t: Str): set<nat>
  {
    set id | 0 <= id < |patterns| && patterns[id] != [] && Occurs(patterns[id], t)
  }

  ghost function Ids(outs: seq<nat>): set<nat>
  {
    set id | id in outs
  }

  ghost function Empties(patterns: seq<Str>): set<nat>
  {
    set id | 0 <= id < |patterns| && patterns[id] == []
  }

  lemma FoundNothingYet(patterns: seq<Str>)
    ensures Found(patterns, []) == {}
  {
  }

  // One more byte adds exactly the patterns that end at it.
  lemma {:induction false} FoundGrows(patterns: seq<Str>, t: Str, c: Byte)
    ensures forall id: nat :: id in Found(patterns, t + [c]) <==> id in Found(patterns, t) || EndsHere(patterns, t + [c], id)
  {
    forall id: nat
      ensures id in Found(patterns, t + [c]) <==> id in Found(patterns, t) || EndsHere(patterns, t + [c], id)
    {
      if id < |patterns| && patterns[id] != [] {
        var p := patterns[id];
        OccursIsSuffixOfPrefix(p, t);
        OccursIsSuffixOfPrefix(p, t + [c]);
        assert (t + [c])[..|t| + 1] == t + [c];
        forall e | 0 <= e <= |t| ensures (t + [c])[..e] == t[..e] { }
      }
    }
  }

  // Adding the new state's output to what was found keeps the account exact.
  lemma {:induction false} OutputExtendsFound(spell: seq<Str>, patterns: seq<Str>, t: Str, c: Byte, n: nat, outs: seq<nat>)
    requires LongestSuffix(spell, t + [c], n) && PatternsInTrie(patterns, spell)
    requires FullOutput(patterns, spell[n], outs)
    ensures Found(patterns, t + [c]) == Found(patterns, t) + Ids(outs)
  {
    FoundGrows(patterns, t, c);
    forall id: nat ensures id in outs <==> EndsHere(patterns, t + [c], id) {
      StateReportsEnds(spell, patterns, t + [c], n, id);
    }
  }

  // A scan that starts over from the root's own state has the empty patterns too.
  lemma {:induction false} RootStateCompletes(patterns: seq<Str>, t: Str, b: Str, had: set<nat>)
    requires had - Empties(patterns) == Found(patterns, t)
    ensures had + Empties(patterns) + Found(patterns, t + b) == Present(patterns, t + b)
  {
    PresentSplits(patterns, t + b);
    FoundMonotone(patterns, t, b);
  }

  lemma {:induction false} FoundMonotone(patterns: seq<Str>, t: Str, b: Str)
    ensures Found(patterns, t) <= Found(patterns, t + b)
  {
    forall id | id in Found(patterns, t) ensures Occurs(patterns[id], t + b) {
      OccursInside(patterns[id], [], t, b);
      assert [] + t + b == t + b;
    }
  }

  lemma PresentSplits(patterns: seq<Str>, t: Str)
    ensures Present(patterns, t) == Empties(patterns) + Found(patterns, t)
  {
    forall id | id in Empties(patterns) ensures id in Present(patterns, t) {
      assert OccursAt(patterns[id], t, 0);
    }
  }

  // ---------------------------------------------------------------- breadth-first order

  // linked: nodes whose links are final; expanded: those whose children are linked too; the
  // queue holds the rest of linked, at depths d and d + 1, and nothing up to depth d is missing.
  ghost predicate Frontier(next: seq<map<Byte, nat>>, spell: seq<Str>, queue: seq<nat>,
                           linked: set<nat>, expanded: set<nat>, d: nat)
    requires |next| == |spell|
  {
    && 0 in expanded && expanded <= linked
    && (forall n :: n in linked ==> n < |spell| && (n in expanded || n in queue))
    && QueueByDepth(spell, queue, d)
    && (forall n :: n in queue ==> n in linked && n !in expanded)
    && (forall n: nat, b: Byte :: EdgeLinked(next, linked, expanded, 0, {}, n, b))
    && DepthLinked(spell, linked, d)
  }

  ghost predicate QueueByDepth(spell: seq<Str>, queue: seq<nat>, d: nat)
  {
    && (forall i :: 0 <= i < |queue| ==> queue[i] < |spell| && d <= |spell[queue[i]]| <= d + 1)
    && (forall i, j :: 0 <= i < j < |queue| ==>
          queue[i] != queue[j] && |spell[queue[i]]| <= |spell[queue[j]]|)
  }

  ghost predicate DepthLinked(spell: seq<Str>, linked: set<nat>, d: nat)
  {
    forall n: nat :: n < |spell| && |spell[n]| <= d ==> n in linked
  }

  // The links of the nodes in linked are final, the other nodes still hold their own patterns only.
  ghost predicate Links(patterns: seq<Str>, spell: seq<Str>, fail: seq<nat>, output: seq<seq<nat>>, linked: set<nat>)
    requires |fail| == |output| == |spell|
  {
    && (forall n :: n in linked ==>
          n < |spell| && FailLink(spell, fail, n) && FullOutput(patterns, spell[n], output[n]))
    && (forall n :: 0 <= n < |spell| && n !in linked ==> OwnOutput(patterns, spell[n], output[n]))
  }

  lemma {:induction false} LinksGrow(patterns: seq<Str>, spell: seq<Str>, fail: seq<nat>, output: seq<seq<nat>>, linked: set<nat>,
                  child: nat, x: nat, outs: seq<nat>)
    requires |fail| == |output| == |spell| && Links(patterns, spell, fail, output, linked)
    requires 0 < child < |spell| && child !in linked
    requires spell[child] != [] && LongestSuffix(spell, spell[child][1..], x)
    requires FullOutput(patterns, spell[child], outs)
    ensures Links(patterns, spell, fail[child := x], output[child := outs], linked + {child})
  {
    var fail', output' := fail[child := x], output[child := outs];
    forall n | n in linked ensures FailLink(spell, fail', n) && FullOutput(patterns, spell[n], output'[n]) {
      assert FailLink(spell, fail, n) && fail'[n] == fail[n];
    }
  }

  // The child on an edge is linked exactly when its parent is expanded that far.
  ghost predicate EdgeLinked(next: seq<map<Byte, nat>>, linked: set<nat>, expanded: set<nat>,
                             node: nat, todo: set<Byte>, n: nat, b: Byte)
  {
    n < |next| && b in next[n] ==> (next[n][b] in linked <==> n in expanded || (n == node && b !in todo))
  }

  // Midway through expanding node: its children on the bytes in todo are still to be linked.
  ghost predicate Expanding(next: seq<map<Byte, nat>>, spell: seq<Str>, queue: seq<nat>, linked: set<nat>,
                            expanded: set<nat>, node: nat, todo: set<Byte>)
    requires |next| == |spell| && node < |spell|
  {
    && expanded <= linked && node in linked && node !in expanded
    && (forall n :: n in linked ==> n < |spell| && (n in expanded || n == node || n in queue))
    && QueueByDepth(spell, queue, |spell[node]|)
    && (forall n :: n in queue ==> n in linked && n !in expanded && n != node)
    && (forall n: nat, b: Byte :: EdgeLinked(next, linked, expanded, node, todo, n, b))
    && DepthLinked(spell, linked, |spell[node]|)
  }

  lemma {:induction false} ExpandingStep(next: seq<map<Byte, nat>>, spell: seq<Str>, queue: seq<nat>, linked: set<nat>,
                      expanded: set<nat>, node: nat, todo: set<Byte>, b: Byte)
    requires Trie(next, spell) && node < |spell| && b in todo && b in next[node]
    requires Expanding(next, spell, queue, linked, expanded, node, todo)
    ensures next[node][b] !in linked
    ensures Expanding(next, spell, queue + [next[node][b]], linked + {next[node][b]}, expanded, node, todo - {b})
  {
    var child: nat := next[node][b];
    assert EdgeLinked(next, linked, expanded, node, todo, node, b);
    assert spell[child] == spell[node] + [b];
    forall n: nat, c | n < |next| && c in next[n] && next[n][c] == child ensures n == node && c == b {
      assert spell[child] == spell[n] + [c];
      assert spell[child][..|spell[n]|] == spell[n];
      assert spell[child][..|spell[node]|] == spell[node];
      SpellingsAreDistinct(next, spell, n, node);
    }
    forall n: nat, c: Byte ensures EdgeLinked(next, linked + {child}, expanded, node, todo - {b}, n, c) {
      assert EdgeLinked(next, linked, expanded, node, todo, n, c);
    }
    assert DepthLinked(spell, linked, |spell[node]|);
  }

  lemma {:induction false} ExpandingStarts(next: seq<map<Byte, nat>>, spell: seq<Str>, pending: seq<nat>, linked: set<nat>,
                        expanded: set<nat>, node: nat)
    requires |next| == |spell| && node < |spell|
    requires Frontier(next, spell, [node] + pending, linked, expanded, |spell[node]|)
    ensures Expanding(next, spell, pending, linked, expanded, node, next[node].Keys)
  {
    var queue := [node] + pending;
    assert queue[0] == node && queue[1..] == pending;
    forall n: nat, c: Byte ensures EdgeLinked(next, linked, expanded, node, next[node].Keys, n, c) {
      assert EdgeLinked(next, linked, expanded, 0, {}, n, c);
    }
    assert QueueByDepth(spell, pending, |spell[node]|) by {
      assert forall i :: 0 <= i < |pending| ==> pending[i] == queue[i + 1];
    }
  }

  lemma {:induction false} ExpandingEnds(next: seq<map<Byte, nat>>, spell: seq<Str>, queue: seq<nat>, linked: set<nat>,
                      expanded: set<nat>, node: nat)
    requires |next| == |spell| && node < |spell| && (node == 0 || 0 in expanded)
    requires Expanding(next, spell, queue, linked, expanded, node, {})
    ensures Frontier(next, spell, queue, linked, expanded + {node}, |spell[node]|)
  {
    forall n: nat, c: Byte ensures EdgeLinked(next, linked, expanded + {node}, 0, {}, n, c) {
      assert EdgeLinked(next, linked, expanded, node, {}, n, c);
    }
  }

  ghost function NodesBelow(n: nat): (s: set<nat>)
    ensures forall i: nat :: i in s <==> i < n
  {
    if n == 0 then {} else NodesBelow(n - 1) + {n - 1}
  }

  // When the queue's head has moved a level down, the level it left is complete.
  lemma {:induction false} FrontierDescends(next: seq<map<Byte, nat>>, spell: seq<Str>, queue: seq<nat>,
                         linked: set<nat>, expanded: set<nat>, d: nat)
    requires Trie(next, spell) && queue != [] && Frontier(next, spell, queue, linked, expanded, d)
    ensures Frontier(next, spell, queue, linked, expanded, |spell[queue[0]]|)
  {
    var d' := |spell[queue[0]]|;
    if d' == d + 1 {
      forall n | 0 <= n < |spell| && |spell[n]| == d' ensures n in linked {
        assert HasParent(next, spell, n);
        var p :| IsParent(next, spell, p, n);
        assert p in linked && p !in queue;
        assert EdgeLinked(next, linked, expanded, 0, {}, p, spell[n][|spell[n]| - 1]);
      }
    }
  }

  lemma {:induction false} EmptyQueueLinksAll(next: seq<map<Byte, nat>>, spell: seq<Str>,
                                              linked: set<nat>, expanded: set<nat>, d: nat, n: nat)
    requires Trie(next, spell) && Frontier(next, spell, [], linked, expanded, d) && n < |spell|
    ensures n in linked
    decreases |spell[n]|
  {
    if n != 0 {
      assert HasParent(next, spell, n);
      var p :| IsParent(next, spell, p, n);
      EmptyQueueLinksAll(next, spell, linked, expanded, d, p);
      assert EdgeLinked(next, linked, expanded, 0, {}, p, spell[n][|spell[n]| - 1]);
    }
  }
}
