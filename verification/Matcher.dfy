// base/ahocorasick.go: the multi-pattern scanner behind the predicate index.
module Matcher {
  import opened Bytes
  import opened Automaton

  // ---------------------------------------------------------------- the match set

  class AhoCorasickMatches {
    var seen: array<bool>
    var ids: seq<nat>

    ghost predicate Valid()
      reads this, seen
    {
      && (forall i, j :: 0 <= i < j < |ids| ==> ids[i] != ids[j])
      && (forall id :: id in ids ==> id < seen.Length)
      && (forall id :: 0 <= id < seen.Length ==> (seen[id] <==> id in ids))
    }

    // The ids recorded so far.
    ghost function Contents(): set<nat>
      reads this
    {
      Ids(ids)
    }

    constructor (numPatterns: nat)
      ensures Valid() && fresh(seen) && seen.Length == numPatterns && Contents() == {}
    {
      seen := new bool[numPatterns](_ => false);
      ids := [];
    }

    method Reset()
      requires Valid()
      modifies this, seen
      ensures Valid() && seen == old(seen) && ids == [] && Contents() == {}
    {
      for i := 0 to |ids|
        invariant seen == old(seen) && ids == old(ids)
        invariant forall id :: id in ids ==> id < seen.Length
        invariant forall id :: 0 <= id < seen.Length ==> (seen[id] <==> id in ids[i..])
      {
        assert ids[i] in ids && ids[i..] == [ids[i]] + ids[i + 1..];
        seen[ids[i]] := false;
      }
      ids := [];
    }

    method Add(id: int)
      requires Valid()
      modifies this, seen
      ensures Valid() && seen == old(seen)
      ensures Contents() == old(Contents()) + (if 0 <= id < seen.Length then {id} else {})
    {
      if 0 <= id < seen.Length && !seen[id] {
        seen[id] := true;
        ids := ids + [id];
      }
    }

    method AddAll(outs: seq<nat>)
      requires Valid() && forall id :: id in outs ==> id < seen.Length
      modifies this, seen
      ensures Valid() && seen == old(seen)
      ensures Contents() == old(Contents()) + Ids(outs)
    {
      for i := 0 to |outs|
        invariant Valid() && seen == old(seen)
        invariant Contents() == old(Contents()) + Ids(outs[..i])
      {
        assert outs[i] in outs && outs[..i + 1] == outs[..i] + [outs[i]];
        assert Ids(outs[..i + 1]) == Ids(outs[..i]) + {outs[i]};
        Add(outs[i]);
      }
      assert outs[..|outs|] == outs;
    }
  }

  // ---------------------------------------------------------------- the automaton

  class AhoCorasick {
    ghost const patterns: seq<Str>
    ghost var spell: seq<Str>
    var next: seq<map<Byte, nat>>
    var fail: seq<nat>
    var output: seq<seq<nat>>
    var numPatterns: nat
    var emptyIDs: seq<nat>

    // The first k patterns are in the trie, no links yet.
    ghost predicate Growing(k: nat)
      reads this
      requires k <= |patterns|
    {
      && Trie(next, spell) && |fail| == |output| == |next|
      && PatternsInTrie(patterns[..k], spell)
      && (forall n :: 0 <= n < |spell| ==> OwnOutput(patterns[..k], spell[n], output[n]))
      && (forall n :: 0 <= n < |fail| ==> fail[n] == 0)
      && Ids(emptyIDs) == Empties(patterns[..k])
      && numPatterns == |patterns|
    }

    ghost predicate Valid()
      reads this
    {
      && Trie(next, spell) && |fail| == |output| == |next|
      && PatternsInTrie(patterns, spell)
      && (forall n :: 0 <= n < |spell| ==> FailLink(spell, fail, n))
      && (forall n :: 0 <= n < |spell| ==> FullOutput(patterns, spell[n], output[n]))
      && Ids(emptyIDs) == Empties(patterns)
      && numPatterns == |patterns|
    }

    // Insert patterns[k] into the goto trie, recording its id at the terminal node.
    method Insert(k: nat, p: Str)
      requires k < |patterns| && p == patterns[k] && Growing(k)
      modifies this
      ensures Growing(k + 1)
    {
      assert patterns[..k + 1] == patterns[..k] + [p];
      if |p| == 0 {
        emptyIDs := emptyIDs + [k];
        assert Ids(emptyIDs) == Ids(old(emptyIDs)) + {k};
        return;
      }
      var node: nat := 0;
      var i := 0;
      while i < |p|
        invariant 0 <= i <= |p| && node < |next| && Growing(k) && spell[node] == p[..i]
      {
        var b := p[i];
        assert p[..i + 1] == p[..i] + [b];
        if b in next[node] {
          node := next[node][b];
        } else {
          AddChild(k, node, b);
          node := next[node][b];
        }
        i := i + 1;
      }
      assert p[..i] == p;
      ghost var before := output;
      output := output[node := output[node] + [k]];
      forall n | 0 <= n < |spell| ensures OwnOutput(patterns[..k + 1], spell[n], output[n]) {
        assert OwnOutput(patterns[..k], spell[n], before[n]);
        if n != node && spell[n] == p {
          SpellingsAreDistinct(next, spell, n, node);
        }
      }
    }

    method AddChild(k: nat, node: nat, b: Byte)
      requires k < |patterns| && Growing(k) && node < |next| && b !in next[node]
      modifies this`next, this`fail, this`output, this`spell
      ensures Growing(k) && node < |next| && b in next[node] && spell[node] == old(spell[node])
    {
      var nxt := |next|;
      if spell[node] + [b] in spell {
        TrieIsPrefixClosed(next, spell, spell[node], b);
      }
      TrieGrows(next, spell, node, b);
      next := next + [map[]];
      fail := fail + [0];
      output := output + [[]];
      next := next[node := next[node][b := nxt]];
      spell := spell + [spell[node] + [b]];
    }

    // ---- the breadth-first pass

    ghost predicate Linking(linked: set<nat>)
      reads this
    {
      && Trie(next, spell) && |fail| == |output| == |next|
      && PatternsInTrie(patterns, spell)
      && Ids(emptyIDs) == Empties(patterns)
      && numPatterns == |patterns|
      && Links(patterns, spell, fail, output, linked)
    }

    // Walk the parent's failure chain to a node with an edge on b: the child's failure link.
    method FailureOf(node: nat, b: Byte, ghost linked: set<nat>) returns (x: nat)
      requires Linking(linked) && node < |next| && b in next[node] && node in linked && node != 0
      requires DepthLinked(spell, linked, |spell[node]|)
      ensures LongestSuffix(spell, spell[node][1..] + [b], x)
    {
      ghost var tail := spell[node][1..];
      var f: nat := fail[node];
      FallingStarts(next, spell, tail, b, f);
      while true
        invariant f < |next| && Falling(spell, tail, b, f)
        decreases |spell[f]|
      {
        if b in next[f] && f != node {
          FallingLands(next, spell, tail, b, f);
          return next[f][b];
        }
        if f == 0 {
          FallingFailsAtRoot(next, spell, tail, b);
          return 0;
        }
        assert FailLink(spell, fail, f);
        FallingFollowsFail(next, spell, fail, tail, b, f);
        f := fail[f];
      }
    }

    method LinkChild(node: nat, b: Byte, ghost linked: set<nat>)
      requires Linking(linked) && node < |next| && b in next[node] && node in linked && node != 0
      requires next[node][b] !in linked && DepthLinked(spell, linked, |spell[node]|)
      modifies this`fail, this`output
      ensures Linking(linked + {next[node][b]})
    {
      var child: nat := next[node][b];
      var x := FailureOf(node, b, linked);
      assert HasParent(next, spell, node);
      assert spell[child][1..] == spell[node][1..] + [b];
      fail := fail[child := x];
      var outs := output[x];
      FlattenedOutput(spell, patterns, output[child], outs, child, x);
      LinksGrow(patterns, spell, old(fail), output, linked, child, x, output[child] + outs);
      if |outs| > 0 {
        output := output[child := output[child] + outs];
      } else {
        assert output[child] + outs == output[child];
        assert output[child := output[child]] == output;
      }
    }

    // The children of the root fail to the root.
    method LinkRootChild(b: Byte, ghost linked: set<nat>)
      requires Linking(linked) && b in next[0] && next[0][b] !in linked
      modifies this`fail
      ensures Linking(linked + {next[0][b]})
    {
      var child: nat := next[0][b];
      assert spell[child] == [b];
      assert LongestSuffix(spell, [], 0);
      assert FullOutput(patterns, [b], output[child]) by {
        forall id: nat ensures Terminal(patterns, [b], id) <==> EndsHere(patterns, [b], id) { }
      }
      LinksGrow(patterns, spell, fail, output, linked, child, 0, output[child]);
      assert output[child := output[child]] == output;
      fail := fail[child := 0];
    }

    method LinkRoot() returns (queue: seq<nat>, ghost linked: set<nat>)
      requires Growing(|patterns|)
      modifies this`fail, this`output
      ensures Linking(linked) && Frontier(next, spell, queue, linked, {0}, 0)
    {
      assert patterns[..|patterns|] == patterns;
      queue, linked := [], {0};
      assert FullOutput(patterns, spell[0], output[0]) by {
        forall id: nat ensures Terminal(patterns, [], id) <==> EndsHere(patterns, [], id) { }
      }
      var todo := next[0].Keys;
      assert Expanding(next, spell, queue, linked, {}, 0, todo) by {
        forall n: nat | n < |spell| && |spell[n]| <= 0 ensures n in linked {
          assert n == 0 || HasParent(next, spell, n);
        }
      }
      while todo != {}
        invariant todo <= next[0].Keys && Linking(linked)
        invariant Expanding(next, spell, queue, linked, {}, 0, todo)
      {
        var b :| b in todo;
        ExpandingStep(next, spell, queue, linked, {}, 0, todo, b);
        LinkRootChild(b, linked);
        linked := linked + {next[0][b]};
        queue := queue + [next[0][b]];
        todo := todo - {b};
      }
      ExpandingEnds(next, spell, queue, linked, {}, 0);
      assert {} + {0} == {0};
    }

    method ExpandNode(node: nat, pending: seq<nat>, ghost before: set<nat>, ghost expanded: set<nat>, ghost d: nat)
      returns (queue: seq<nat>, ghost linked: set<nat>)
      requires Linking(before) && node < |next| && |spell[node]| == d
      requires Frontier(next, spell, [node] + pending, before, expanded, d)
      modifies this`fail, this`output
      ensures Linking(linked) && Frontier(next, spell, queue, linked, expanded + {node}, d)
    {
      queue, linked := pending, before;
      ExpandingStarts(next, spell, pending, linked, expanded, node);
      var todo := next[node].Keys;
      while todo != {}
        invariant todo <= next[node].Keys && Linking(linked)
        invariant Expanding(next, spell, queue, linked, expanded, node, todo)
      {
        var b :| b in todo;
        ExpandingStep(next, spell, queue, linked, expanded, node, todo, b);
        LinkChild(node, b, linked);
        linked := linked + {next[node][b]};
        queue := queue + [next[node][b]];
        todo := todo - {b};
      }
      ExpandingEnds(next, spell, queue, linked, expanded, node);
    }

    // Breadth first from the root, so that every failure target is final before it is used.
    method LinkFailures()
      requires Growing(|patterns|)
      modifies this`fail, this`output
      ensures Valid()
    {
      var queue;
      ghost var linked;
      queue, linked := LinkRoot();
      ghost var expanded: set<nat>, d: nat := {0}, 0;
      while |queue| > 0
        invariant Linking(linked) && Frontier(next, spell, queue, linked, expanded, d)
        decreases NodesBelow(|next|) - expanded
      {
        FrontierDescends(next, spell, queue, linked, expanded, d);
        var node := queue[0];
        d := |spell[node]|;
        assert queue == [node] + queue[1..] && node in queue;
        queue, linked := ExpandNode(node, queue[1..], linked, expanded, d);
        expanded := expanded + {node};
      }
      forall n: nat | n < |spell| ensures n in linked {
        EmptyQueueLinksAll(next, spell, linked, expanded, d, n);
      }
    }

    // The automaton over the given patterns; a pattern's id is its index.
    constructor (patterns: seq<Str>)
      ensures Valid() && this.patterns == patterns
    {
      this.patterns := patterns;
      spell := [[]];
      next := [map[]];
      fail := [0];
      output := [[]];
      numPatterns := |patterns|;
      emptyIDs := [];
      new;
      for id := 0 to |patterns|
        invariant Growing(id)
      {
        Insert(id, patterns[id]);
      }
      LinkFailures();
    }

    method NewMatchSet() returns (ms: AhoCorasickMatches)
      requires Valid()
      ensures fresh(ms) && fresh(ms.seen) && ms.Valid() && ms.seen.Length == |patterns| && ms.Contents() == {}
    {
      ms := new AhoCorasickMatches(numPatterns);
    }

    // goto(state, c) with failure fallback.
    method Step(state: nat, c: Byte, ghost t: Str) returns (s: nat)
      requires Valid() && LongestSuffix(spell, t, state)
      ensures LongestSuffix(spell, t + [c], s)
    {
      s := state;
      FallingStarts(next, spell, t, c, s);
      while true
        invariant s < |next| && Falling(spell, t, c, s)
        decreases |spell[s]|
      {
        if c in next[s] {
          FallingLands(next, spell, t, c, s);
          return next[s][c];
        }
        if s == 0 {
          FallingFailsAtRoot(next, spell, t, c);
          return;
        }
        FallingFollowsFail(next, spell, fail, t, c, s);
        s := fail[s];
      }
    }

    // Read the bytes of b one by one, recording what ends at each.
    method Feed(state: nat, b: Str, ms: AhoCorasickMatches, ghost t: Str) returns (s: nat)
      requires Valid() && LongestSuffix(spell, t, state)
      requires ms.Valid() && ms.seen.Length == |patterns| && Found(patterns, t) <= ms.Contents()
      modifies ms, ms.seen
      ensures LongestSuffix(spell, t + b, s)
      ensures ms.Valid() && ms.seen == old(ms.seen)
      ensures ms.Contents() == old(ms.Contents()) + Found(patterns, t + b)
    {
      s := state;
      assert t + b[..0] == t;
      for i := 0 to |b|
        invariant s < |next| && LongestSuffix(spell, t + b[..i], s)
        invariant ms.Valid() && ms.seen == old(ms.seen)
        invariant ms.Contents() == old(ms.Contents()) + Found(patterns, t + b[..i])
      {
        ghost var u := t + b[..i];
        assert u + [b[i]] == t + b[..i + 1];
        s := Step(s, b[i], u);
        OutputExtendsFound(spell, patterns, u, b[i], s, output[s]);
        ms.AddAll(output[s]);
      }
      assert b[..|b|] == b;
    }

    // Continue a scan that has read t with the slice b.
    method Advance(state: nat, b: Str, ms: AhoCorasickMatches, ghost t: Str) returns (s: nat)
      requires Valid() && LongestSuffix(spell, t, state)
      requires ms.Valid() && ms.seen.Length == |patterns|
      requires ms.Contents() - Empties(patterns) == Found(patterns, t)
      modifies ms, ms.seen
      ensures LongestSuffix(spell, t + b, s)
      ensures ms.Valid() && ms.seen == old(ms.seen)
      ensures state == 0 ==> ms.Contents() == Present(patterns, t + b)
      ensures state != 0 ==> ms.Contents() == old(ms.Contents()) + Found(patterns, t + b)
    {
      if state == 0 {
        assert forall id :: id in emptyIDs ==> id in Ids(emptyIDs);
        ms.AddAll(emptyIDs);
      }
      s := Feed(state, b, ms, t);
      RootStateCompletes(patterns, t, b, old(ms.Contents()));
    }

    // The one-shot form: exactly the ids whose pattern is a substring of b, each once.
    method Match(b: Str, ms: AhoCorasickMatches) returns (ids: seq<nat>)
      requires Valid() && ms.Valid() && ms.seen.Length == |patterns|
      modifies ms, ms.seen
      ensures ms.Valid() && ms.seen == old(ms.seen)
      ensures forall id: nat :: id in ids <==> id < |patterns| && Occurs(patterns[id], b)
      ensures forall i, j :: 0 <= i < j < |ids| ==> ids[i] != ids[j]
    {
      ms.Reset();
      FoundNothingYet(patterns);
      var _ := Advance(0, b, ms, []);
      assert [] + b == b;
      ids := ms.ids;
      assert forall id: nat :: id in ids <==> id in Ids(ids);
    }
  }
}
