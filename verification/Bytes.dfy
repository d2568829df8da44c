// Byte strings: the vocabulary the scanner, the predicate index and the collation share.
module Bytes {
  newtype Byte = x: int | 0 <= x < 256

  type Str = seq<Byte>

  ghost predicate IsSuffix<T>(s: seq<T>, t: seq<T>)
  {
    |s| <= |t| && s == t[|t| - |s|..]
  }

  // p occurs in s, starting at some offset.
  ghost predicate Occurs(p: Str, s: Str)
  {
    exists i :: OccursAt(p, s, i)
  }

  ghost predicate OccursAt(p: Str, s: Str, i: int)
  {
    0 <= i <= |s| - |p| && s[i..i + |p|] == p
  }

  lemma SuffixTransitive<T>(a: seq<T>, b: seq<T>, c: seq<T>)
    requires IsSuffix(a, b) && IsSuffix(b, c)
    ensures IsSuffix(a, c)
  {
  }

  // Of two suffixes of the same string, the shorter is a suffix of the longer.
  lemma SuffixesNest<T>(a: seq<T>, b: seq<T>, c: seq<T>)
    requires IsSuffix(a, c) && IsSuffix(b, c) && |a| <= |b|
    ensures IsSuffix(a, b)
  {
    forall i | 0 <= i < |a| ensures a[i] == b[|b| - |a| + i] {
      assert a[i] == c[|c| - |a| + i];
      assert b[|b| - |a| + i] == c[|c| - |b| + (|b| - |a| + i)];
    }
  }

  lemma SuffixAppend<T>(a: seq<T>, t: seq<T>, c: T)
    requires IsSuffix(a, t)
    ensures IsSuffix(a + [c], t + [c])
  {
    assert (t + [c])[|t| - |a|..] == t[|t| - |a|..] + [c];
  }

  // A nonempty suffix of t + [c] is a suffix of t followed by c.
  lemma SuffixOfAppend<T>(u: seq<T>, t: seq<T>, c: T)
    requires IsSuffix(u, t + [c]) && u != []
    ensures u == u[..|u| - 1] + [c] && IsSuffix(u[..|u| - 1], t)
  {
    var v := u[..|u| - 1];
    assert u[|u| - 1] == c;
    forall i | 0 <= i < |v| ensures v[i] == t[|t| - |v| + i] {
      assert v[i] == u[i] == (t + [c])[|t| + 1 - |u| + i];
    }
    assert v == t[|t| - |v|..];
  }

  lemma ProperSuffix<T>(u: seq<T>, t: seq<T>)
    requires IsSuffix(u, t) && u != t
    ensures |u| < |t| && IsSuffix(u, t[1..])
  {
    assert t[0..] == t;
  }

  // Occurring in s is being a suffix of some prefix of s.
  lemma OccursIsSuffixOfPrefix(p: Str, s: Str)
    ensures Occurs(p, s) <==> exists e :: 0 <= e <= |s| && IsSuffix(p, s[..e])
  {
    if Occurs(p, s) {
      var i :| OccursAt(p, s, i);
      assert s[..i + |p|][i..] == s[i..i + |p|];
      assert IsSuffix(p, s[..i + |p|]);
    }
    if e :| 0 <= e <= |s| && IsSuffix(p, s[..e]) {
      assert s[..e][e - |p|..] == s[e - |p|..e];
      assert OccursAt(p, s, e - |p|);
    }
  }

  lemma OccursInside(p: Str, a: Str, s: Str, b: Str)
    requires Occurs(p, s)
    ensures Occurs(p, a + s + b)
  {
    var i :| OccursAt(p, s, i);
    assert (a + s + b)[|a| + i..|a| + i + |p|] == s[i..i + |p|];
    assert OccursAt(p, a + s + b, |a| + i);
  }

  lemma OccursTransitive(p: Str, q: Str, s: Str)
    requires Occurs(p, q) && Occurs(q, s)
    ensures Occurs(p, s)
  {
    var i :| OccursAt(q, s, i);
    assert s == s[..i] + q + s[i + |q|..];
    OccursInside(p, s[..i], q, s[i + |q|..]);
  }

  lemma OccursInSelf(s: Str)
    ensures Occurs(s, s)
  {
    assert OccursAt(s, s, 0);
  }
}
