/**
 * Sequence facts the room model relies on: removal of the first occurrence
 * of an element (what java.util.ArrayList.remove(Object) does to a room's
 * item list), and enumerations of a finite key set (the order in which a
 * java.util.HashMap hands out its keys, which Java leaves unspecified).
 */
module Sequences {

  /** Concatenation is associative. */
  lemma AppendAssoc<T>(a: seq<T>, b: seq<T>, c: seq<T>)
    ensures (a + b) + c == a + (b + c)
  {
  }

  /** A prefix one longer is the prefix and the next element. */
  lemma TakeSnoc<T>(s: seq<T>, k: nat)
    requires k < |s|
    ensures s[..k + 1] == s[..k] + [s[k]]
  {
  }

  /** The pieces `f(x)` of the elements of `xs`, joined in order. */
  function ConcatMap<T, U>(xs: seq<T>, f: T -> seq<U>): seq<U>
  {
    if xs == [] then []
    else ConcatMap(xs[..|xs| - 1], f) + f(xs[|xs| - 1])
  }

  /** Joining a concatenation joins the two parts in order. */
  lemma {:induction false} ConcatMapAppend<T, U>(a: seq<T>, b: seq<T>, f: T -> seq<U>)
    ensures ConcatMap(a + b, f) == ConcatMap(a, f) + ConcatMap(b, f)
  {
    if b == [] {
      assert a + b == a;
    } else {
      var p := b[..|b| - 1];
      assert (a + b)[..|a + b| - 1] == a + p;
      ConcatMapAppend(a, p, f);
      AppendAssoc(ConcatMap(a, f), ConcatMap(p, f), f(b[|b| - 1]));
    }
  }

  /** One more element adds its piece at the end. */
  lemma ConcatMapSnoc<T, U>(xs: seq<T>, x: T, f: T -> seq<U>)
    ensures ConcatMap(xs + [x], f) == ConcatMap(xs, f) + f(x)
  {
    assert (xs + [x])[..|xs|] == xs;
  }

  /** A single element is joined to its own piece. */
  lemma ConcatMapSingle<T, U>(x: T, f: T -> seq<U>)
    ensures ConcatMap([x], f) == f(x)
  {
    ConcatMapSnoc([], x, f);
    assert [] + [x] == [x];
  }

  /** Index of the first occurrence of `x` in `s`. */
  function IndexOf<T(==)>(s: seq<T>, x: T): (i: nat)
    requires x in s
    ensures i < |s| && s[i] == x && x !in s[..i]
  {
    if s[0] == x then 0 else 1 + IndexOf(s[1..], x)
  }

  /** The first occurrence is the only index holding `x` with no `x` before it. */
  lemma IndexOfUnique<T>(s: seq<T>, x: T, i: nat)
    requires i < |s| && s[i] == x && x !in s[..i]
    ensures IndexOf(s, x) == i
  {
    var k := IndexOf(s, x);
  }

  /**
   * `s` without its first occurrence of `x`; `s` itself when `x` does not
   * occur. Everything else keeps its relative order.
   */
  function RemoveFirst<T(==)>(s: seq<T>, x: T): (r: seq<T>)
    ensures x !in s ==> r == s
    ensures x in s ==> r == s[..IndexOf(s, x)] + s[IndexOf(s, x) + 1..]
  {
    if s == [] then []
    else if s[0] == x then s[1..]
    else
      var t := s[1..];
      var rt := RemoveFirst(t, x);
      if x in t then
        var j := IndexOf(t, x);
        assert IndexOf(s, x) == 1 + j;
        ConsAroundSplit(s, j);
        [s[0]] + rt
      else
        assert s == [s[0]] + t;
        [s[0]] + rt
  }

  /** Cutting `s[1..]` around position `j` and putting `s[0]` back in front cuts `s` around `j + 1`. */
  lemma ConsAroundSplit<T>(s: seq<T>, j: nat)
    requires j + 1 < |s|
    ensures [s[0]] + (s[1..][..j] + s[1..][j + 1..]) == s[..j + 1] + s[j + 2..]
  {
    var t := s[1..];
    assert s[..j + 1] == [s[0]] + t[..j];
    assert s[j + 2..] == t[j + 1..];
    AppendAssoc([s[0]], t[..j], t[j + 1..]);
  }

  /** Removal takes away exactly one copy of `x` when there is one. */
  lemma RemoveFirstMultiset<T>(s: seq<T>, x: T)
    ensures multiset(RemoveFirst(s, x)) == multiset(s) - multiset{x}
  {
    var r := RemoveFirst(s, x);
    if x in s {
      var i := IndexOf(s, x);
      assert r == s[..i] + s[i + 1..];
      SplitMultiset(s, i);
    } else {
      assert r == s;
      assert multiset(s)[x] == 0;
      assert multiset(s) - multiset{x} == multiset(s);
    }
  }

  /** Taking out position `i` takes one copy of `s[i]` out of the multiset. */
  lemma SplitMultiset<T>(s: seq<T>, i: nat)
    requires i < |s|
    ensures multiset(s[..i] + s[i + 1..]) == multiset(s) - multiset{s[i]}
  {
    var a, b := s[..i], s[i + 1..];
    assert s == a + [s[i]] + b;
    assert multiset(s) == multiset(a) + multiset{s[i]} + multiset(b);
  }

  /** Removal shortens `s` by one exactly when `x` occurs. */
  lemma RemoveFirstLength<T>(s: seq<T>, x: T)
    ensures |RemoveFirst(s, x)| == if x in s then |s| - 1 else |s|
  {
  }

  /** Appending `x` and removing the first `x` cuts `s` at its first `x` and moves that `x` to the end. */
  lemma AppendThenRemoveShape<T>(s: seq<T>, x: T)
    requires x in s
    ensures RemoveFirst(s + [x], x) == s[..IndexOf(s, x)] + s[IndexOf(s, x) + 1..] + [x]
  {
    var t, i := s + [x], IndexOf(s, x);
    assert t[..i] == s[..i];
    IndexOfUnique(t, x, i);
    assert t[i + 1..] == s[i + 1..] + [x];
    AppendAssoc(s[..i], s[i + 1..], [x]);
  }

  /** Everything from the first occurrence of `x` onwards is `x`. */
  predicate OnlyXFromFirst<T(==)>(s: seq<T>, x: T)
    requires x in s
  {
    forall j :: IndexOf(s, x) <= j < |s| ==> s[j] == x
  }

  /** A run of `x` is unchanged by dropping one `x` in front and adding one at the end. */
  lemma ShiftRunOfX<T>(s: seq<T>, x: T)
    requires x in s && OnlyXFromFirst(s, x)
    ensures s[IndexOf(s, x)..] == s[IndexOf(s, x) + 1..] + [x]
  {
    var i := IndexOf(s, x);
    var tail := s[i + 1..] + [x];
    forall k | 0 <= k < |s| - i ensures s[i..][k] == tail[k] {
      assert s[i..][k] == s[i + k] == x;
      if k < |s| - i - 1 {
        assert tail[k] == s[i + 1 + k];
      } else {
        assert tail[k] == x;
      }
    }
  }

  /** When everything from the first `x` on is `x`, appending and removing `x` restores `s`. */
  lemma AppendThenRemoveRestores<T>(s: seq<T>, x: T)
    requires x in s && OnlyXFromFirst(s, x)
    ensures RemoveFirst(s + [x], x) == s
  {
    var i := IndexOf(s, x);
    AppendThenRemoveShape(s, x);
    ShiftRunOfX(s, x);
    assert s == s[..i] + s[i..];
    AppendAssoc(s[..i], s[i + 1..], [x]);
  }

  /** If each element from position `i` on equals the one before it, all of them equal `s[i]`. */
  lemma {:induction false} ConstantFrom<T>(s: seq<T>, i: nat, j: nat)
    requires i <= j < |s|
    requires forall k :: i <= k < |s| - 1 ==> s[k + 1] == s[k]
    ensures s[j] == s[i]
    decreases j - i
  {
    if j > i {
      ConstantFrom(s, i, j - 1);
    }
  }

  /** An element other than `x` after the first `x` is moved one place earlier, so `s` is not restored. */
  lemma AppendThenRemoveDisturbs<T>(s: seq<T>, x: T, j: nat)
    requires x in s && IndexOf(s, x) <= j < |s| && s[j] != x
    ensures RemoveFirst(s + [x], x) != s
  {
    var i := IndexOf(s, x);
    AppendThenRemoveShape(s, x);
    var r := RemoveFirst(s + [x], x);
    if r == s {
      forall k | i <= k < |s| - 1 ensures s[k + 1] == s[k] {
        CutAt(s, i, x, k);
      }
      ConstantFrom(s, i, j);
    }
  }

  /** Past the cut, the list cut at `i` with `x` appended holds the next element of `s`. */
  lemma CutAt<T>(s: seq<T>, i: nat, x: T, k: nat)
    requires i <= k < |s| - 1
    ensures (s[..i] + s[i + 1..] + [x])[k] == s[k + 1]
  {
    assert (s[..i] + s[i + 1..])[k] == s[i + 1..][k - i];
  }

  /** An absent element is added and removed without trace. */
  lemma AppendThenRemoveAbsent<T>(s: seq<T>, x: T)
    requires x !in s
    ensures RemoveFirst(s + [x], x) == s
  {
    assert (s + [x])[..|s|] == s;
    IndexOfUnique(s + [x], x, |s|);
  }

  /**
   * Adding `x` at the end and then removing the first `x` gives back `s`
   * exactly when `x` does not occur in `s` or everything from its first
   * occurrence on is `x`.
   */
  lemma AppendThenRemove<T>(s: seq<T>, x: T)
    ensures RemoveFirst(s + [x], x) == s <==> x !in s || OnlyXFromFirst(s, x)
  {
    if x !in s {
      AppendThenRemoveAbsent(s, x);
    } else if OnlyXFromFirst(s, x) {
      AppendThenRemoveRestores(s, x);
    } else {
      var j :| IndexOf(s, x) <= j < |s| && s[j] != x;
      AppendThenRemoveDisturbs(s, x, j);
    }
  }

  /** No element occurs twice. */
  predicate Distinct<T(==)>(s: seq<T>)
  {
    forall i, j :: 0 <= i < j < |s| ==> s[i] != s[j]
  }

  /** `s` lists every element of `keys` exactly once, and nothing else. */
  predicate IsEnumeration<T(==)>(s: seq<T>, keys: set<T>)
  {
    && Distinct(s)
    && (forall x :: x in s ==> x in keys)
    && (forall x :: x in keys ==> x in s)
  }

  /** An enumeration is exactly as long as the set it enumerates. */
  lemma {:induction false} EnumerationSize<T>(s: seq<T>, keys: set<T>)
    requires IsEnumeration(s, keys)
    ensures |s| == |keys|
  {
    if s == [] {
      assert keys == {};
    } else {
      var e := s[|s| - 1];
      var p := s[..|s| - 1];
      assert s == p + [e];
      assert e !in p by {
        forall k | 0 <= k < |p| ensures p[k] != e {
          assert s[k] != s[|s| - 1];
        }
      }
      assert forall x :: x in p <==> x in keys - {e} by {
        forall x ensures x in p <==> x in keys - {e} {
          assert x in s <==> x in p || x == e;
        }
      }
      EnumerationSize(p, keys - {e});
      assert keys == (keys - {e}) + {e};
    }
  }

  /** A one-element set has one enumeration. */
  lemma EnumerationOfSingleton<T>(s: seq<T>, k: T)
    requires IsEnumeration(s, {k})
    ensures s == [k]
  {
    EnumerationSize(s, {k});
    assert s[0] in {k};
  }

  /** The values of `m` at the keys `ks`, in the order of `ks`. */
  function ValuesInOrder<K(==), V>(m: map<K, V>, ks: seq<K>): (r: seq<V>)
    requires forall k :: k in ks ==> k in m
    ensures |r| == |ks| && forall i :: 0 <= i < |ks| ==> r[i] == m[ks[i]]
  {
    if ks == [] then []
    else ValuesInOrder(m, ks[..|ks| - 1]) + [m[ks[|ks| - 1]]]
  }

  /** One more key adds its value at the end. */
  lemma ValuesInOrderSnoc<K, V>(m: map<K, V>, ks: seq<K>, k: K)
    requires forall j :: j in ks ==> j in m
    requires k in m
    ensures ValuesInOrder(m, ks + [k]) == ValuesInOrder(m, ks) + [m[k]]
  {
    assert (ks + [k])[..|ks|] == ks;
  }

  /** Reading a map along an enumeration of its keys yields each value, and only values, of the map. */
  lemma ValuesOfEnumeration<K, V>(m: map<K, V>, ks: seq<K>)
    requires IsEnumeration(ks, m.Keys)
    ensures |ValuesInOrder(m, ks)| == |m|
    ensures forall v :: v in ValuesInOrder(m, ks) <==> v in m.Values
  {
    EnumerationSize(ks, m.Keys);
    var r := ValuesInOrder(m, ks);
    forall v ensures v in r <==> v in m.Values {
      if v in r {
        var i :| 0 <= i < |r| && r[i] == v;
        assert ks[i] in m;
      }
      if v in m.Values {
        var k :| k in m && m[k] == v;
        var i :| 0 <= i < |ks| && ks[i] == k;
        assert r[i] == v;
      }
    }
  }
}
