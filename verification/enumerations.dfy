/** Orders that the source leaves unspecified. A `ConcurrentHashMap` iterates its
    values, and `SELECT * FROM picture_data` returns its rows, in an order no caller may
    rely on. The model picks that order with a let-such-that: which order it is stays
    unknown, so nothing proved depends on it, but the pick is a function of the map's
    contents, so equal maps are always listed in the same order. */
module Enumerations {

  /** No element occurs twice. */
  predicate Distinct<T(==)>(s: seq<T>)
  {
    forall i, j | 0 <= i < j < |s| :: s[i] != s[j]
  }

  /** The elements of `s`, as a set. */
  function Elements<T>(s: seq<T>): (e: set<T>)
    ensures forall x | x in s :: x in e
    ensures forall x | x in e :: x in s
  {
    set x | x in s
  }

  /** A sequence has at most as many different elements as it has positions. */
  lemma {:induction false} ElementsBound<T>(s: seq<T>)
    ensures |Elements(s)| <= |s|
  {
    if s != [] {
      ElementsBound(s[1..]);
      assert Elements(s) == {s[0]} + Elements(s[1..]);
    }
  }

  /** A subset is no larger than its superset. */
  lemma {:induction false} SubsetBound<T>(a: set<T>, b: set<T>)
    requires a <= b
    ensures |a| <= |b|
    decreases a
  {
    if a != {} {
      var x :| x in a;
      SubsetBound(a - {x}, b - {x});
    }
  }

  /** Pigeonhole: a sequence that reaches every element of a set with no more positions
      than the set has elements repeats nothing. */
  lemma CoverIsDistinct<T>(s: seq<T>, e: set<T>)
    requires |s| <= |e|
    requires forall x | x in e :: x in s
    ensures Distinct(s)
  {
    if !Distinct(s) {
      var i, j :| 0 <= i < j < |s| && s[i] == s[j];
      var shorter := s[..j] + s[j + 1..];
      forall x | x in e ensures x in Elements(shorter) {
        var k :| 0 <= k < |s| && s[k] == x;
        if k == j {
          assert shorter[i] == x;
        } else if k < j {
          assert shorter[k] == x;
        } else {
          assert shorter[k - 1] == x;
        }
      }
      ElementsBound(shorter);
      SubsetBound(e, Elements(shorter));
    }
  }

  /** The keys of `m`, each exactly once, in an unspecified order. */
  ghost function KeysInSomeOrder<K, V>(m: map<K, V>): (ks: seq<K>)
    ensures Distinct(ks)
    ensures forall k | k in ks :: k in m
    ensures forall k | k in m :: k in ks
    ensures |ks| == |m|
    decreases |m|
  {
    if |m| == 0 then []
    else
      assert m.Keys != {} by { assert |m.Keys| == |m|; }
      var k :| k in m;
      var rest := m - {k};
      assert |rest| == |m| - 1 by { assert rest.Keys == m.Keys - {k}; }
      [k] + KeysInSomeOrder(rest)
  }

  /** The values of `m` listed along `ks`. */
  function ValuesAlong<K, V>(m: map<K, V>, ks: seq<K>): (vs: seq<V>)
    requires forall k | k in ks :: k in m
    ensures |vs| == |ks|
    ensures forall i | 0 <= i < |ks| :: vs[i] == m[ks[i]]
  {
    seq(|ks|, i requires 0 <= i < |ks| => m[ks[i]])
  }

  /** The values of `m`, one per key, in an unspecified order: the values along some
      listing of the keys that names every key exactly once. */
  ghost function ValuesInSomeOrder<K(!new), V>(m: map<K, V>): (vs: seq<V>)
    ensures |vs| == |m|
    ensures exists ks: seq<K> ::
              && Distinct(ks) && |ks| == |m| && (forall k | k in ks :: k in m)
              && vs == ValuesAlong(m, ks)
    ensures forall v | v in vs :: v in m.Values
    ensures forall v | v in m.Values :: v in vs
  {
    var ks := KeysInSomeOrder(m);
    var vs := ValuesAlong(m, ks);
    assert forall v | v in m.Values :: v in vs by {
      forall v | v in m.Values ensures v in vs {
        var k :| k in m && m[k] == v;
        var i :| 0 <= i < |ks| && ks[i] == k;
        assert vs[i] == v;
      }
    }
    assert Distinct(ks) && |ks| == |m| && (forall k | k in ks :: k in m) && vs == ValuesAlong(m, ks);
    vs
  }
}
