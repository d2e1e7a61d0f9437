/** `sortedBy { it.time }`: a stable sort of picture data by ascending time. */
module TimeOrder {
  import opened PictureDataEntity

  /** Times never decrease along `s`. */
  predicate NonDecreasingTime(s: seq<PictureData>)
  {
    forall i, j | 0 <= i < j < |s| :: s[i].time <= s[j].time
  }

  /** Every element of `s` has time at least `b`. */
  predicate TimesFrom(b: Long, s: seq<PictureData>)
  {
    forall k | 0 <= k < |s| :: b <= s[k].time
  }

  /** The tail of a sorted sequence is sorted and bounded below by its head. */
  lemma SortedTail(s: seq<PictureData>)
    requires NonDecreasingTime(s) && |s| > 0
    ensures NonDecreasingTime(s[1..]) && TimesFrom(s[0].time, s[1..])
  {
  }

  /** A sorted sequence stays sorted with a smaller-or-equal element in front. */
  lemma SortedCons(a: PictureData, s: seq<PictureData>)
    requires NonDecreasingTime(s) && TimesFrom(a.time, s)
    ensures NonDecreasingTime([a] + s)
  {
    var r := [a] + s;
    forall i, j | 0 <= i < j < |r| ensures r[i].time <= r[j].time {
      if i == 0 {
        assert r[j] == s[j - 1];
      } else {
        assert r[i] == s[i - 1] && r[j] == s[j - 1];
      }
    }
  }

  /** A lower bound holds for a rearrangement of bounded elements. */
  lemma BoundOfRearrangement(b: Long, s: seq<PictureData>, r: seq<PictureData>, x: PictureData)
    requires TimesFrom(b, s) && b <= x.time
    requires multiset(r) == multiset(s) + multiset{x}
    ensures TimesFrom(b, r)
  {
    forall k | 0 <= k < |r| ensures b <= r[k].time {
      assert r[k] in multiset(r);
      if r[k] != x {
        assert r[k] in multiset(s);
        var i :| 0 <= i < |s| && s[i] == r[k];
      }
    }
  }

  /** Puts `x` in front of the first element of the sorted `s` whose time is not
      smaller, so `x` lands before every element of equal time. */
  function InsertByTime(x: PictureData, s: seq<PictureData>): (r: seq<PictureData>)
    requires NonDecreasingTime(s)
    ensures NonDecreasingTime(r)
    ensures multiset(r) == multiset(s) + multiset{x}
    ensures |r| == |s| + 1
  {
    if |s| == 0 then [x]
    else if x.time <= s[0].time then
      SortedTail(s);
      assert TimesFrom(x.time, s);
      SortedCons(x, s);
      [x] + s
    else
      SortedTail(s);
      var rest := InsertByTime(x, s[1..]);
      assert s == [s[0]] + s[1..];
      BoundOfRearrangement(s[0].time, s[1..], rest, x);
      SortedCons(s[0], rest);
      [s[0]] + rest
  }

  /** `s` ordered by ascending time; elements of equal time keep their relative order. */
  function SortByTime(s: seq<PictureData>): (r: seq<PictureData>)
    ensures NonDecreasingTime(r)
    ensures multiset(r) == multiset(s)
    ensures |r| == |s|
  {
    if |s| == 0 then []
    else
      assert s == [s[0]] + s[1..];
      InsertByTime(s[0], SortByTime(s[1..]))
  }

  /** `p` if its time is `t`, and nothing otherwise. */
  function Kept(p: PictureData, t: Long): seq<PictureData>
  {
    if p.time == t then [p] else []
  }

  /** The elements of `s` whose time is `t`, in their order in `s`. */
  function WithTime(s: seq<PictureData>, t: Long): (r: seq<PictureData>)
    ensures |r| <= |s|
  {
    if |s| == 0 then []
    else Kept(s[0], t) + WithTime(s[1..], t)
  }

  /** Filtering distributes over putting one element in front. */
  lemma WithTimeCons(a: PictureData, s: seq<PictureData>, t: Long)
    ensures WithTime([a] + s, t) == Kept(a, t) + WithTime(s, t)
  {
    assert ([a] + s)[0] == a;
    assert ([a] + s)[1..] == s;
  }

  /** Two heads of which at most one is non-empty can change places. */
  lemma SwapHeads(a: seq<PictureData>, b: seq<PictureData>, w: seq<PictureData>)
    requires a == [] || b == []
    ensures a + (b + w) == b + (a + w)
  {
  }

  /** Inserting `x` puts it ahead of every element of its own time and leaves the order
      among the others as it was. */
  lemma {:induction false} InsertKeepsTies(x: PictureData, s: seq<PictureData>, t: Long)
    requires NonDecreasingTime(s)
    ensures WithTime(InsertByTime(x, s), t) == Kept(x, t) + WithTime(s, t)
  {
    if |s| == 0 {
      WithTimeCons(x, [], t);
    } else if x.time <= s[0].time {
      WithTimeCons(x, s, t);
    } else {
      SortedTail(s);
      var rest := InsertByTime(x, s[1..]);
      assert InsertByTime(x, s) == [s[0]] + rest;
      assert [s[0]] + s[1..] == s;
      calc {
        WithTime([s[0]] + rest, t);
        { WithTimeCons(s[0], rest, t); }
        Kept(s[0], t) + WithTime(rest, t);
        { InsertKeepsTies(x, s[1..], t); }
        Kept(s[0], t) + (Kept(x, t) + WithTime(s[1..], t));
        { SwapHeads(Kept(s[0], t), Kept(x, t), WithTime(s[1..], t)); }
        Kept(x, t) + (Kept(s[0], t) + WithTime(s[1..], t));
        { WithTimeCons(s[0], s[1..], t); }
        Kept(x, t) + WithTime(s, t);
      }
    }
  }

  /** The sort is stable: the elements of any one time come out in the order they went in. */
  lemma {:induction false} SortKeepsTies(s: seq<PictureData>, t: Long)
    ensures WithTime(SortByTime(s), t) == WithTime(s, t)
  {
    if |s| != 0 {
      SortKeepsTies(s[1..], t);
      InsertKeepsTies(s[0], SortByTime(s[1..]), t);
    }
  }
}
