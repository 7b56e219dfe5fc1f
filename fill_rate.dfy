/** The rate `_fill_bucket` saturates (requests_ratelimiter.py): the first
    element of the bucket's rates sorted by interval, with Python's stable
    `sorted`, and the filler items it puts. */
module FillRate {
  import opened Rates
  import opened Buckets

  predicate SortedByInterval(s: seq<Rate>)
  {
    forall i, j :: 0 <= i < j < |s| ==> s[i].interval <= s[j].interval
  }

  /** Places `x` before the first element whose interval is not smaller, so
      that it precedes the equal elements that came after it in the input. */
  function Insert(x: Rate, s: seq<Rate>): (r: seq<Rate>)
    ensures |r| == |s| + 1
    ensures r[0] == (if s == [] || x.interval <= s[0].interval then x else s[0])
  {
    if s == [] || x.interval <= s[0].interval then [x] + s
    else [s[0]] + Insert(x, s[1..])
  }

  /** Insertion adds exactly `x`. */
  lemma {:induction false} InsertMultiset(x: Rate, s: seq<Rate>)
    ensures multiset(Insert(x, s)) == multiset(s) + multiset{x}
  {
    if s != [] && x.interval > s[0].interval {
      InsertMultiset(x, s[1..]);
      assert s == [s[0]] + s[1..];
    }
  }

  /** Insertion into a sorted sequence keeps it sorted. */
  lemma {:induction false} InsertSorted(x: Rate, s: seq<Rate>)
    requires SortedByInterval(s)
    ensures SortedByInterval(Insert(x, s))
  {
    if s != [] && x.interval > s[0].interval {
      var rest := Insert(x, s[1..]);
      InsertSorted(x, s[1..]);
      InsertMultiset(x, s[1..]);
      var r := [s[0]] + rest;
      forall j | 0 < j < |r| ensures s[0].interval <= r[j].interval {
        assert r[j] == rest[j - 1];
        assert rest[j - 1] in multiset(rest);
        assert rest[j - 1] == x || rest[j - 1] in multiset(s[1..]);
      }
    }
  }

  /** Python's `sorted(rates, key=lambda r: r.interval)`: a stable sort by
      interval, here as an insertion sort from the back. */
  function SortByInterval(s: seq<Rate>): (r: seq<Rate>)
    ensures |r| == |s|
  {
    if s == [] then [] else Insert(s[0], SortByInterval(s[1..]))
  }

  /** The sort orders by interval and keeps every rate as often as it came. */
  lemma {:induction false} SortByIntervalSorts(s: seq<Rate>)
    ensures SortedByInterval(SortByInterval(s))
    ensures multiset(SortByInterval(s)) == multiset(s)
  {
    if s != [] {
      var rest := SortByInterval(s[1..]);
      SortByIntervalSorts(s[1..]);
      InsertMultiset(s[0], rest);
      InsertSorted(s[0], rest);
      assert s == [s[0]] + s[1..];
    }
  }

  /** The rate with the smallest interval, the earliest one among ties. */
  function Tightest(s: seq<Rate>): (t: Rate)
    requires s != []
    ensures t in s
    ensures forall x :: x in s ==> t.interval <= x.interval
  {
    if |s| == 1 then s[0]
    else
      var t := Tightest(s[1..]);
      assert forall x :: x in s ==> x == s[0] || x in s[1..];
      if s[0].interval <= t.interval then s[0] else t
  }

  /** Every rate before the one `Tightest` picks has a strictly larger
      interval: among rates of equal interval it is the first. */
  lemma {:induction false} TightestFirst(s: seq<Rate>)
    requires s != []
    ensures exists i :: 0 <= i < |s| && s[i] == Tightest(s) && forall j :: 0 <= j < i ==> s[j].interval > s[i].interval
  {
    if |s| == 1 {
      assert s[0] == Tightest(s);
    } else if s[0].interval <= Tightest(s[1..]).interval {
      assert s[0] == Tightest(s);
    } else {
      TightestFirst(s[1..]);
      var i :| 0 <= i < |s[1..]| && s[1..][i] == Tightest(s[1..]) && forall j :: 0 <= j < i ==> s[1..][j].interval > s[1..][i].interval;
      assert s[i + 1] == Tightest(s);
      forall j | 0 <= j < i + 1 ensures s[j].interval > s[i + 1].interval {
        if j > 0 { assert s[j] == s[1..][j - 1]; }
      }
    }
  }

  /** The head of the stable sort is the earliest rate of smallest interval. */
  lemma {:induction false} SortedHeadIsTightest(s: seq<Rate>)
    requires s != []
    ensures SortByInterval(s)[0] == Tightest(s)
  {
    if |s| > 1 {
      SortedHeadIsTightest(s[1..]);
    }
  }

  /** The items `_fill_bucket` puts: `count` items named `name`, all stamped
      `now`, of weight 1. */
  function Fillers(name: string, now: int, count: nat): (items: seq<RateItem>)
    ensures |items| == count
    ensures forall i :: 0 <= i < count ==> items[i] == RateItem(name, now, 1)
  {
    seq(count, _ => RateItem(name, now, 1))
  }

  /** `range(limit)` runs no iteration for a limit below 1. */
  function FillCount(limit: int): (c: nat)
    ensures limit >= 1 ==> c == limit
    ensures limit < 1 ==> c == 0
  {
    if limit > 0 then limit else 0
  }
}
