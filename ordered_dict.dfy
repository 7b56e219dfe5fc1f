/** Python's insertion-ordered `dict`, as far as a dict literal
    `{k1: v1, k2: v2, ...}` uses it: entries are assigned left to right, a key
    seen again keeps its first position and takes the later value. A dict is
    a sequence of (key, value) pairs in iteration order. */
module OrderedDict {

  function KeySet<K, V>(d: seq<(K, V)>): set<K>
  {
    set i | 0 <= i < |d| :: d[i].0
  }

  predicate DistinctKeys<K(==), V>(d: seq<(K, V)>)
  {
    forall i, j :: 0 <= i < j < |d| ==> d[i].0 != d[j].0
  }

  /** `d[k] = v`: overwrite in place when `k` is present, append otherwise. */
  function Assign<K(==), V>(d: seq<(K, V)>, k: K, v: V): (r: seq<(K, V)>)
    ensures KeySet(r) == KeySet(d) + {k}
    ensures k in KeySet(d) ==>
              |r| == |d| && forall i :: 0 <= i < |d| ==> r[i] == if d[i].0 == k then (k, v) else d[i]
    ensures k !in KeySet(d) ==> r == d + [(k, v)]
  {
    if k in KeySet(d) then
      var r := seq(|d|, i requires 0 <= i < |d| => if d[i].0 == k then (k, v) else d[i]);
      assert KeySet(r) == KeySet(d) by {
        forall x | x in KeySet(d) ensures x in KeySet(r) {
          var i :| 0 <= i < |d| && d[i].0 == x;
          assert r[i].0 == x;
        }
      }
      r
    else
      var r := d + [(k, v)];
      assert r[|d|].0 == k;
      assert KeySet(r) == KeySet(d) + {k} by {
        forall x | x in KeySet(r) ensures x in KeySet(d) + {k} {
          var i :| 0 <= i < |r| && r[i].0 == x;
          if i < |d| { assert d[i].0 == x; }
        }
        forall x | x in KeySet(d) ensures x in KeySet(r) {
          var i :| 0 <= i < |d| && d[i].0 == x;
          assert r[i].0 == x;
        }
      }
      r
  }

  /** The value the last entry for `k` carries. */
  function LastValue<K(==), V>(entries: seq<(K, V)>, k: K): V
    requires k in KeySet(entries)
  {
    var n := |entries| - 1;
    if entries[n].0 == k then entries[n].1
    else
      assert k in KeySet(entries[..n]) by {
        var i :| 0 <= i < |entries| && entries[i].0 == k;
        assert entries[..n][i].0 == k;
      }
      LastValue(entries[..n], k)
  }

  /** Position of the first entry for `k`. */
  function FirstIndex<K(==), V>(entries: seq<(K, V)>, k: K): (i: nat)
    requires k in KeySet(entries)
    ensures i < |entries| && entries[i].0 == k
    ensures forall j :: 0 <= j < i ==> entries[j].0 != k
  {
    if entries[0].0 == k then 0
    else
      assert k in KeySet(entries[1..]) by {
        var i :| 0 <= i < |entries| && entries[i].0 == k;
        assert entries[1..][i - 1].0 == k;
      }
      1 + FirstIndex(entries[1..], k)
  }

  /** The keys of a literal are those before its last entry and that entry's. */
  lemma KeySetSnoc<K, V>(entries: seq<(K, V)>)
    requires entries != []
    ensures KeySet(entries) == KeySet(entries[..|entries| - 1]) + {entries[|entries| - 1].0}
  {
    var n := |entries| - 1;
    var prefix := entries[..n];
    forall x | x in KeySet(entries) ensures x in KeySet(prefix) + {entries[n].0} {
      var i :| 0 <= i < |entries| && entries[i].0 == x;
      if i < n { assert prefix[i].0 == x; }
    }
    forall x | x in KeySet(prefix) ensures x in KeySet(entries) {
      var i :| 0 <= i < |prefix| && prefix[i].0 == x;
      assert entries[i].0 == x;
    }
  }

  /** The dict a literal with these entries evaluates to. Every key occurs
      once, exactly the keys of the entries occur, and each carries the value
      of its last entry. */
  function DictLiteral<K(==), V>(entries: seq<(K, V)>): (d: seq<(K, V)>)
    ensures DistinctKeys(d)
    ensures KeySet(d) == KeySet(entries)
    ensures forall i :: 0 <= i < |d| ==> d[i].1 == LastValue(entries, d[i].0)
    ensures |d| <= |entries|
  {
    if entries == [] then []
    else
      var n := |entries| - 1;
      var prefix := entries[..n];
      var (k, v) := entries[n];
      var before := DictLiteral(prefix);
      var d := Assign(before, k, v);
      KeySetSnoc(entries);
      assert forall i :: 0 <= i < |d| ==> d[i].1 == LastValue(entries, d[i].0) by {
        forall i | 0 <= i < |d| ensures d[i].1 == LastValue(entries, d[i].0) {
          if d[i].0 != k {
            assert d[i] == before[i];
          }
        }
      }
      d
  }

  /** Keys present in a prefix of the entries have their first occurrence
      inside that prefix. */
  lemma {:induction false} FirstIndexPrefix<K, V>(entries: seq<(K, V)>, n: nat, k: K)
    requires n <= |entries| && k in KeySet(entries[..n])
    ensures k in KeySet(entries) && FirstIndex(entries, k) == FirstIndex(entries[..n], k) < n
  {
    var i :| 0 <= i < n && entries[..n][i].0 == k;
    assert entries[i].0 == k;
    if entries[0].0 != k {
      assert entries[1..][..n - 1] == entries[..n][1..];
      FirstIndexPrefix(entries[1..], n - 1, k);
    }
  }

  /** Keys iterate in the order of their first appearance in `entries`. */
  predicate InFirstOrder<K(==), V>(entries: seq<(K, V)>, d: seq<(K, V)>)
    requires KeySet(d) <= KeySet(entries)
  {
    forall i, j :: 0 <= i < j < |d| ==>
      assert d[i].0 in KeySet(d) && d[j].0 in KeySet(d);
      FirstIndex(entries, d[i].0) < FirstIndex(entries, d[j].0)
  }

  /** An order by first appearance in a prefix is one in the whole. */
  lemma InFirstOrderExtend<K, V>(entries: seq<(K, V)>, n: nat, d: seq<(K, V)>)
    requires n <= |entries| && KeySet(d) <= KeySet(entries[..n])
    requires InFirstOrder(entries[..n], d)
    ensures KeySet(d) <= KeySet(entries) && InFirstOrder(entries, d)
    ensures forall i :: 0 <= i < |d| ==> d[i].0 in KeySet(entries) && FirstIndex(entries, d[i].0) < n
  {
    forall i | 0 <= i < |d|
      ensures d[i].0 in KeySet(entries) && FirstIndex(entries, d[i].0) == FirstIndex(entries[..n], d[i].0) < n
    {
      assert d[i].0 in KeySet(d);
      FirstIndexPrefix(entries, n, d[i].0);
    }
  }

  /** The order only depends on the keys at each position. */
  lemma InFirstOrderSameKeys<K, V>(entries: seq<(K, V)>, a: seq<(K, V)>, b: seq<(K, V)>)
    requires KeySet(a) <= KeySet(entries) && InFirstOrder(entries, a)
    requires |a| == |b| && forall i :: 0 <= i < |a| ==> a[i].0 == b[i].0
    ensures KeySet(b) <= KeySet(entries) && InFirstOrder(entries, b)
  {
    forall x | x in KeySet(b) ensures x in KeySet(entries) {
      var i :| 0 <= i < |b| && b[i].0 == x;
      assert a[i].0 in KeySet(a);
    }
  }

  /** Appending a key that first appears after all others keeps the order. */
  lemma InFirstOrderAppend<K, V>(entries: seq<(K, V)>, a: seq<(K, V)>, e: (K, V))
    requires KeySet(a) <= KeySet(entries) && InFirstOrder(entries, a) && e.0 in KeySet(entries)
    requires forall i :: 0 <= i < |a| ==> a[i].0 in KeySet(entries) && FirstIndex(entries, a[i].0) < FirstIndex(entries, e.0)
    ensures KeySet(a + [e]) <= KeySet(entries) && InFirstOrder(entries, a + [e])
  {
    var d := a + [e];
    forall x | x in KeySet(d) ensures x in KeySet(entries) {
      var i :| 0 <= i < |d| && d[i].0 == x;
      if i < |a| { assert a[i].0 in KeySet(a); }
    }
    forall i, j | 0 <= i < j < |d|
      ensures FirstIndex(entries, d[i].0) < FirstIndex(entries, d[j].0)
    {
      assert d[i] == a[i];
      if j < |a| { assert d[j] == a[j]; }
    }
  }

  /** The dict iterates its keys in the order of their first appearance in the
      literal. */
  lemma {:induction false} DictLiteralOrder<K, V>(entries: seq<(K, V)>)
    ensures InFirstOrder(entries, DictLiteral(entries))
  {
    if entries != [] {
      var n := |entries| - 1;
      DictLiteralOrder(entries[..n]);
      DictLiteralOrderStep(entries);
    }
  }

  /** One assignment of the literal keeps the keys in first-appearance order. */
  lemma DictLiteralOrderStep<K, V>(entries: seq<(K, V)>)
    requires entries != []
    requires InFirstOrder(entries[..|entries| - 1], DictLiteral(entries[..|entries| - 1]))
    ensures InFirstOrder(entries, DictLiteral(entries))
  {
    var n := |entries| - 1;
    var prefix := entries[..n];
    var k := entries[n].0;
    var before := DictLiteral(prefix);
    var d := DictLiteral(entries);
    assert d == Assign(before, k, entries[n].1);
    InFirstOrderExtend(entries, n, before);
    if k in KeySet(before) {
      AssignKeepsKeys(before, k, entries[n].1);
      InFirstOrderSameKeys(entries, before, d);
    } else {
      NewKeyFirstIndex(entries);
      InFirstOrderAppend(entries, before, entries[n]);
    }
  }

  /** Overwriting a present key leaves every position's key in place. */
  lemma AssignKeepsKeys<K, V>(d: seq<(K, V)>, k: K, v: V)
    requires k in KeySet(d)
    ensures |Assign(d, k, v)| == |d|
    ensures forall i :: 0 <= i < |d| ==> Assign(d, k, v)[i].0 == d[i].0
  {
  }

  /** A key first seen in the last entry first appears there. */
  lemma NewKeyFirstIndex<K, V>(entries: seq<(K, V)>)
    requires entries != [] && entries[|entries| - 1].0 !in KeySet(entries[..|entries| - 1])
    ensures entries[|entries| - 1].0 in KeySet(entries)
    ensures FirstIndex(entries, entries[|entries| - 1].0) == |entries| - 1
  {
    var n := |entries| - 1;
    var k := entries[n].0;
    forall j | 0 <= j < n ensures entries[j].0 != k {
      assert entries[..n][j].0 == entries[j].0;
    }
  }

  /** A literal whose keys are all different is the dict of its entries, in order. */
  lemma {:induction false} DictLiteralDistinct<K, V>(entries: seq<(K, V)>)
    requires DistinctKeys(entries)
    ensures DictLiteral(entries) == entries
  {
    if entries != [] {
      var n := |entries| - 1;
      var prefix := entries[..n];
      DictLiteralDistinct(prefix);
      assert entries[n].0 !in KeySet(prefix);
      assert entries == prefix + [entries[n]];
    }
  }

  /** When the first two entries share a key and the rest have distinct keys,
      the second entry overwrites the first in first position, so the dict is
      the literal without its first entry. */
  lemma {:induction false} DictLiteralLeadingDuplicate<K, V>(entries: seq<(K, V)>)
    requires |entries| >= 2 && entries[0].0 == entries[1].0 && DistinctKeys(entries[1..])
    ensures DictLiteral(entries) == entries[1..]
  {
    var n := |entries| - 1;
    var prefix := entries[..n];
    if n == 1 {
      assert DictLiteral(prefix) == [entries[0]] by { assert prefix[..0] == []; }
      assert entries[1].0 in KeySet([entries[0]]) by { assert [entries[0]][0].0 == entries[1].0; }
    } else {
      assert prefix[1..] == entries[1..n];
      DictLiteralLeadingDuplicate(prefix);
      assert entries[n].0 !in KeySet(entries[1..n]) by {
        forall i | 0 <= i < n - 1 ensures entries[1..n][i].0 != entries[n].0 {
          assert entries[1..][i].0 != entries[1..][n - 1].0;
        }
      }
      assert entries[1..] == entries[1..n] + [entries[n]];
    }
  }
}
