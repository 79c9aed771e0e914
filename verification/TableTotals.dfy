/** Sums over the entries of a hash table and over a log, and how updates change them. */
module TableTotals {
  import opened SortedKeys

  ghost function TotalOver<K(!new), V>(keys: set<K>, table: map<K, V>, f: V -> int): int
    requires keys <= table.Keys
  {
    if keys == {} then 0
    else
      var k :| k in keys;
      f(table[k]) + TotalOver(keys - {k}, table, f)
  }

  /** The sum of `f` over all entries of a table. */
  ghost function Total<K(!new), V>(table: map<K, V>, f: V -> int): int {
    TotalOver(table.Keys, table, f)
  }

  /** The sum does not depend on which entry is taken first. */
  lemma {:induction false} TotalOverRemove<K(!new), V>(keys: set<K>, table: map<K, V>, f: V -> int, k: K)
    requires keys <= table.Keys && k in keys
    ensures TotalOver(keys, table, f) == f(table[k]) + TotalOver(keys - {k}, table, f)
    decreases |keys|
  {
    var first :| first in keys && TotalOver(keys, table, f) == f(table[first]) + TotalOver(keys - {first}, table, f);
    if first != k {
      TotalOverRemove(keys - {first}, table, f, k);
      TotalOverRemove(keys - {k}, table, f, first);
      assert keys - {first} - {k} == keys - {k} - {first};
    }
  }

  lemma {:induction false} TotalOverAgree<K(!new), V>(keys: set<K>, a: map<K, V>, b: map<K, V>, f: V -> int)
    requires keys <= a.Keys && keys <= b.Keys
    requires forall k :: k in keys ==> a[k] == b[k]
    ensures TotalOver(keys, a, f) == TotalOver(keys, b, f)
    decreases |keys|
  {
    if keys != {} {
      var k :| k in keys;
      TotalOverRemove(keys, a, f, k);
      TotalOverRemove(keys, b, f, k);
      TotalOverAgree(keys - {k}, a, b, f);
    }
  }

  lemma TotalRemove<K(!new), V>(table: map<K, V>, k: K, f: V -> int)
    requires k in table
    ensures Total(table - {k}, f) == Total(table, f) - f(table[k])
  {
    TotalOverRemove(table.Keys, table, f, k);
    assert (table - {k}).Keys == table.Keys - {k};
    TotalOverAgree(table.Keys - {k}, table, table - {k}, f);
  }

  lemma TotalInsert<K(!new), V>(table: map<K, V>, k: K, v: V, f: V -> int)
    requires k !in table
    ensures Total(table[k := v], f) == Total(table, f) + f(v)
  {
    TotalRemove(table[k := v], k, f);
    assert table[k := v] - {k} == table;
  }

  lemma TotalUpdate<K(!new), V>(table: map<K, V>, k: K, v: V, f: V -> int)
    requires k in table
    ensures Total(table[k := v], f) == Total(table, f) - f(table[k]) + f(v)
  {
    TotalRemove(table, k, f);
    TotalRemove(table[k := v], k, f);
    assert table[k := v] - {k} == table - {k};
  }

  /** The sum along an order of the keys. */
  ghost function TotalAlong<K(!new), V>(order: seq<K>, table: map<K, V>, f: V -> int): int
    requires forall k :: k in order ==> k in table
  {
    if order == [] then 0
    else
      assert order[|order| - 1] in order;
      TotalAlong(order[..|order| - 1], table, f) + f(table[order[|order| - 1]])
  }

  /** Every order of the keys gives the same sum. */
  lemma {:induction false} TotalAlongIsTotal<K(!new), V>(order: seq<K>, keys: set<K>, table: map<K, V>, f: V -> int)
    requires Lists(order, keys) && keys <= table.Keys
    ensures TotalAlong(order, table, f) == TotalOver(keys, table, f)
    decreases |order|
  {
    if order == [] {
      assert keys == {};
    } else {
      var last := order[|order| - 1];
      var front := order[..|order| - 1];
      assert last in order;
      forall k ensures k in front <==> k in keys - {last} {
        if k in front {
          var i :| 0 <= i < |front| && front[i] == k;
          assert order[i] == k;
          assert k in order;
        }
        if k in keys - {last} {
          assert k in order;
          var i :| 0 <= i < |order| && order[i] == k;
          assert front[i] == k;
        }
      }
      TotalAlongIsTotal(front, keys - {last}, table, f);
      TotalOverRemove(keys, table, f, last);
    }
  }

  lemma {:induction false} TotalAlongConcat<K(!new), V>(a: seq<K>, b: seq<K>, table: map<K, V>, f: V -> int)
    requires forall k :: k in a + b ==> k in table
    ensures forall k :: k in a || k in b ==> k in a + b
    ensures TotalAlong(a + b, table, f) == TotalAlong(a, table, f) + TotalAlong(b, table, f)
  {
    assert forall k :: k in a || k in b ==> k in a + b;
    if b == [] {
      assert a + b == a;
    } else {
      var n := |b| - 1;
      assert (a + b)[..|a + b| - 1] == a + b[..n];
      TotalAlongConcat(a, b[..n], table, f);
    }
  }

  /** Entry by entry smaller, in sum no larger. */
  lemma {:induction false} TotalAlongAtMost<K(!new), V>(order: seq<K>, table: map<K, V>, f: V -> int, g: V -> int)
    requires forall k :: k in order ==> k in table && f(table[k]) <= g(table[k])
    ensures TotalAlong(order, table, f) <= TotalAlong(order, table, g)
  {
    if order != [] {
      assert order[|order| - 1] in order;
      TotalAlongAtMost(order[..|order| - 1], table, f, g);
    }
  }

  /** A sum of which no term is negative, or none is positive. */
  lemma {:induction false} TotalAlongSign<K(!new), V>(order: seq<K>, table: map<K, V>, f: V -> int)
    requires forall k :: k in order ==> k in table
    ensures (forall k :: k in order ==> f(table[k]) >= 0) ==> TotalAlong(order, table, f) >= 0
    ensures (forall k :: k in order ==> f(table[k]) <= 0) ==> TotalAlong(order, table, f) <= 0
  {
    if order != [] {
      assert order[|order| - 1] in order;
      TotalAlongSign(order[..|order| - 1], table, f);
    }
  }

  lemma {:induction false} TotalNonNegative<K(!new), V>(keys: set<K>, table: map<K, V>, f: V -> int)
    requires keys <= table.Keys
    requires forall k :: k in keys ==> f(table[k]) >= 0
    ensures TotalOver(keys, table, f) >= 0
    decreases |keys|
  {
    if keys != {} {
      var k :| k in keys;
      TotalOverRemove(keys, table, f, k);
      TotalNonNegative(keys - {k}, table, f);
    }
  }

  /** The sum of `f` over a log. */
  ghost function LogTotal<V>(log: seq<V>, f: V -> int): int {
    if log == [] then 0 else LogTotal(log[..|log| - 1], f) + f(log[|log| - 1])
  }

  lemma LogTotalAppend<V>(log: seq<V>, v: V, f: V -> int)
    ensures LogTotal(log + [v], f) == LogTotal(log, f) + f(v)
  {
    assert (log + [v])[..|log|] == log;
  }
}
