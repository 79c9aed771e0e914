/**
 Keys of hash tables. Iterating a hash table visits every key once in some order, and nothing
 else is known of that order; sorting the keys removes the dependence.
 */
module SortedKeys {

  /** `order` visits every key of `keys` exactly once. */
  ghost predicate Lists<K(!new)>(order: seq<K>, keys: set<K>) {
    && (forall k :: k in order <==> k in keys)
    && Distinct(order)
  }

  ghost predicate Distinct<K>(order: seq<K>) {
    forall i, j :: 0 <= i < j < |order| ==> order[i] != order[j]
  }

  /** Lexicographic order of strings. */
  predicate Less(a: string, b: string) {
    |b| > 0 && (|a| == 0 || a[0] < b[0] || (a[0] == b[0] && Less(a[1..], b[1..])))
  }

  lemma {:induction false} LessTrichotomy(a: string, b: string)
    ensures Less(a, b) || a == b || Less(b, a)
    ensures !(Less(a, b) && Less(b, a)) && (a == b ==> !Less(a, b))
  {
    if |a| > 0 && |b| > 0 && a[0] == b[0] {
      LessTrichotomy(a[1..], b[1..]);
      assert a == [a[0]] + a[1..] && b == [b[0]] + b[1..];
    }
  }

  lemma {:induction false} LessTransitive(a: string, b: string, c: string)
    requires Less(a, b) && Less(b, c)
    ensures Less(a, c)
  {
    if |a| > 0 && a[0] == b[0] == c[0] {
      LessTransitive(a[1..], b[1..], c[1..]);
    }
  }

  predicate IsLeast(k: string, keys: set<string>) {
    k in keys && forall other :: other in keys ==> other == k || Less(k, other)
  }

  lemma {:induction false} LeastExists(keys: set<string>)
    requires keys != {}
    ensures exists k :: IsLeast(k, keys)
  {
    var any :| any in keys;
    var rest := keys - {any};
    if rest == {} {
      assert keys == rest + {any};
      assert IsLeast(any, keys);
    } else {
      LeastExists(rest);
      var least :| IsLeast(least, rest);
      LessTrichotomy(any, least);
      if Less(any, least) {
        forall other | other in keys ensures other == any || Less(any, other) {
          if other != any && other != least {
            LessTransitive(any, least, other);
          }
        }
        assert IsLeast(any, keys);
      } else {
        assert IsLeast(least, keys);
      }
    }
  }

  lemma LeastIsUnique(keys: set<string>)
    ensures forall a, b :: IsLeast(a, keys) && IsLeast(b, keys) ==> a == b
  {
    forall a, b | IsLeast(a, keys) && IsLeast(b, keys)
      ensures a == b
    {
      LessTrichotomy(a, b);
    }
  }

  /** The keys in ascending order. */
  function Sorted(keys: set<string>): (order: seq<string>)
    ensures forall k :: k in order <==> k in keys
    decreases |keys|
  {
    if keys == {} then []
    else
      LeastExists(keys);
      LeastIsUnique(keys);
      var k :| IsLeast(k, keys);
      [k] + Sorted(keys - {k})
  }

  ghost predicate Ascending(order: seq<string>) {
    forall i, j :: 0 <= i < j < |order| ==> Less(order[i], order[j])
  }

  lemma {:induction false} SortedIsAscending(keys: set<string>)
    ensures Ascending(Sorted(keys)) && Lists(Sorted(keys), keys) && |Sorted(keys)| == |keys|
    decreases |keys|
  {
    if keys != {} {
      hide Less;
      LeastExists(keys);
      LeastIsUnique(keys);
      var k :| IsLeast(k, keys);
      SortedIsAscending(keys - {k});
      var rest := Sorted(keys - {k});
      assert Sorted(keys) == [k] + rest;
      forall j | 0 <= j < |rest| ensures Less(k, rest[j]) {
        assert rest[j] in keys - {k};
      }
      AscendingIsDistinct(Sorted(keys));
    }
  }

  lemma AscendingIsDistinct(order: seq<string>)
    requires Ascending(order)
    ensures Distinct(order)
  {
    forall i, j | 0 <= i < j < |order| ensures order[i] != order[j] {
      LessTrichotomy(order[i], order[j]);
    }
  }

  /** A set of strings has only one ascending listing. */
  lemma {:induction false} AscendingIsUnique(a: seq<string>, b: seq<string>)
    requires Ascending(a) && Ascending(b)
    requires forall k :: k in a <==> k in b
    ensures a == b
  {
    if a == [] {
      assert forall i :: 0 <= i < |b| ==> b[i] in b;
    } else {
      assert a[0] in b && (b != [] ==> b[0] in a);
      var i :| 0 <= i < |b| && b[i] == a[0];
      var j :| 0 <= j < |a| && a[j] == b[0];
      LessTrichotomy(a[0], b[0]);
      assert a[0] == b[0];
      forall k ensures k in a[1..] <==> k in b[1..] {
        TailMembers(a, k);
        TailMembers(b, k);
      }
      AscendingIsUnique(a[1..], b[1..]);
    }
  }

  lemma TailMembers(a: seq<string>, k: string)
    requires Ascending(a) && a != []
    ensures k in a[1..] <==> k in a && k != a[0]
  {
    if k in a[1..] {
      var i :| 0 <= i < |a| - 1 && a[1..][i] == k;
      assert a[i + 1] == k;
      LessTrichotomy(a[0], k);
    }
    if k in a && k != a[0] {
      var i :| 0 <= i < |a| && a[i] == k;
      assert a[1..][i - 1] == k;
    }
  }

  /**
   Iteration orders of a hash table, one for each set of keys it may hold. Every statement about
   a traversal is made for all of them.
   */
  type HashOrder = h: set<string> -> seq<string> | ListsAll(h) ghost witness SortedOrder()

  ghost predicate ListsAll(h: set<string> -> seq<string>) {
    forall keys :: Lists(h(keys), keys)
  }

  ghost function SortedOrder(): (h: set<string> -> seq<string>)
    ensures ListsAll(h)
  {
    var h := (keys: set<string>) => Sorted(keys);
    assert ListsAll(h) by {
      forall keys ensures Lists(h(keys), keys) {
        SortedIsAscending(keys);
      }
    }
    h
  }

  lemma ListsBoth(a: seq<string>, b: seq<string>, keys: set<string>, others: set<string>)
    requires Lists(a, keys) && Lists(b, others) && keys !! others
    ensures Lists(a + b, keys + others)
  {
    forall i, j | 0 <= i < j < |a + b| ensures (a + b)[i] != (a + b)[j] {
      if i < |a| <= j {
        assert a[i] in a && b[j - |a|] in b;
      }
    }
  }

  /** An order that visits the keys in `first` before all others. */
  ghost function VisitFirst(first: set<string>): (h: HashOrder)
    ensures forall keys :: h(keys) == Sorted(keys * first) + Sorted(keys - first)
  {
    var h := (keys: set<string>) => Sorted(keys * first) + Sorted(keys - first);
    assert ListsAll(h) by {
      forall keys ensures Lists(h(keys), keys) {
        SortedIsAscending(keys * first);
        SortedIsAscending(keys - first);
        ListsBoth(Sorted(keys * first), Sorted(keys - first), keys * first, keys - first);
        assert keys * first + (keys - first) == keys;
      }
    }
    h
  }
}
