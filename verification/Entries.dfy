/** Lists whose elements set keys, no key twice: what they mean does not depend on their order. */
module Entries {
  import opened Sequences

  datatype Entry<K, V> = Bad | Sets(key: K, value: V)

  /** Every element sets a key, and no two the same. */
  ghost predicate Ok<T, K, V>(s: seq<T>, entry: T -> Entry<K, V>) {
    && (forall x | x in s :: entry(x).Sets?)
    && forall i, j | 0 <= i < j < |s| :: entry(s[i]).Sets? && entry(s[j]).Sets? ==> entry(s[i]).key != entry(s[j]).key
  }

  ghost predicate HasKey<T, K, V>(s: seq<T>, entry: T -> Entry<K, V>, k: K) {
    exists x | x in s :: entry(x).Sets? && entry(x).key == k
  }

  /** The table holds exactly what the elements set. */
  ghost predicate IsTable<T, K(!new), V>(s: seq<T>, entry: T -> Entry<K, V>, table: map<K, V>) {
    && Ok(s, entry)
    && (forall x | x in s :: entry(x).key in table && table[entry(x).key] == entry(x).value)
    && forall k :: k in table ==> HasKey(s, entry, k)
  }

  lemma {:induction false} OkStep<T, K(!new), V>(front: seq<T>, last: T, entry: T -> Entry<K, V>)
    ensures Ok(front + [last], entry)
       <==> Ok(front, entry) && entry(last).Sets? && !HasKey(front, entry, entry(last).key)
  {
    var s := front + [last];
    assert forall i | 0 <= i < |front| :: s[i] == front[i];
    assert s[|front|] == last && last in s;
    assert forall x | x in front :: x in s;
    if Ok(s, entry) {
      forall x | x in front
        ensures entry(x).key != entry(last).key
      {
        var i :| 0 <= i < |front| && front[i] == x;
        assert s[i] == x && s[|front|] == last;
      }
    }
    if Ok(front, entry) && entry(last).Sets? && !HasKey(front, entry, entry(last).key) {
      forall i, j | 0 <= i < j < |s|
        ensures entry(s[i]).key != entry(s[j]).key
      {
        assert s[i] in front;
      }
    }
  }

  lemma {:induction false} TableStep<T, K(!new), V>(front: seq<T>, last: T, entry: T -> Entry<K, V>, table: map<K, V>)
    requires IsTable(front, entry, table) && Ok(front + [last], entry)
    ensures IsTable(front + [last], entry, table[entry(last).key := entry(last).value])
  {
    OkStep(front, last, entry);
    var s, next := front + [last], table[entry(last).key := entry(last).value];
    forall x | x in s
      ensures entry(x).key in next && next[entry(x).key] == entry(x).value
    {
      if x in front {
      }
    }
    forall k | k in next
      ensures HasKey(s, entry, k)
    {
      if k == entry(last).key {
        assert last in s;
      } else {
        var x :| x in front && entry(x).Sets? && entry(x).key == k;
        assert x in s;
      }
    }
  }

  /** An element of a list that is a table has its key there. */
  lemma {:induction false} TableHas<T, K(!new), V>(s: seq<T>, entry: T -> Entry<K, V>, table: map<K, V>, k: K)
    requires IsTable(s, entry, table)
    ensures k in table <==> HasKey(s, entry, k)
  {
    if HasKey(s, entry, k) {
      var x :| x in s && entry(x).Sets? && entry(x).key == k;
    }
  }

  lemma {:induction false} TableOnce<T, K(!new), V>(s: seq<T>, entry: T -> Entry<K, V>, a: map<K, V>, b: map<K, V>)
    requires IsTable(s, entry, a) && IsTable(s, entry, b)
    ensures a == b
  {
    forall k
      ensures k in a <==> k in b
      ensures k in a ==> a[k] == b[k]
    {
      TableHas(s, entry, a, k);
      TableHas(s, entry, b, k);
      if k in a {
        var x :| x in s && entry(x).Sets? && entry(x).key == k;
      }
    }
  }

  // ---- The order of the elements --------------------------------------------------------------

  lemma {:induction false} OkInsert<T, K(!new), V>(s: seq<T>, j: nat, entry: T -> Entry<K, V>)
    requires j < |s| && Ok(RemoveAt(s, j), entry)
    requires entry(s[j]).Sets? && !HasKey(RemoveAt(s, j), entry, entry(s[j]).key)
    ensures Ok(s, entry)
  {
    var rest := RemoveAt(s, j);
    forall k | 0 <= k < |s| && k != j
      ensures s[k] == rest[if k < j then k else k - 1] && s[k] in rest && entry(s[k]).Sets?
      ensures entry(s[k]).key != entry(s[j]).key
    {
    }
    forall k, l | 0 <= k < l < |s|
      ensures entry(s[k]).key != entry(s[l]).key
    {
      if k != j && l != j {
        assert rest[if k < j then k else k - 1] == s[k] && rest[if l < j then l else l - 1] == s[l];
      }
    }
  }

  lemma {:induction false} OkOfPermutation<T, K(!new), V>(a: seq<T>, b: seq<T>, entry: T -> Entry<K, V>)
    requires multiset(a) == multiset(b) && Ok(a, entry)
    ensures Ok(b, entry)
    decreases |a|
  {
    SameElements(a, b);
    if a != [] {
      var front, last := a[..|a| - 1], a[|a| - 1];
      var j := LastInPermutation(a, b);
      assert a == front + [last];
      OkStep(front, last, entry);
      OkOfPermutation(front, RemoveAt(b, j), entry);
      SameElements(front, RemoveAt(b, j));
      OkInsert(b, j, entry);
    }
  }

  /** A reordered list is as good, and its table is the same. */
  lemma {:induction false} TableOfPermutation<T, K(!new), V>(a: seq<T>, b: seq<T>, entry: T -> Entry<K, V>, table: map<K, V>)
    requires multiset(a) == multiset(b) && IsTable(a, entry, table)
    ensures IsTable(b, entry, table)
  {
    OkOfPermutation(a, b, entry);
    SameElements(a, b);
    forall k | k in table
      ensures HasKey(b, entry, k)
    {
      var x :| x in a && entry(x).Sets? && entry(x).key == k;
      assert x in b;
    }
  }
}
