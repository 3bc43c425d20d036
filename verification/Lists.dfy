/** Facts about sequences and finite maps used by the protocol models. */
module Lists {
  // A list without the first occurrence of x.
  function Erase<T(==)>(q: seq<T>, x: T): (r: seq<T>)
    ensures x !in q ==> r == q
  {
    if q == [] then [] else if q[0] == x then q[1..] else [q[0]] + Erase(q[1..], x)
  }

  lemma {:induction false} EraseMultiset<T>(q: seq<T>, x: T)
    requires x in q
    ensures multiset(Erase(q, x)) == multiset(q) - multiset{x}
    ensures |Erase(q, x)| == |q| - 1
  {
    assert q == [q[0]] + q[1..];
    if q[0] != x { EraseMultiset(q[1..], x); }
  }

  // What a list holds, as a set.
  function Elements<T>(q: seq<T>): set<T> {
    set x | x in q
  }

  predicate NoDuplicates<T(==)>(q: seq<T>) {
    forall i, j :: 0 <= i < j < |q| ==> q[i] != q[j]
  }

  lemma CountedTwice<T>(q: seq<T>, i: nat, j: nat)
    requires i < j < |q| && q[i] == q[j]
    ensures multiset(q)[q[i]] >= 2
  {
    var head, tail := q[..j], q[j..];
    assert q == head + tail && head[i] == q[i] && tail[0] == q[j];
    assert multiset(q) == multiset(head) + multiset(tail);
    assert q[i] in multiset(head) && q[i] in multiset(tail);
  }

  lemma MultisetNoDuplicates<T>(q: seq<T>)
    requires forall x :: x in q ==> multiset(q)[x] == 1
    ensures NoDuplicates(q)
  {
    forall i, j | 0 <= i < j < |q| && q[i] == q[j]
      ensures false
    {
      CountedTwice(q, i, j);
    }
  }

  lemma {:induction false} EraseElements<T>(q: seq<T>, x: T)
    requires NoDuplicates(q)
    ensures NoDuplicates(Erase(q, x)) && Elements(Erase(q, x)) == Elements(q) - {x}
    ensures x !in Erase(q, x)
  {
    if q != [] {
      var tail := q[1..];
      assert q == [q[0]] + tail;
      assert q[0] !in tail by { assert forall i :: 0 <= i < |tail| ==> tail[i] == q[i + 1]; }
      assert Elements(q) == {q[0]} + Elements(tail);
      if q[0] != x {
        EraseElements(tail, x);
        var r := Erase(tail, x);
        assert Elements(Erase(q, x)) == {q[0]} + Elements(r);
        assert q[0] !in Elements(r);
      }
    }
  }

  // The keys a map sends to v.
  function Preimage<K, V(==)>(m: map<K, V>, v: V): set<K> {
    set k | k in m && m[k] == v
  }

  function Count<K, V(==)>(m: map<K, V>, v: V): nat {
    |Preimage(m, v)|
  }

  lemma CountAdd<K, V>(m: map<K, V>, k: K, v: V, w: V)
    requires k !in m
    ensures Count(m[k := v], w) == Count(m, w) + if v == w then 1 else 0
  {
    if v == w {
      assert Preimage(m[k := v], w) == Preimage(m, w) + {k};
    } else {
      assert Preimage(m[k := v], w) == Preimage(m, w);
    }
  }

  lemma CountRemove<K, V>(m: map<K, V>, k: K, w: V)
    requires k in m
    ensures Count(m - {k}, w) == Count(m, w) - if m[k] == w then 1 else 0
  {
    if m[k] == w {
      assert Preimage(m - {k}, w) == Preimage(m, w) - {k};
    } else {
      assert Preimage(m - {k}, w) == Preimage(m, w);
    }
  }

  lemma CountAddAll<K, V>(m: map<K, V>, ks: set<K>, v: V, w: V)
    requires ks !! m.Keys
    ensures Count(m + map k | k in ks :: v, w) == Count(m, w) + if v == w then |ks| else 0
  {
    var m' := m + map k | k in ks :: v;
    if v == w {
      assert Preimage(m', w) == Preimage(m, w) + ks;
    } else {
      assert Preimage(m', w) == Preimage(m, w);
    }
  }

  lemma CountPositive<K, V>(m: map<K, V>, k: K)
    requires k in m
    ensures Count(m, m[k]) >= 1
  {
    assert k in Preimage(m, m[k]);
  }

  lemma CountZero<K, V>(m: map<K, V>, v: V)
    requires v !in m.Values
    ensures Count(m, v) == 0
  {
    assert Preimage(m, v) == {};
  }
}
