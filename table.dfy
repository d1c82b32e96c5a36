/**
 * The catalog dictionary `{name: price}` with Python `dict` semantics: its
 * entries in insertion order, a new key appended at the end, an existing key
 * given a new value in its original position.
 */
module Table {
  import opened Wrappers

  /** Entries `(name, price in cents)`, in the dictionary's iteration order. */
  type Table = seq<(string, int)>

  function Keys(t: Table): (ks: seq<string>)
    ensures |ks| == |t| && forall i :: 0 <= i < |t| ==> ks[i] == t[i].0
  {
    if t == [] then [] else [t[0].0] + Keys(t[1..])
  }

  /** No key occurs twice, as in every Python dict. */
  predicate DistinctKeys(t: Table) {
    forall i, j :: 0 <= i < j < |t| ==> t[i].0 != t[j].0
  }

  /** `t.get(k)`: the value stored under `k`, if any. */
  function Lookup(t: Table, k: string): (r: Option<int>)
    ensures r.None? <==> k !in Keys(t)
    ensures r.Some? ==> exists i :: 0 <= i < |t| && t[i] == (k, r.value)
    ensures DistinctKeys(t) ==> forall i :: 0 <= i < |t| && t[i].0 == k ==> r == Some(t[i].1)
  {
    if t == [] then None
    else if t[0].0 == k then Some(t[0].1)
    else Lookup(t[1..], k)
  }

  /** `t[k] = v`. */
  function Insert(t: Table, k: string, v: int): Table {
    if t == [] then [(k, v)]
    else if t[0].0 == k then [(k, v)] + t[1..]
    else [t[0]] + Insert(t[1..], k, v)
  }

  /** A new key goes to the end; an existing key stays where it is. */
  lemma {:induction false} InsertKeys(t: Table, k: string, v: int)
    ensures k in Keys(t) ==> Keys(Insert(t, k, v)) == Keys(t)
    ensures k !in Keys(t) ==> Keys(Insert(t, k, v)) == Keys(t) + [k]
  {
    if t != [] {
      var r := Insert(t, k, v);
      assert Keys(t) == [t[0].0] + Keys(t[1..]);
      if t[0].0 == k {
        assert r[1..] == t[1..];
      } else {
        InsertKeys(t[1..], k, v);
        assert r[1..] == Insert(t[1..], k, v);
      }
    }
  }

  /** After `t[k] = v`, `k` maps to `v` and every other key to what it mapped to before. */
  lemma {:induction false} InsertLookup(t: Table, k: string, v: int)
    ensures Lookup(Insert(t, k, v), k) == Some(v)
    ensures forall k' :: k' != k ==> Lookup(Insert(t, k, v), k') == Lookup(t, k')
  {
    if t != [] {
      var r := Insert(t, k, v);
      if t[0].0 == k {
        assert r[1..] == t[1..];
      } else {
        InsertLookup(t[1..], k, v);
        assert r[1..] == Insert(t[1..], k, v);
      }
    }
  }

  /** Setting a key keeps the keys distinct: the table stays a dictionary. */
  lemma InsertKeepsDistinct(t: Table, k: string, v: int)
    requires DistinctKeys(t)
    ensures DistinctKeys(Insert(t, k, v))
  {
    var r := Insert(t, k, v);
    InsertKeys(t, k, v);
    forall i, j | 0 <= i < j < |r| ensures r[i].0 != r[j].0 {
      assert Keys(r)[i] == r[i].0 && Keys(r)[j] == r[j].0;
      if j < |t| {
        assert Keys(t)[i] == t[i].0 && Keys(t)[j] == t[j].0;
      } else {
        assert Keys(t)[i] == t[i].0;
      }
    }
  }
}
