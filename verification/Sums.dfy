/** Sums over the entries of a map, in whatever order the map is visited. */
module Sums {
  import opened Transactions

  ghost function SumOf<V>(m: map<string, V>, weight: V -> nat): nat
    decreases |m|
  {
    if m == map[] then 0
    else
      var k :| k in m;
      weight(m[k]) + SumOf(m - {k}, weight)
  }

  /** The sum does not depend on the order in which entries are taken out. */
  lemma {:induction false} SumRemove<V>(m: map<string, V>, weight: V -> nat, k: string)
    requires k in m
    ensures SumOf(m, weight) == weight(m[k]) + SumOf(m - {k}, weight)
    decreases |m|
  {
    var first :| first in m && SumOf(m, weight) == weight(m[first]) + SumOf(m - {first}, weight);
    if first != k {
      SumRemove(m - {first}, weight, k);
      SumRemove(m - {k}, weight, first);
      assert m - {first} - {k} == m - {k} - {first};
    }
  }

  lemma SumInsert<V>(m: map<string, V>, weight: V -> nat, k: string, v: V)
    requires k !in m
    ensures SumOf(m[k := v], weight) == SumOf(m, weight) + weight(v)
  {
    SumRemove(m[k := v], weight, k);
    assert m[k := v] - {k} == m;
  }

  /** Moving one entry from the part still to visit to the part already seen. */
  lemma VisitEntry<V>(seen: map<string, V>, rest: map<string, V>, k: string)
    requires seen.Keys !! rest.Keys && k in rest
    ensures seen[k := rest[k]].Keys !! (rest - {k}).Keys
    ensures seen[k := rest[k]] + (rest - {k}) == seen + rest
  {
  }

  // ----- the value held by a UTXO map -----

  function Amount(u: Utxo): nat {
    u.amount
  }

  ghost function Sum(m: map<string, Utxo>): nat {
    SumOf(m, Amount)
  }

  lemma MergeAssociative(a: map<string, Utxo>, b: map<string, Utxo>, c: map<string, Utxo>)
    ensures (a + b) + c == a + (b + c)
  {
  }

  lemma MergeRemove(m: map<string, Utxo>, n: map<string, Utxo>, k: string)
    requires k !in m
    ensures (m + n) - {k} == m + (n - {k})
  {
  }

  lemma {:induction false} SumMerge(m: map<string, Utxo>, n: map<string, Utxo>)
    requires forall k :: k in n ==> k !in m
    ensures Sum(m + n) == Sum(m) + Sum(n)
    decreases |n|
  {
    if n == map[] {
      assert m + n == m;
    } else {
      var k :| k in n;
      SumRemove(n, Amount, k);
      SumRemove(m + n, Amount, k);
      MergeRemove(m, n, k);
      SumMerge(m, n - {k});
    }
  }

  function Restrict(m: map<string, Utxo>, keys: set<string>): map<string, Utxo> {
    map k | k in m && k in keys :: m[k]
  }

  lemma SumSplit(m: map<string, Utxo>, keys: set<string>)
    ensures Sum(m) == Sum(m - keys) + Sum(Restrict(m, keys))
  {
    SumMerge(m - keys, Restrict(m, keys));
    assert (m - keys) + Restrict(m, keys) == m;
  }

  /** The entries that belong to an address. */
  function OwnedBy(m: map<string, Utxo>, address: string): map<string, Utxo> {
    map k | k in m && m[k].address == address :: m[k]
  }

  lemma OwnedAtMostAll(m: map<string, Utxo>, address: string)
    ensures Sum(OwnedBy(m, address)) <= Sum(m)
  {
    var others := set k | k in m && m[k].address != address;
    assert OwnedBy(m, address) == m - others;
    SumSplit(m, others);
  }

  lemma OwnedInsert(m: map<string, Utxo>, address: string, k: string, u: Utxo)
    requires k !in m
    ensures OwnedBy(m[k := u], address) ==
            if u.address == address then OwnedBy(m, address)[k := u] else OwnedBy(m, address)
  {
  }

  lemma SumOwnedInsert(m: map<string, Utxo>, address: string, k: string, u: Utxo)
    requires k !in m
    ensures Sum(OwnedBy(m[k := u], address)) == Sum(OwnedBy(m, address)) + if u.address == address then u.amount else 0
  {
    OwnedInsert(m, address, k, u);
    if u.address == address {
      SumInsert(OwnedBy(m, address), Amount, k, u);
    }
  }

  /** Visiting one entry of the map while summing up what belongs to an address. */
  lemma VisitOwned(all: map<string, Utxo>, seen: map<string, Utxo>, rest: map<string, Utxo>, address: string, k: string)
    requires seen.Keys !! rest.Keys && seen + rest == all && k in rest
    ensures var seen', rest' := seen[k := rest[k]], rest - {k};
            && seen'.Keys !! rest'.Keys && seen' + rest' == all
            && Sum(OwnedBy(seen', address)) ==
               Sum(OwnedBy(seen, address)) + if rest[k].address == address then rest[k].amount else 0
  {
    SumOwnedInsert(seen, address, k, rest[k]);
    VisitEntry(seen, rest, k);
  }
}
