/** Insertion-ordered maps as sequences of pairs: what a Python dict, and LinkedHashTable, promise. */
module OrderedDicts {

  type Dict<K, V> = seq<(K, V)>

  ghost predicate DistinctKeys<K, V>(d: Dict<K, V>) {
    forall i, j :: 0 <= i < j < |d| ==> d[i].0 != d[j].0
  }

  /** The position of a key, or the length if it is absent. */
  function Position<K(==), V>(d: Dict<K, V>, k: K): (p: nat)
    ensures p <= |d|
    ensures p < |d| ==> d[p].0 == k
    ensures forall i :: 0 <= i < p ==> d[i].0 != k
  {
    if d == [] then 0 else if d[0].0 == k then 0 else 1 + Position(d[1..], k)
  }

  predicate Has<K(==), V>(d: Dict<K, V>, k: K) {
    Position(d, k) < |d|
  }

  function Get<K(==), V>(d: Dict<K, V>, k: K, default: V): V {
    var p := Position(d, k);
    if p < |d| then d[p].1 else default
  }

  /** Updating keeps a key's position; inserting appends. */
  function Put<K(==), V>(d: Dict<K, V>, k: K, v: V): Dict<K, V> {
    var p := Position(d, k);
    if p < |d| then d[p := (k, v)] else d + [(k, v)]
  }

  function Remove<K(==), V>(d: Dict<K, V>, k: K): Dict<K, V> {
    var p := Position(d, k);
    if p < |d| then d[..p] + d[p + 1..] else d
  }

  ghost function KeySet<K, V>(d: Dict<K, V>): set<K> {
    set i | 0 <= i < |d| :: d[i].0
  }

  lemma HasIsMembership<K, V>(d: Dict<K, V>, k: K)
    ensures Has(d, k) <==> k in KeySet(d)
  {
    if Has(d, k) {
      assert d[Position(d, k)].0 == k;
    }
  }

  /** The mapping a dictionary denotes, forgetting order. */
  ghost function ToMap<K, V>(d: Dict<K, V>): map<K, V> {
    map k | k in KeySet(d) :: d[Position(d, k)].1
  }

  /** In a dictionary the position of a key is the only place it occurs. */
  lemma PositionIs<K, V>(d: Dict<K, V>, i: nat)
    requires DistinctKeys(d) && i < |d|
    ensures Position(d, d[i].0) == i
  {
  }

  lemma PositionInPut<K, V>(d: Dict<K, V>, k: K, v: V, x: K)
    ensures var p := Position(Put(d, k, v), x);
            if x == k then p == Position(d, k) else if Has(d, x) then p == Position(d, x) else p == |Put(d, k, v)|
  {
    var d' := Put(d, k, v);
    assert forall i :: 0 <= i < |d| ==> d'[i].0 == d[i].0;
    assert !Has(d, k) ==> d'[|d|].0 == k;
    assert Position(d, x) < |d'| ==> true;
    FirstAt(d', x, if x == k || Has(d, x) then Position(d, x) else |d'|);
  }

  lemma GetAfterPut<K, V>(d: Dict<K, V>, k: K, v: V, x: K)
    ensures Has(Put(d, k, v), x) <==> x == k || Has(d, x)
    ensures forall e: V :: Get(Put(d, k, v), x, e) == if x == k then v else Get(d, x, e)
  {
    PositionInPut(d, k, v, x);
  }

  lemma FirstAt<K, V>(d: Dict<K, V>, k: K, p: nat)
    requires p <= |d| && (p < |d| ==> d[p].0 == k)
    requires forall i :: 0 <= i < p ==> d[i].0 != k
    ensures Position(d, k) == p
  {
  }

  lemma PutKeySet<K, V>(d: Dict<K, V>, k: K, v: V)
    ensures KeySet(Put(d, k, v)) == KeySet(d) + {k}
  {
    var d' := Put(d, k, v);
    forall x ensures x in KeySet(d') <==> x in KeySet(d) + {k} {
      HasIsMembership(d, x);
      HasIsMembership(d', x);
      PositionInPut(d, k, v, x);
    }
  }

  lemma PutKeepsDistinct<K, V>(d: Dict<K, V>, k: K, v: V)
    requires DistinctKeys(d)
    ensures DistinctKeys(Put(d, k, v))
  {
    var d' := Put(d, k, v);
    forall i, j | 0 <= i < j < |d'| ensures d'[i].0 != d'[j].0 {
    }
  }

  lemma PutLookup<K, V>(d: Dict<K, V>, k: K, v: V, x: K)
    requires x in KeySet(Put(d, k, v))
    ensures x == k || x in KeySet(d)
    ensures ToMap(Put(d, k, v))[x] == if x == k then v else ToMap(d)[x]
  {
    PutKeySet(d, k, v);
    HasIsMembership(d, x);
    PositionInPut(d, k, v, x);
  }

  /** Put is map update; it keeps keys distinct, keeps the order of the others, and appends a new key. */
  lemma PutIsUpdate<K, V>(d: Dict<K, V>, k: K, v: V)
    requires DistinctKeys(d)
    ensures DistinctKeys(Put(d, k, v))
    ensures ToMap(Put(d, k, v)) == ToMap(d)[k := v]
    ensures k in ToMap(d) ==> |Put(d, k, v)| == |d| && forall i :: 0 <= i < |d| ==> Put(d, k, v)[i].0 == d[i].0
    ensures k !in ToMap(d) ==> Put(d, k, v) == d + [(k, v)]
  {
    PutKeepsDistinct(d, k, v);
    PutKeySet(d, k, v);
    HasIsMembership(d, k);
    var m, m' := ToMap(d)[k := v], ToMap(Put(d, k, v));
    assert m.Keys == m'.Keys;
    forall x | x in m' ensures m'[x] == m[x] {
      PutLookup(d, k, v, x);
    }
  }

  lemma RemoveLookup<K, V>(d: Dict<K, V>, p: nat, x: K)
    requires DistinctKeys(d) && p < |d| && x in KeySet(d) && x != d[p].0
    ensures x in KeySet(d[..p] + d[p + 1..])
    ensures ToMap(d[..p] + d[p + 1..])[x] == ToMap(d)[x]
  {
    var d' := d[..p] + d[p + 1..];
    RemovedAt(d, p, x);
    var i :| 0 <= i < |d'| && d'[i].0 == x;
    RemoveKeepsDistinct(d, p);
    PositionIs(d', i);
    PositionIs(d, if i < p then i else i + 1);
  }

  lemma RemoveKeepsDistinct<K, V>(d: Dict<K, V>, p: nat)
    requires DistinctKeys(d) && p < |d|
    ensures DistinctKeys(d[..p] + d[p + 1..])
  {
  }

  lemma RemoveKeySet<K, V>(d: Dict<K, V>, p: nat)
    requires DistinctKeys(d) && p < |d|
    ensures KeySet(d[..p] + d[p + 1..]) == KeySet(d) - {d[p].0}
  {
    forall x ensures x in KeySet(d[..p] + d[p + 1..]) <==> x in KeySet(d) && x != d[p].0 {
      RemovedAt(d, p, x);
    }
  }

  lemma DroppingIsRestriction<K, V>(d: Dict<K, V>, p: nat)
    requires DistinctKeys(d) && p < |d|
    ensures ToMap(d[..p] + d[p + 1..]) == ToMap(d) - {d[p].0}
  {
    var m, m' := ToMap(d) - {d[p].0}, ToMap(d[..p] + d[p + 1..]);
    RemoveKeySet(d, p);
    assert m.Keys == m'.Keys;
    forall x | x in m' ensures m'[x] == m[x] {
      RemoveLookup(d, p, x);
    }
  }

  /** Remove is map restriction and keeps the order of what stays. */
  lemma RemoveIsRestriction<K, V>(d: Dict<K, V>, k: K)
    requires DistinctKeys(d)
    ensures DistinctKeys(Remove(d, k))
    ensures ToMap(Remove(d, k)) == ToMap(d) - {k}
  {
    var p := Position(d, k);
    HasIsMembership(d, k);
    if p < |d| {
      RemoveKeepsDistinct(d, p);
      DroppingIsRestriction(d, p);
    }
  }

  lemma RemovedAt<K, V>(d: Dict<K, V>, p: nat, x: K)
    requires DistinctKeys(d) && p < |d|
    ensures x in KeySet(d[..p] + d[p + 1..]) <==> x in KeySet(d) && x != d[p].0
  {
    var d' := d[..p] + d[p + 1..];
    if x in KeySet(d) && x != d[p].0 {
      var i :| 0 <= i < |d| && d[i].0 == x;
      assert d'[if i < p then i else i - 1].0 == x;
    }
  }
}

/** Dictionaries whose values are lists: what they hold altogether. */
module DictContents {
  import opened OrderedDicts

  /** All list elements, with multiplicity. */
  ghost function Contents<K, F>(d: Dict<K, seq<F>>): multiset<F> {
    if d == [] then multiset{} else Contents(d[..|d| - 1]) + multiset(d[|d| - 1].1)
  }

  lemma AddToBoth<F>(a: multiset<F>, b: multiset<F>, c: multiset<F>, d: multiset<F>, more: multiset<F>)
    requires a + b == c + d
    ensures (a + more) + b == (c + more) + d
  {
    assert (a + more) + b == (a + b) + more;
    assert (c + more) + d == (c + d) + more;
  }

  /** With nothing lost all is kept; otherwise strictly less. */
  ghost predicate Balanced<F>(loss: bool, kept: multiset<F>, given: multiset<F>) {
    |kept| <= |given| && (loss ==> |kept| < |given|) && (!loss ==> kept == given)
  }

  /** Adding to what is given, and trading what is lost for it, keeps the balance. */
  lemma BalanceStep<F>(loss: bool, kept: multiset<F>, given: multiset<F>, lost: multiset<F>, added: multiset<F>, kept': multiset<F>)
    requires Balanced(loss, kept, given) && kept' + lost == kept + added
    ensures Balanced(loss || lost != multiset{}, kept', given + added)
  {
    assert |kept' + lost| == |kept + added|;
    assert lost == multiset{} ==> kept' + lost == kept';
  }

  lemma Cancel<F>(a: multiset<F>, b: multiset<F>, c: multiset<F>, d: multiset<F>)
    requires a + c == b + (c + d)
    ensures a == b + d
  {
    assert a == (a + c) - c;
    assert b + d == (b + (c + d)) - c;
  }

  /** Overwriting one list trades its elements for the new ones. */
  lemma {:induction false} ContentsOfUpdate<K, F>(d: Dict<K, seq<F>>, p: nat, k: K, v: seq<F>)
    requires p < |d|
    ensures Contents(d[p := (k, v)]) + multiset(d[p].1) == Contents(d) + multiset(v)
    ensures multiset(d[p].1) <= Contents(d)
  {
    var d' := d[p := (k, v)];
    if p == |d| - 1 {
      assert d'[..p] == d[..p];
    } else {
      var rest, last := d[..|d| - 1], d[|d| - 1];
      assert d'[..|d| - 1] == rest[p := (k, v)] && d'[|d| - 1] == last && rest[p] == d[p];
      ContentsOfUpdate(rest, p, k, v);
      AddToBoth(Contents(rest[p := (k, v)]), multiset(d[p].1), Contents(rest), multiset(v), multiset(last.1));
    }
  }

  lemma ContentsOfPut<K, F>(d: Dict<K, seq<F>>, k: K, v: seq<F>)
    ensures var lost := Get(d, k, []);
            Contents(Put(d, k, v)) + multiset(lost) == Contents(d) + multiset(v) && multiset(lost) <= Contents(d)
  {
    var p := Position(d, k);
    if p < |d| {
      ContentsOfUpdate(d, p, k, v);
    } else {
      assert Put(d, k, v)[..|d|] == d;
    }
  }
}
