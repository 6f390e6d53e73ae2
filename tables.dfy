/**
 * The name-to-values dictionaries the service builds. A dictionary that is only
 * ever added to enumerates its keys in insertion order, so it is modelled as the
 * ordered list of its entries, with no key twice.
 */
module Tables {
  import opened Outcomes

  type Entry<K> = (K, seq<string>)

  /** The keys, in enumeration order. */
  function Keys<K>(t: seq<Entry<K>>): (ks: seq<K>)
    ensures |ks| == |t| && forall k :: 0 <= k < |t| ==> ks[k] == t[k].0
  {
    if |t| == 0 then [] else [t[0].0] + Keys(t[1..])
  }

  predicate Distinct<K(==)>(ks: seq<K>)
  {
    forall i, j :: 0 <= i < j < |ks| ==> ks[i] != ks[j]
  }

  type Table<K(==)> = t: seq<Entry<K>> | Distinct(Keys(t)) witness []

  /** Dictionary.Add: the entry goes last, unless its key is already present, which throws. */
  function Add<K(==)>(t: Table<K>, key: K, values: seq<string>): (r: Result<Table<K>>)
    ensures r.Ok? <==> key !in Keys(t)
    ensures r.Ok? ==> Keys(r.value) == Keys(t) + [key] && r.value[..|t|] == t && r.value[|t|].1 == values
  {
    if key in Keys(t) then Err(DuplicateKey)
    else
      var t' := t + [(key, values)];
      assert Keys(t') == Keys(t) + [key];
      Ok(t')
  }

  /** The dictionary indexer: the values stored under `key`, or KeyNotFoundException. */
  function Lookup<K(==)>(t: Table<K>, key: K): (r: Result<seq<string>>)
    ensures r.Ok? <==> key in Keys(t)
    ensures forall k :: 0 <= k < |t| && t[k].0 == key ==> r == Ok(t[k].1)
  {
    if |t| == 0 then Err(KeyNotFound)
    else if t[0].0 == key then Ok(t[0].1)
    else
      var rest: Table<K> := t[1..];
      assert forall k :: 0 <= k < |rest| ==> Keys(rest)[k] == Keys(t)[k + 1];
      Lookup(rest, key)
  }

  lemma KeysAppend<K>(a: seq<Entry<K>>, b: seq<Entry<K>>)
    ensures Keys(a + b) == Keys(a) + Keys(b)
  {
    assert forall k :: 0 <= k < |a + b| ==> Keys(a + b)[k] == (Keys(a) + Keys(b))[k];
  }

  /** A value occurring in both halves of a list makes it repeat a key. */
  lemma SharedNotDistinct<K>(a: seq<K>, b: seq<K>, x: K)
    requires x in a && x in b
    ensures !Distinct(a + b)
  {
    var p :| 0 <= p < |a| && a[p] == x;
    var q :| 0 <= q < |b| && b[q] == x;
    assert (a + b)[p] == (a + b)[|a| + q];
  }

  /** A list with one more value at the end is distinct exactly when the list is and the value is new. */
  lemma DistinctSnoc<K>(a: seq<K>, x: K)
    ensures Distinct(a + [x]) <==> Distinct(a) && x !in a
  {
    if Distinct(a + [x]) {
      assert forall i :: 0 <= i < |a| ==> (a + [x])[i] == a[i];
      if x in a {
        SharedNotDistinct(a, [x], x);
      }
    }
  }
}
