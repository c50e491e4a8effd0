/**
 * Binding tables: a dictionary from a key (or button) to the ordered list of
 * handlers bound to it, as both binding collections keep them. `List.Add`
 * appends, `List.Remove` takes out the first equal handler.
 */
module Buckets {
  import opened Events

  type Table<K> = map<K, seq<Handler>>

  /** The handlers bound to `k`; a missing entry has none. */
  function Bucket<K(!new)>(m: Table<K>, k: K): seq<Handler> {
    if k in m then m[k] else []
  }

  /** No key maps to an empty list. */
  ghost predicate NoEmpty<K(!new)>(m: Table<K>) {
    forall k :: k in m ==> m[k] != []
  }

  /** `if (!d.ContainsKey(k)) d.Add(k, new List()); d[k].Add(h);` */
  function Append<K(!new)>(m: Table<K>, k: K, h: Handler): (r: Table<K>)
    ensures r.Keys == m.Keys + {k}
    ensures Bucket(r, k) == Bucket(m, k) + [h]
    ensures forall j :: j != k ==> Bucket(r, j) == Bucket(m, j)
    ensures NoEmpty(m) ==> NoEmpty(r)
  {
    m[k := Bucket(m, k) + [h]]
  }

  /** The position of the first `h` in `s`. */
  function IndexOf(s: seq<Handler>, h: Handler): (i: nat)
    requires h in s
    ensures i < |s| && s[i] == h && h !in s[..i]
  {
    if s[0] == h then 0 else 1 + IndexOf(s[1..], h)
  }

  /** `List.Remove(h)`: the first element equal to `h` is taken out, if any. */
  function RemoveFirst(s: seq<Handler>, h: Handler): (r: seq<Handler>)
    ensures h !in s ==> r == s
  {
    if s == [] then []
    else if s[0] == h then s[1..] else [s[0]] + RemoveFirst(s[1..], h)
  }

  /** The removal takes out exactly one occurrence of `h`, or nothing when there is none. */
  lemma {:induction false} RemoveFirstMultiset(s: seq<Handler>, h: Handler)
    ensures multiset(RemoveFirst(s, h)) == multiset(s) - multiset{h}
  {
    if s != [] {
      assert s == [s[0]] + s[1..];
      if s[0] != h {
        RemoveFirstMultiset(s[1..], h);
      }
    }
  }

  /** Only the element at the first position holding `h` is removed. */
  lemma {:induction false} RemoveFirstSplit(s: seq<Handler>, h: Handler)
    requires h in s
    ensures RemoveFirst(s, h) == s[..IndexOf(s, h)] + s[IndexOf(s, h) + 1..]
  {
    if s[0] != h {
      RemoveFirstSplit(s[1..], h);
      var i := IndexOf(s[1..], h);
      assert s[..i + 1] == [s[0]] + s[1..][..i];
      assert s[i + 2..] == s[1..][i + 1..];
    }
  }

  /** The keyboard collection's removal: the bucket stays even when it empties. */
  function RemoveKept<K(!new)>(m: Table<K>, k: K, h: Handler): (r: Table<K>)
    ensures r.Keys == m.Keys
    ensures Bucket(r, k) == RemoveFirst(Bucket(m, k), h)
    ensures forall j :: j != k ==> Bucket(r, j) == Bucket(m, j)
  {
    if k in m then m[k := RemoveFirst(m[k], h)] else m
  }

  /**
   * The mouse collection's removal: nothing changes unless `h` is bound to `k`;
   * a bucket that the removal empties is deleted from the dictionary.
   */
  function RemovePruned<K(!new)>(m: Table<K>, k: K, h: Handler): (r: Table<K>)
    ensures Bucket(r, k) == RemoveFirst(Bucket(m, k), h)
    ensures forall j :: j != k ==> Bucket(r, j) == Bucket(m, j)
    ensures r.Keys <= m.Keys
    ensures NoEmpty(m) ==> NoEmpty(r)
  {
    if k in m && h in m[k] then
      var b := RemoveFirst(m[k], h);
      if b == [] then m - {k} else m[k := b]
    else m
  }

  /** The handlers a dispatch for `key` runs: the key's bucket, then the "any" bucket. */
  function Handlers<K(!new)>(m: Table<K>, key: K, any: K): seq<Handler> {
    Bucket(m, key) + Bucket(m, any)
  }

  /** Removing a handler that was appended last, and bound nowhere earlier, undoes the append. */
  lemma {:induction false} RemoveFirstAppend(s: seq<Handler>, h: Handler)
    requires h !in s
    ensures RemoveFirst(s + [h], h) == s
  {
    if s != [] {
      assert (s + [h])[1..] == s[1..] + [h];
      RemoveFirstAppend(s[1..], h);
      assert s == [s[0]] + s[1..];
    }
  }

  /** In the mouse collection, remove after append restores the table exactly. */
  lemma RemovePrunedAfterAppend<K(!new)>(m: Table<K>, k: K, h: Handler)
    requires NoEmpty(m) && h !in Bucket(m, k)
    ensures RemovePruned(Append(m, k, h), k, h) == m
  {
    RemoveFirstAppend(Bucket(m, k), h);
  }

  /** In the keyboard collection, remove after append leaves the (possibly empty) bucket behind. */
  lemma RemoveKeptAfterAppend<K(!new)>(m: Table<K>, k: K, h: Handler)
    requires h !in Bucket(m, k)
    ensures RemoveKept(Append(m, k, h), k, h) == m[k := Bucket(m, k)]
  {
    RemoveFirstAppend(Bucket(m, k), h);
  }

  /** A keyboard bucket can be left empty: the two removals differ as dictionaries. */
  lemma KeptBucketCanBeEmpty<K(!new)>(k: K, h: Handler)
    ensures RemoveKept(Append(map[], k, h), k, h) == map[k := []]
    ensures RemovePruned(Append(map[], k, h), k, h) == map[]
  {
    RemoveKeptAfterAppend(map[], k, h);
    RemovePrunedAfterAppend(map[], k, h);
  }

  /** Yet pruning is unobservable: both removals give every key the same handlers. */
  lemma PruningUnobservable<K(!new)>(m: Table<K>, k: K, h: Handler, key: K, any: K)
    ensures Handlers(RemovePruned(m, k, h), key, any) == Handlers(RemoveKept(m, k, h), key, any)
  {
  }
}
