/**
 * Python's insertion-ordered `dict`, the container behind an xCDN Object: a
 * sequence of (key, value) entries whose keys are distinct and stand in the
 * order in which each key was first inserted. Overwriting a key replaces its
 * value where it stands; a new key goes to the end.
 */
module OrderedDict {
  import opened Optional

  datatype Dict<K, V> = Dict(entries: seq<(K, V)>)

  /** The dictionary invariant: no key occurs twice. */
  ghost predicate Valid<K, V>(d: Dict<K, V>)
  {
    forall i, j :: 0 <= i < j < |d.entries| ==> d.entries[i].0 != d.entries[j].0
  }

  /** The empty dictionary, `{}`. */
  function Empty<K, V>(): (d: Dict<K, V>)
    ensures Valid(d) && Len(d) == 0
  {
    Dict([])
  }

  /** The position of the first entry whose key is `k`, if there is one. */
  function Find<K(==), V>(entries: seq<(K, V)>, k: K): (r: Option<nat>)
    ensures r.Some? ==> r.value < |entries| && entries[r.value].0 == k
    ensures r.Some? ==> forall j :: 0 <= j < r.value ==> entries[j].0 != k
    ensures r.None? ==> forall j :: 0 <= j < |entries| ==> entries[j].0 != k
  {
    if entries == [] then None
    else if entries[0].0 == k then Some(0)
    else
      match Find(entries[1..], k)
      case Some(j) => Some(j + 1)
      case None => None
  }

  /** The keys of a dictionary, as a set. */
  ghost function KeySet<K, V>(d: Dict<K, V>): set<K>
  {
    set i | 0 <= i < |d.entries| :: d.entries[i].0
  }

  /** `len(d)`; `LenCountsKeys` shows it is the number of distinct keys. */
  function Len<K, V>(d: Dict<K, V>): nat
  {
    |d.entries|
  }

  /** `d.keys()`, in insertion order. */
  function Keys<K, V>(d: Dict<K, V>): (ks: seq<K>)
    ensures |ks| == Len(d)
  {
    seq(|d.entries|, i requires 0 <= i < |d.entries| => d.entries[i].0)
  }

  /** The dictionary invariant holds exactly when `d.keys()` lists no key twice. */
  lemma KeysDistinct<K, V>(d: Dict<K, V>)
    ensures Valid(d) <==> forall i, j :: 0 <= i < j < |Keys(d)| ==> Keys(d)[i] != Keys(d)[j]
  {
    assert forall i :: 0 <= i < |Keys(d)| ==> Keys(d)[i] == d.entries[i].0;
  }

  /** `d.values()`: in a valid dictionary, the i-th key of `d.keys()` subscripts to the i-th value. */
  function Values<K(==), V>(d: Dict<K, V>): (vs: seq<V>)
    ensures |vs| == Len(d)
    ensures Valid(d) ==> forall i :: 0 <= i < |vs| ==> Get(d, Keys(d)[i]) == Some(vs[i])
  {
    seq(|d.entries|, i requires 0 <= i < |d.entries| => d.entries[i].1)
  }

  /** `d.items()`: the keys of `d.keys()` paired with the values of `d.values()`, position by position. */
  function Items<K(==), V>(d: Dict<K, V>): (kvs: seq<(K, V)>)
    ensures |kvs| == Len(d)
    ensures forall i :: 0 <= i < |kvs| ==> kvs[i] == (Keys(d)[i], Values(d)[i])
  {
    d.entries
  }

  /** `k in d`: membership in the key set. */
  predicate Contains<K(==), V>(d: Dict<K, V>, k: K)
    ensures Contains(d, k) <==> k in Keys(d)
  {
    var r := Find(d.entries, k);
    assert r.Some? ==> Keys(d)[r.value] == k;
    r.Some?
  }

  /** `d[k]`; None stands for the KeyError. */
  function Get<K(==), V>(d: Dict<K, V>, k: K): (r: Option<V>)
    ensures r.Some? <==> Contains(d, k)
    ensures r.Some? ==> (k, r.value) in d.entries
  {
    match Find(d.entries, k)
    case Some(j) => Some(d.entries[j].1)
    case None => None
  }

  /**
   * `d[k] = v`: a new key is appended to the key order; an existing key keeps
   * its position and only its value changes.
   */
  function Set<K(==, !new), V>(d: Dict<K, V>, k: K, v: V): (r: Dict<K, V>)
    ensures Valid(d) ==> Valid(r)
    ensures Get(r, k) == Some(v)
    ensures forall k' :: k' != k ==> Get(r, k') == Get(d, k')
    ensures Keys(r) == if Contains(d, k) then Keys(d) else Keys(d) + [k]
  {
    match Find(d.entries, k)
    case Some(j) =>
      var r := Dict(d.entries[j := (k, v)]);
      assert Keys(r) == Keys(d);
      FindDependsOnKeysOnly(d.entries, r.entries);
      r
    case None =>
      var r := Dict(d.entries + [(k, v)]);
      assert Keys(r) == Keys(d) + [k];
      FindAfterAppend(d.entries, (k, v));
      r
  }

  /** Each entry after `d[k] = v` is the new entry or the entry that stood in its place before. */
  lemma SetEntries<K(!new), V>(d: Dict<K, V>, k: K, v: V)
    ensures var r := Set(d, k, v);
            forall i :: 0 <= i < |r.entries| ==> r.entries[i] == (k, v) || (i < |d.entries| && r.entries[i] == d.entries[i])
  {
  }

  /** Assigning into `{}` gives a dict with exactly that one entry. */
  lemma SetIntoEmpty<K(!new), V>(k: K, v: V)
    ensures Set(Empty(), k, v) == Dict([(k, v)])
  {
    assert Find<K, V>([], k) == None;
    assert Empty<K, V>().entries + [(k, v)] == [(k, v)];
  }

  /** Where a key is found depends only on the sequence of keys, not on the values. */
  lemma FindDependsOnKeysOnly<K, V>(a: seq<(K, V)>, b: seq<(K, V)>)
    requires |a| == |b|
    requires forall i :: 0 <= i < |a| ==> a[i].0 == b[i].0
    ensures forall k :: Find(a, k) == Find(b, k)
  {
  }

  /** Appending an entry leaves every earlier first occurrence where it was. */
  lemma {:induction false} FindAfterAppend<K, V>(a: seq<(K, V)>, e: (K, V))
    ensures forall k ::
              Find(a + [e], k) == if Find(a, k).Some? then Find(a, k) else if e.0 == k then Some(|a|) else None
  {
    if a != [] {
      assert (a + [e])[1..] == a[1..] + [e];
      FindAfterAppend(a[1..], e);
    }
  }

  /** `len(d)` of a dictionary without repeated keys is the number of distinct keys. */
  lemma {:induction false} LenCountsKeys<K, V>(d: Dict<K, V>)
    ensures Valid(d) ==> |KeySet(d)| == Len(d)
    decreases |d.entries|
  {
    if Valid(d) && d.entries != [] {
      var rest := Dict(d.entries[1..]);
      LenCountsKeys(rest);
      assert KeySet(d) == {d.entries[0].0} + KeySet(rest) by {
        forall k | k in KeySet(d) ensures k in {d.entries[0].0} + KeySet(rest) {
          var i :| 0 <= i < |d.entries| && d.entries[i].0 == k;
          if i > 0 { assert rest.entries[i - 1].0 == k; }
        }
      }
      assert d.entries[0].0 !in KeySet(rest);
    }
  }

  /** The dictionary that the assignments `d[k] = v` of `writes`, in order, build from `{}`. */
  function Build<K(==, !new), V>(writes: seq<(K, V)>): (d: Dict<K, V>)
    ensures Valid(d)
  {
    if writes == [] then Empty()
    else
      var last := writes[|writes| - 1];
      Set(Build(writes[..|writes| - 1]), last.0, last.1)
  }

  /** When `k` was first written, or `|writes|` if it never was. */
  ghost function FirstWrite<K, V>(writes: seq<(K, V)>, k: K): nat
  {
    match Find(writes, k)
    case Some(j) => j
    case None => |writes|
  }

  /** The built dictionary holds exactly the keys that were written. */
  lemma {:induction false} BuildKeys<K(!new), V>(writes: seq<(K, V)>)
    ensures forall k :: Contains(Build(writes), k) <==> Find(writes, k).Some?
  {
    if writes != [] {
      var prefix, last := writes[..|writes| - 1], writes[|writes| - 1];
      assert writes == prefix + [last];
      BuildKeys(prefix);
      FindAfterAppend(prefix, last);
    }
  }

  /**
   * Insertion order: one key of the built dictionary precedes another exactly
   * when it was first written earlier. Later writes to a key never move it.
   */
  lemma {:induction false} InsertionOrder<K(!new), V>(writes: seq<(K, V)>)
    ensures forall i, j :: 0 <= i < j < Len(Build(writes)) ==>
              FirstWrite(writes, Keys(Build(writes))[i]) < FirstWrite(writes, Keys(Build(writes))[j])
  {
    if writes != [] {
      var prefix, last := writes[..|writes| - 1], writes[|writes| - 1];
      assert writes == prefix + [last];
      InsertionOrder(prefix);
      BuildKeys(prefix);
      FindAfterAppend(prefix, last);
      var before, after := Build(prefix), Build(writes);
      assert after == Set(before, last.0, last.1);
      forall k | Contains(before, k) ensures FirstWrite(writes, k) == FirstWrite(prefix, k) < |prefix| {
      }
      forall i, j | 0 <= i < j < Len(after)
        ensures FirstWrite(writes, Keys(after)[i]) < FirstWrite(writes, Keys(after)[j])
      {
        assert Contains(before, Keys(after)[i]);
        if j < Len(before) {
          assert Contains(before, Keys(after)[j]);
        } else {
          assert Keys(after)[j] == last.0 && !Contains(before, last.0);
        }
      }
    }
  }

  /** The value stored under a key is the one its last write stored. */
  lemma {:induction false} LastWriteWins<K(!new), V>(writes: seq<(K, V)>, i: nat)
    requires i < |writes|
    requires forall j :: i < j < |writes| ==> writes[j].0 != writes[i].0
    ensures Get(Build(writes), writes[i].0) == Some(writes[i].1)
  {
    if i < |writes| - 1 {
      LastWriteWins(writes[..|writes| - 1], i);
    }
  }

  /** Writes of distinct keys build exactly those entries, in call order. */
  lemma {:induction false} DistinctWritesKeepCallOrder<K(!new), V>(writes: seq<(K, V)>)
    requires Valid(Dict(writes))
    ensures Build(writes) == Dict(writes)
  {
    if writes != [] {
      var prefix, last := writes[..|writes| - 1], writes[|writes| - 1];
      DistinctWritesKeepCallOrder(prefix);
      assert !Contains(Dict(prefix), last.0);
      assert Build(writes).entries == prefix + [last];
    }
  }
}
