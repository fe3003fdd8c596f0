/**
 The ordered in-memory map of the lockstore package: sorted keys with their values, and iterators
 that move over the keys by position.
 */
module MemStore {
  import opened Bytes

  datatype MemStore<V> = MemStore(keys: seq<Bytes>, vals: map<Bytes, V>)

  ghost predicate Valid<V>(s: MemStore<V>) {
    && (forall i, j :: 0 <= i < j < |s.keys| ==> Less(s.keys[i], s.keys[j]))
    && (forall k :: k in s.vals <==> k in s.keys)
  }

  function Empty<V>(): MemStore<V> {
    MemStore([], map[])
  }

  /** `Seek`: the position of the first key not before `key`. */
  function SeekPos(keys: seq<Bytes>, key: Bytes): (p: nat)
    ensures p <= |keys|
    ensures forall i :: 0 <= i < p ==> Less(keys[i], key)
    ensures p < |keys| ==> !Less(keys[p], key)
  {
    if keys != [] && Less(keys[0], key) then 1 + SeekPos(keys[1..], key) else 0
  }

  lemma SeekSplits<V>(s: MemStore<V>, key: Bytes)
    requires Valid(s)
    ensures var p := SeekPos(s.keys, key);
      && (forall i :: 0 <= i < |s.keys| ==> (Less(s.keys[i], key) <==> i < p))
      && (key in s.vals <==> p < |s.keys| && s.keys[p] == key)
  {
    Order();
  }

  /** Inserts or overwrites. */
  function Put<V>(s: MemStore<V>, key: Bytes, val: V): MemStore<V> {
    var p := SeekPos(s.keys, key);
    if key in s.vals then s.(vals := s.vals[key := val])
    else MemStore(s.keys[..p] + [key] + s.keys[p..], s.vals[key := val])
  }

  function Delete<V>(s: MemStore<V>, key: Bytes): MemStore<V> {
    var p := SeekPos(s.keys, key);
    if key in s.vals && p < |s.keys| then MemStore(s.keys[..p] + s.keys[p + 1..], s.vals - {key}) else s
  }

  lemma PutValid<V>(s: MemStore<V>, key: Bytes, val: V)
    requires Valid(s)
    ensures Valid(Put(s, key, val)) && Put(s, key, val).vals == s.vals[key := val]
  {
    Order();
    SeekSplits(s, key);
  }

  lemma DeleteValid<V>(s: MemStore<V>, key: Bytes)
    requires Valid(s)
    ensures Valid(Delete(s, key)) && Delete(s, key).vals == s.vals - {key}
  {
    SeekSplits(s, key);
    if key in s.vals {
      RemovedKeys(s.keys, SeekPos(s.keys, key));
    } else {
      assert s.vals - {key} == s.vals;
    }
  }

  /** Sorted keys without the one at `p`. */
  lemma RemovedKeys(keys: seq<Bytes>, p: nat)
    requires p < |keys| && forall i, j :: 0 <= i < j < |keys| ==> Less(keys[i], keys[j])
    ensures var rest := keys[..p] + keys[p + 1..];
      && (forall i, j :: 0 <= i < j < |rest| ==> Less(rest[i], rest[j]))
      && (forall k :: k in rest <==> k in keys && k != keys[p])
  {
    var rest := keys[..p] + keys[p + 1..];
    forall i | 0 <= i < |keys| && i != p ensures keys[i] != keys[p] && keys[i] in rest {
      LessIrreflexive(keys[p]);
      if i < p { assert rest[i] == keys[i]; } else { assert rest[i - 1] == keys[i]; }
    }
  }
}
