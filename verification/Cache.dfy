/**
 The bounded cache of the newest raft log entries (`EntryCache` in raftstore/peer_storage.go).
 */
module Cache {
  import opened RaftLog

  const MAX_CACHE_CAPACITY := 1023

  ghost predicate Contiguous(entries: seq<Entry>) {
    forall i :: 0 <= i < |entries| ==> entries[i].index == entries[0].index + i
  }

  /** The newest entries that fit the capacity. */
  function Newest(entries: seq<Entry>): (r: seq<Entry>)
    ensures |r| <= MAX_CACHE_CAPACITY && |r| <= |entries| && r == entries[|entries| - |r|..]
    ensures |entries| <= MAX_CACHE_CAPACITY ==> r == entries
  {
    if |entries| > MAX_CACHE_CAPACITY then entries[|entries| - MAX_CACHE_CAPACITY..] else entries
  }

  /** The cached entries that an append starting at `first` keeps. */
  function Kept(cache: seq<Entry>, first: nat): seq<Entry> {
    if cache != [] && cache[0].index < first <= cache[0].index + |cache| then cache[..first - cache[0].index]
    else []
  }

  class EntryCache {
    var cache: seq<Entry>

    constructor ()
      ensures cache == []
    {
      cache := [];
    }

    /** Fails (the source panics) exactly when the new entries leave a hole behind the cache. */
    method Append(entries: seq<Entry>) returns (ok: bool)
      requires Contiguous(cache) && Contiguous(entries)
      modifies this
      ensures ok <==> entries == [] || old(cache) == [] || entries[0].index <= old(cache)[0].index + |old(cache)|
      ensures ok ==> cache == if entries == [] then old(cache) else Newest(Kept(old(cache), entries[0].index) + entries)
      ensures !ok ==> cache == old(cache)
    {
      if |entries| == 0 {
        return true;
      }
      var kept, firstIndex := cache, entries[0].index;
      if |cache| > 0 {
        var cacheLastIndex := cache[|cache| - 1].index;
        if cacheLastIndex >= firstIndex {
          if cache[0].index >= firstIndex {
            kept := [];
          } else {
            var left := |cache| - (cacheLastIndex - firstIndex + 1);
            kept := cache[..left];
          }
        } else if cacheLastIndex + 1 < firstIndex {
          return false;
        }
      }
      assert kept == Kept(cache, firstIndex);
      kept := kept + entries;
      if |kept| > MAX_CACHE_CAPACITY {
        var extraSize := |kept| - MAX_CACHE_CAPACITY;
        kept := kept[extraSize..];
      }
      cache := kept;
      ok := true;
    }

    method CompactTo(idx: nat)
      requires Contiguous(cache)
      modifies this
      ensures cache == CompactedCache(old(cache), idx)
    {
      if |cache| == 0 {
        return;
      }
      var firstIdx := cache[0].index;
      if firstIdx > idx {
        return;
      }
      var pos := if idx - firstIdx < |cache| then idx - firstIdx else |cache|;
      cache := cache[pos..];
    }

    /** Continues a read that already holds `ents` with the cached entries of [begin, end). */
    method FetchEntriesTo(begin: nat, end: nat, maxSize: nat, fetchSize: nat, ents: seq<Entry>) returns (r: seq<Entry>)
      requires Contiguous(cache) && Positive(cache) && cache != []
      requires cache[0].index <= begin < end <= cache[0].index + |cache|
      requires fetchSize == Size(ents) && Positive(ents) && (ents != [] ==> fetchSize <= maxSize)
      ensures IsLimited(ents + cache[begin - cache[0].index..end - cache[0].index], maxSize, r)
    {
      r := ContinueWith(cache[begin - cache[0].index..end - cache[0].index], maxSize, fetchSize, ents);
    }
  }

  /** A cache read that has taken the first entries of `full` so far. */
  ghost predicate Continuing(full: seq<Entry>, maxSize: nat, r: seq<Entry>, size: nat) {
    && Positive(full) && |r| <= |full| && r == full[..|r|] && size == Size(r)
    && (|r| > 1 ==> size <= maxSize)
  }

  lemma ContinueStep(full: seq<Entry>, maxSize: nat, r: seq<Entry>, size: nat)
    requires Continuing(full, maxSize, r, size) && |r| < |full|
    ensures var e := full[|r|]; var size' := size + e.size;
      && (size' == e.size <==> r == [])
      && (r != [] && size' > maxSize ==> IsLimited(full, maxSize, r))
      && (r == [] || size' <= maxSize ==> Continuing(full, maxSize, r + [e], size'))
  {
    assert full[..|r| + 1] == r + [full[|r|]];
    SizeSnoc(r, full[|r|]);
    PositiveSize(r);
  }

  /** The loop of the cache read. */
  method ContinueWith(entries: seq<Entry>, maxSize: nat, fetchSize: nat, ents: seq<Entry>) returns (r: seq<Entry>)
    requires Positive(entries) && Positive(ents)
    requires fetchSize == Size(ents) && (ents != [] ==> fetchSize <= maxSize)
    requires ents + entries != []
    ensures IsLimited(ents + entries, maxSize, r)
  {
    ghost var full := ents + entries;
    assert full[..|ents|] == ents;
    r := ents;
    var size: nat, i := fetchSize, 0;
    while i < |entries|
      invariant 0 <= i <= |entries| && |r| == |ents| + i && Continuing(full, maxSize, r, size)
    {
      ContinueStep(full, maxSize, r, size);
      assert full[|r|] == entries[i];
      size := size + entries[i].size;
      if size != entries[i].size && size > maxSize {
        return;
      }
      r := r + [entries[i]];
      i := i + 1;
    }
    assert full[..|r|] == full;
  }

  /** The cached entries from `idx` on. */
  function CompactedCache(cache: seq<Entry>, idx: nat): seq<Entry> {
    if cache == [] || cache[0].index > idx then cache
    else if idx - cache[0].index < |cache| then cache[idx - cache[0].index..]
    else []
  }

  lemma PositiveSize(entries: seq<Entry>)
    requires Positive(entries)
    ensures Size(entries) == 0 <==> entries == []
  {
    if entries != [] { SizePrefix(entries, 0); }
  }
}
