/**
 Raft log entries, and what a size-limited read of the log has to return.
 */
module RaftLog {

  /** `size` is the marshalled size; an entry marshals at least its index, so it is never zero. */
  datatype Entry = Entry(index: nat, term: nat, payload: nat, size: nat)

  function Size(entries: seq<Entry>): nat {
    if entries == [] then 0 else Size(entries[..|entries| - 1]) + entries[|entries| - 1].size
  }

  ghost predicate Positive(entries: seq<Entry>) {
    forall i :: 0 <= i < |entries| ==> entries[i].size > 0
  }

  /** `r` is the longest prefix of `full` of total size at most `maxSize`, but never empty. */
  ghost predicate IsLimited(full: seq<Entry>, maxSize: nat, r: seq<Entry>) {
    && |r| <= |full| && r == full[..|r|]
    && (full != [] ==> r != [])
    && (|r| > 1 ==> Size(r) <= maxSize)
    && (|r| < |full| ==> Size(full[..|r| + 1]) > maxSize)
  }

  lemma SizeSnoc(entries: seq<Entry>, e: Entry)
    ensures Size(entries + [e]) == Size(entries) + e.size
  {
    assert (entries + [e])[..|entries|] == entries;
  }

  lemma {:induction false} SizePrefix(entries: seq<Entry>, n: nat)
    requires n <= |entries|
    ensures Size(entries[..n]) <= Size(entries)
    ensures Positive(entries) && n < |entries| ==> Size(entries[..n]) < Size(entries)
  {
    if n < |entries| {
      SizePrefix(entries[..|entries| - 1], n);
      assert entries[..|entries| - 1][..n] == entries[..n];
    } else {
      assert entries[..n] == entries;
    }
  }

  lemma LimitedNotLonger(full: seq<Entry>, maxSize: nat, r1: seq<Entry>, r2: seq<Entry>)
    requires IsLimited(full, maxSize, r1) && IsLimited(full, maxSize, r2)
    ensures |r2| <= |r1|
  {
    assert |r1| < |r2| ==> r2[..|r1| + 1] == full[..|r1| + 1];
    SizePrefix(r2, if |r1| < |r2| then |r1| + 1 else |r2|);
  }

  /** The description leaves no choice. */
  lemma LimitedUnique(full: seq<Entry>, maxSize: nat, r1: seq<Entry>, r2: seq<Entry>)
    requires IsLimited(full, maxSize, r1) && IsLimited(full, maxSize, r2)
    ensures r1 == r2
  {
    LimitedNotLonger(full, maxSize, r1, r2);
    LimitedNotLonger(full, maxSize, r2, r1);
  }

  /** Once the limit is exceeded, what follows does not matter. */
  lemma LimitedExtends(full: seq<Entry>, maxSize: nat, r: seq<Entry>, rest: seq<Entry>)
    requires full != [] && IsLimited(full, maxSize, r) && Size(full) > maxSize
    ensures IsLimited(full + rest, maxSize, r)
  {
    if |r| < |full| {
      assert (full + rest)[..|r| + 1] == full[..|r| + 1];
    } else if rest != [] {
      assert (full + rest)[..|r| + 1] == full + [rest[0]];
      SizeSnoc(full, rest[0]);
    }
  }

  /** What fits is returned whole. */
  lemma LimitedWhole(full: seq<Entry>, maxSize: nat, r: seq<Entry>)
    requires IsLimited(full, maxSize, r) && Size(full) <= maxSize
    ensures r == full
  {
    SizePrefix(full, if |r| < |full| then |r| + 1 else |full|);
    assert full[..|full|] == full;
  }
}
