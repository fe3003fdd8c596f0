/**
 The two split checkers of raftstore/worker.go: they watch a scan over the pairs of a region and
 propose the keys at which to split it.
 */
module SplitCheck {
  import opened Bytes

  // The keys checker

  /** The largest number of splits, up to the limit, that still leaves max - split keys for the last part. */
  ghost predicate IsKeySplitCount(n: nat, splitKeys: nat, maxKeys: nat, limit: nat, count: nat) {
    && count <= limit
    && (count > 0 ==> count * splitKeys + maxKeys <= n + splitKeys)
    && (count < limit ==> n + splitKeys < (count + 1) * splitKeys + maxKeys)
  }

  /** There is something to split exactly when the region holds the maximum, and no other count fits. */
  lemma KeySplitCountMeaning(n: nat, s: nat, max: nat, limit: nat, count: nat)
    requires s < max && limit >= 1 && IsKeySplitCount(n, s, max, limit, count)
    ensures count > 0 <==> n >= max
    ensures forall other: nat :: IsKeySplitCount(n, s, max, limit, other) ==> other == count
  {
    if count > 0 { assert s <= count * s; }
    forall other: nat | IsKeySplitCount(n, s, max, limit, other) ensures other == count {
      if other < count { MulMonotone(other + 1, count, s); }
      if count < other { MulMonotone(count + 1, other, s); }
    }
  }

  lemma {:induction false} MulMonotone(a: nat, b: nat, s: nat)
    requires a <= b
    ensures a * s <= b * s
  {
    if a < b { MulMonotone(a, b - 1, s); }
  }

  /** How many of `n` keys are noted as split keys. */
  ghost function Noted(n: nat, s: nat, limit: nat): nat
    decreases limit
  {
    if limit == 0 || n <= s then 0 else 1 + Noted(n - s, s, limit - 1)
  }

  /** How many are proposed: the last one is dropped if what it leaves behind it is too small. */
  ghost function Proposed(n: nat, s: nat, max: nat, limit: nat): nat {
    var k := Noted(n, s, limit);
    if k > 0 && n - k * s + s < max then k - 1 else k
  }

  lemma {:induction false} NotedIs(n: nat, s: nat, limit: nat, k: nat, rest: nat)
    requires s > 0 && k * s + rest == n && k <= limit && (k > 0 ==> rest >= 1) && (k < limit ==> rest <= s)
    ensures Noted(n, s, limit) == k
    decreases k
  {
    if k > 0 {
      assert k * s == (k - 1) * s + s;
      assert (k - 1) * s >= 0;
      NotedIs(n - s, s, limit - 1, k - 1, rest);
    }
  }

  /** The configurations in which the maximum decides whether to split. */
  predicate MaxDecides(s: nat, max: nat, limit: nat) {
    limit >= 1 && s < max && (limit == 1 || max <= 2 * s + 1)
  }

  /** Something is proposed exactly from the maximum on, whatever the number of keys, in exactly these
      configurations. */
  lemma MaxDecidesExactly(s: nat, max: nat, limit: nat)
    requires s > 0
    ensures MaxDecides(s, max, limit) <==> forall n: nat :: Proposed(n, s, max, limit) > 0 <==> n >= max
  {
    if MaxDecides(s, max, limit) {
      forall n: nat ensures Proposed(n, s, max, limit) > 0 <==> n >= max { ProposedAtMax(n, s, max, limit); }
    } else if limit == 0 || max <= s {
      assert Noted(max, s, limit) == 0;
      assert !(Proposed(max, s, max, limit) > 0);
    } else {
      assert Noted(s + 1, s, limit - 1) >= 1;
      assert Noted(2 * s + 1, s, limit) >= 2;
      assert Proposed(2 * s + 1, s, max, limit) > 0;
    }
  }

  lemma ProposedAtMax(n: nat, s: nat, max: nat, limit: nat)
    requires s > 0 && MaxDecides(s, max, limit)
    ensures Proposed(n, s, max, limit) > 0 <==> n >= max
  {
    var k := Noted(n, s, limit);
    if n > s {
      assert k == 1 + Noted(n - s, s, limit - 1);
      assert Noted(n - s, s, limit - 1) == 0 <==> limit == 1 || n - s <= s;
      if k == 1 { assert k * s == s; }
    }
  }

  /** With a split number of one and a maximum of four, three keys already give a proposal. */
  lemma SplitBelowMax()
    ensures !MaxDecides(1, 4, 10) && Proposed(3, 1, 4, 10) == 1
  {
    assert Noted(1, 1, 8) == 0;
    assert Noted(2, 1, 9) == 1;
    assert Noted(3, 1, 10) == 2;
  }

  /** The state after `n` keys without a stop. */
  ghost predicate KeysScanned(keys: seq<Bytes>, n: nat, s: nat, limit: nat, curCnt: nat, found: seq<Bytes>) {
    && n <= |keys| && |found| <= limit
    && (if s == 0 then found <= keys && |found| <= n && (|found| < limit ==> |found| == n)
        else PartsScanned(keys, n, s, limit, curCnt, found))
  }

  /** Parts of `s` keys each, and the open one. */
  ghost predicate PartsScanned(keys: seq<Bytes>, n: nat, s: nat, limit: nat, curCnt: nat, found: seq<Bytes>) {
    && |found| * s + curCnt == n
    && (forall i :: 0 <= i < |found| ==> KeyAt(keys, (i + 1) * s, found[i]))
    && (|found| > 0 ==> curCnt >= 1)
    && (|found| < limit ==> curCnt <= s)
  }

  predicate KeyAt(keys: seq<Bytes>, at: int, key: Bytes) {
    0 <= at < |keys| && keys[at] == key
  }

  /** One more key, which becomes a split key. */
  lemma KeysPush(keys: seq<Bytes>, n: nat, s: nat, limit: nat, curCnt: nat, found: seq<Bytes>)
    requires KeysScanned(keys, n, s, limit, curCnt, found) && n < |keys| && curCnt + 1 > s && |found| < limit
    ensures KeysScanned(keys, n + 1, s, limit, 1, found + [keys[n]])
  {
    if s > 0 {
      var k := |found|;
      assert curCnt == s && (k + 1) * s == k * s + s == n;
      KeysAtSnoc(keys, n, s, found);
    }
  }

  lemma KeysAtSnoc(keys: seq<Bytes>, n: nat, s: nat, found: seq<Bytes>)
    requires n < |keys| && (|found| + 1) * s == n
    requires forall i :: 0 <= i < |found| ==> KeyAt(keys, (i + 1) * s, found[i])
    ensures forall i :: 0 <= i < |found + [keys[n]]| ==> KeyAt(keys, (i + 1) * s, (found + [keys[n]])[i])
  {
    var found' := found + [keys[n]];
    forall i | 0 <= i < |found'| ensures KeyAt(keys, (i + 1) * s, found'[i]) {
      if i < |found| {
        assert KeyAt(keys, (i + 1) * s, found[i]);
      } else {
        assert i == |found|;
      }
    }
  }

  class KeysSplitChecker {
    const regionMaxKeys: nat
    const regionSplitKeys: nat
    const batchSplitLimit: nat
    var curCnt: nat
    var splitKeys: seq<Bytes>

    constructor (regionMaxKeys: nat, regionSplitKeys: nat, batchSplitLimit: nat)
      ensures this.regionMaxKeys == regionMaxKeys && this.regionSplitKeys == regionSplitKeys
      ensures this.batchSplitLimit == batchSplitLimit && curCnt == 0 && splitKeys == []
    {
      this.regionMaxKeys, this.regionSplitKeys, this.batchSplitLimit := regionMaxKeys, regionSplitKeys, batchSplitLimit;
      curCnt, splitKeys := 0, [];
    }

    /** One more key; true stops the scan. */
    method OnKv(key: Bytes, ghost keys: seq<Bytes>, ghost n: nat) returns (stop: bool)
      requires n < |keys| && keys[n] == key
      requires KeysScanned(keys, n, regionSplitKeys, batchSplitLimit, curCnt, splitKeys)
      modifies this
      ensures KeysScanned(keys, n + 1, regionSplitKeys, batchSplitLimit, curCnt, splitKeys)
      ensures stop <==> |splitKeys| == batchSplitLimit && curCnt + regionSplitKeys >= regionMaxKeys
    {
      ghost var before := curCnt;
      curCnt := curCnt + 1;
      var overLimit := |splitKeys| >= batchSplitLimit;
      if curCnt > regionSplitKeys && !overLimit {
        KeysPush(keys, n, regionSplitKeys, batchSplitLimit, before, splitKeys);
        splitKeys := splitKeys + [key];
        curCnt := 1;
        overLimit := |splitKeys| >= batchSplitLimit;
      }
      stop := overLimit && curCnt + regionSplitKeys >= regionMaxKeys;
    }

    method GetSplitKeys() returns (keys: seq<Bytes>)
      modifies this
      ensures keys == if curCnt + regionSplitKeys < regionMaxKeys && |old(splitKeys)| > 0
        then old(splitKeys)[..|old(splitKeys)| - 1] else old(splitKeys)
      ensures splitKeys == [] && curCnt == old(curCnt)
    {
      if curCnt + regionSplitKeys < regionMaxKeys && |splitKeys| > 0 {
        splitKeys := splitKeys[..|splitKeys| - 1];
      }
      keys := splitKeys;
      splitKeys := [];
    }
  }

  /** The scan, up to the end or to where the checker stops it. */
  method ScanKeys(checker: KeysSplitChecker, keys: seq<Bytes>) returns (ghost n: nat)
    requires checker.curCnt == 0 && checker.splitKeys == []
    modifies checker
    ensures KeysScanned(keys, n, checker.regionSplitKeys, checker.batchSplitLimit, checker.curCnt, checker.splitKeys)
    ensures n == |keys| || (|checker.splitKeys| == checker.batchSplitLimit &&
      checker.curCnt + checker.regionSplitKeys >= checker.regionMaxKeys)
  {
    var i := 0;
    var stop := false;
    while i < |keys| && !stop
      invariant 0 <= i <= |keys|
      invariant KeysScanned(keys, i, checker.regionSplitKeys, checker.batchSplitLimit,
        checker.curCnt, checker.splitKeys)
      invariant stop ==> |checker.splitKeys| == checker.batchSplitLimit
      invariant stop ==> checker.curCnt + checker.regionSplitKeys >= checker.regionMaxKeys
    {
      stop := checker.OnKv(keys[i], keys, i);
      i := i + 1;
    }
    n := i;
  }

  /**
   The keys checker alone over the keys of a region. Every part but the last holds exactly
   `splitSize` keys (or each split key follows the one before it, for a split number of zero). Where the maximum
   decides, the number of parts is the largest that leaves enough for the last.
   */
  method CheckKeys(maxKeys: nat, splitSize: nat, limit: nat, keys: seq<Bytes>) returns (found: seq<Bytes>)
    ensures splitSize > 0 ==> forall i :: 0 <= i < |found| ==> KeyAt(keys, (i + 1) * splitSize, found[i])
    ensures splitSize == 0 ==> found <= keys && |found| <= limit
    ensures splitSize > 0 ==> |found| == Proposed(|keys|, splitSize, maxKeys, limit)
    ensures splitSize > 0 && MaxDecides(splitSize, maxKeys, limit) ==>
      IsKeySplitCount(|keys|, splitSize, maxKeys, limit, |found|)
  {
    var checker := new KeysSplitChecker(maxKeys, splitSize, limit);
    ghost var n := ScanKeys(checker, keys);
    if splitSize > 0 { KeysResult(keys, n, splitSize, maxKeys, limit, checker.curCnt, checker.splitKeys); }
    found := checker.GetSplitKeys();
  }

  lemma KeysResult(keys: seq<Bytes>, n: nat, s: nat, max: nat, limit: nat, curCnt: nat, found: seq<Bytes>)
    requires s > 0 && KeysScanned(keys, n, s, limit, curCnt, found)
    requires n == |keys| || (|found| == limit && curCnt + s >= max)
    ensures var count := if curCnt + s < max && |found| > 0 then |found| - 1 else |found|;
      && count == Proposed(|keys|, s, max, limit)
      && (MaxDecides(s, max, limit) ==> IsKeySplitCount(|keys|, s, max, limit, count))
  {
    var k := |found|;
    NotedIs(|keys|, s, limit, k, curCnt + (|keys| - n));
    assert (k + 1) * s == k * s + s;
    if k > 0 { assert (k - 1) * s + s == k * s; }
  }

  // The size checker

  ghost function Sum(sizes: seq<nat>, a: nat, b: nat): nat
    requires a <= b <= |sizes|
    decreases b
  {
    if a == b then 0 else Sum(sizes, a, b - 1) + sizes[b - 1]
  }

  lemma {:induction false} SumJoin(sizes: seq<nat>, a: nat, b: nat, c: nat)
    requires a <= b <= c <= |sizes|
    ensures Sum(sizes, a, b) + Sum(sizes, b, c) == Sum(sizes, a, c)
    decreases c
  {
    if b < c { SumJoin(sizes, a, b, c - 1); }
  }

  /** Where the part that ends at the `i`-th split starts. */
  function StartOf(at: seq<nat>, i: nat): nat
    requires i <= |at|
  {
    if i == 0 then 0 else at[i - 1]
  }

  /** A part no larger than the split size plus its first pair, that one more pair would take past the split size. */
  ghost predicate GoodPart(sizes: seq<nat>, a: nat, b: nat, split: nat) {
    && a <= b < |sizes|
    && Sum(sizes, a, b) <= split + sizes[a]
    && Sum(sizes, a, b) + sizes[b] > split
  }

  ghost predicate GoodParts(sizes: seq<nat>, at: seq<nat>, split: nat) {
    && (forall i {:trigger StartOf(at, i)} :: 0 < i < |at| ==> StartOf(at, i) < at[i])
    && (forall i {:trigger StartOf(at, i)} :: 0 <= i < |at| ==> GoodPart(sizes, StartOf(at, i), at[i], split))
  }

  /** What the checker has counted of the open part, which starts at `a`: all of it, or all but its first pair. */
  ghost predicate Counts(sizes: seq<nat>, a: nat, n: nat, cur: nat) {
    a <= n <= |sizes| && (cur == Sum(sizes, a, n) || (a < n && cur == Sum(sizes, a + 1, n)))
  }

  ghost predicate SizeScanned(sizes: seq<nat>, n: nat, split: nat, limit: nat, cur: nat, at: seq<nat>) {
    && |at| <= limit && GoodParts(sizes, at, split)
    && (|at| > 0 ==> at[|at| - 1] < n)
    && Counts(sizes, StartOf(at, |at|), n, cur)
    && (|at| < limit ==> cur <= split || n == StartOf(at, |at|) + 1)
  }

  lemma CountsOneMore(sizes: seq<nat>, a: nat, n: nat, cur: nat)
    requires Counts(sizes, a, n, cur) && n < |sizes|
    ensures Counts(sizes, a, n + 1, cur + sizes[n])
  {
  }

  /** Closing the open part at pair `n`. */
  lemma ClosesWell(sizes: seq<nat>, a: nat, n: nat, split: nat, cur: nat)
    requires Counts(sizes, a, n, cur) && n < |sizes| && cur + sizes[n] > split
    requires cur <= split || n == a + 1
    ensures GoodPart(sizes, a, n, split)
  {
    if a < n { SumJoin(sizes, a, a + 1, n); }
  }

  lemma GoodPartsSnoc(sizes: seq<nat>, at: seq<nat>, n: nat, split: nat)
    requires GoodParts(sizes, at, split) && GoodPart(sizes, StartOf(at, |at|), n, split)
    requires |at| > 0 ==> at[|at| - 1] < n
    ensures GoodParts(sizes, at + [n], split)
  {
    var at' := at + [n];
    forall i | 0 <= i < |at'| ensures GoodPart(sizes, StartOf(at', i), at'[i], split) {
      assert StartOf(at', i) == StartOf(at, i);
    }
    forall i | 0 < i < |at'| ensures StartOf(at', i) < at'[i] {
      assert StartOf(at', i) == StartOf(at, i);
    }
  }

  lemma ClosedScan(sizes: seq<nat>, n: nat, split: nat, limit: nat, cur: nat, at: seq<nat>)
    requires SizeScanned(sizes, n, split, limit, cur, at) && n < |sizes| && |at| < limit && cur + sizes[n] > split
    ensures SizeScanned(sizes, n + 1, split, limit, if cur == split then sizes[n] else 0, at + [n])
  {
    ClosesWell(sizes, StartOf(at, |at|), n, split, cur);
    GoodPartsSnoc(sizes, at, n, split);
    assert StartOf(at + [n], |at| + 1) == n;
    SumOne(sizes, n);
  }

  lemma SumOne(sizes: seq<nat>, n: nat)
    requires n < |sizes|
    ensures Sum(sizes, n, n + 1) == sizes[n] && Sum(sizes, n + 1, n + 1) == 0
  {
    assert Sum(sizes, n, n) == 0;
  }

  ghost predicate KeysAt(keys: seq<Bytes>, at: seq<nat>, found: seq<Bytes>) {
    |at| == |found| && forall i :: 0 <= i < |at| ==> at[i] < |keys| && found[i] == keys[at[i]]
  }

  class SizeSplitChecker {
    const maxSize: nat
    const splitSize: nat
    const batchSplitLimit: nat
    var currentSize: nat
    var splitKeys: seq<Bytes>

    constructor (maxSize: nat, splitSize: nat, batchSplitLimit: nat)
      ensures this.maxSize == maxSize && this.splitSize == splitSize
      ensures this.batchSplitLimit == batchSplitLimit && currentSize == 0 && splitKeys == []
    {
      this.maxSize, this.splitSize, this.batchSplitLimit := maxSize, splitSize, batchSplitLimit;
      currentSize, splitKeys := 0, [];
    }

    /** One more pair; `at` and `at'` are the positions of the split keys before and after. */
    method OnKv(key: Bytes, size: nat, ghost keys: seq<Bytes>, ghost sizes: seq<nat>, ghost n: nat, ghost at: seq<nat>)
      returns (stop: bool, ghost at': seq<nat>)
      requires n < |keys| == |sizes| && keys[n] == key && sizes[n] == size
      requires SizeScanned(sizes, n, splitSize, batchSplitLimit, currentSize, at) && KeysAt(keys, at, splitKeys)
      modifies this
      ensures SizeScanned(sizes, n + 1, splitSize, batchSplitLimit, currentSize, at') && KeysAt(keys, at', splitKeys)
      ensures stop <==> |at'| == batchSplitLimit && currentSize + splitSize >= maxSize
    {
      at' := at;
      CountsOneMore(sizes, StartOf(at, |at|), n, currentSize);
      currentSize := currentSize + size;
      var overLimit := |splitKeys| >= batchSplitLimit;
      if currentSize > splitSize && !overLimit {
        ClosedScan(sizes, n, splitSize, batchSplitLimit, currentSize - size, at);
        splitKeys, at' := splitKeys + [key], at + [n];
        if currentSize - size == splitSize {
          currentSize := size;
        } else {
          currentSize := 0;
        }
        overLimit := |splitKeys| >= batchSplitLimit;
      }
      stop := overLimit && currentSize + splitSize >= maxSize;
    }

    method GetSplitKeys() returns (keys: seq<Bytes>)
      modifies this
      ensures keys == if currentSize + splitSize < maxSize && |old(splitKeys)| > 0
        then old(splitKeys)[..|old(splitKeys)| - 1] else old(splitKeys)
      ensures splitKeys == [] && currentSize == old(currentSize)
    {
      if currentSize + splitSize < maxSize {
        var splitKeyLen := |splitKeys|;
        if splitKeyLen != 0 {
          splitKeys := splitKeys[..splitKeyLen - 1];
        }
      }
      keys := splitKeys;
      splitKeys := [];
    }
  }

  ghost predicate AtMostEach(sizes: seq<nat>, z: nat) {
    forall i :: 0 <= i < |sizes| ==> sizes[i] <= z
  }

  /** A proposal: good parts, a last part that is not small, and no proposal only for a region near the maximum. */
  ghost predicate GoodSplit(sizes: seq<nat>, at: seq<nat>, max: nat, split: nat, limit: nat) {
    && |at| <= limit && GoodParts(sizes, at, split)
    && (|at| > 0 ==> at[|at| - 1] < |sizes| && Sum(sizes, at[|at| - 1], |sizes|) + split >= max)
    && (|at| == 0 ==> forall z: nat :: AtMostEach(sizes, z) ==> Sum(sizes, 0, |sizes|) <= max + 2 * z)
  }

  lemma SizeResult(sizes: seq<nat>, n: nat, max: nat, split: nat, limit: nat, cur: nat, at: seq<nat>)
    requires split < max <= 2 * split && limit >= 1 && SizeScanned(sizes, n, split, limit, cur, at)
    requires n == |sizes| || (|at| == limit && cur + split >= max)
    ensures GoodSplit(sizes, if cur + split < max && |at| > 0 then at[..|at| - 1] else at, max, split, limit)
  {
    var k := |at|;
    if k == 0 {
      forall z: nat | AtMostEach(sizes, z) ensures Sum(sizes, 0, |sizes|) <= max + 2 * z {
        if n == 1 { assert Sum(sizes, 0, 1) == sizes[0]; }
        if n > 0 { SumJoin(sizes, 0, 1, n); }
      }
    } else if cur + split >= max {
      var a := at[k - 1];
      SumJoin(sizes, a, a + 1, n);
      SumJoin(sizes, a, n, |sizes|);
    } else {
      DroppedResult(sizes, max, split, limit, cur, at);
    }
  }

  lemma DropGoodPart(sizes: seq<nat>, at: seq<nat>, split: nat)
    requires |at| > 0 && GoodParts(sizes, at, split)
    ensures GoodParts(sizes, at[..|at| - 1], split)
  {
    var front := at[..|at| - 1];
    forall i | 0 <= i < |front| ensures StartOf(front, i) == StartOf(at, i) && front[i] == at[i] {}
  }

  /** The open part and the one before it, joined because the open one is small. */
  lemma JoinedSum(sizes: seq<nat>, a: nat, b: nat, max: nat, split: nat, cur: nat)
    requires split < max <= 2 * split && GoodPart(sizes, a, b, split)
    requires Counts(sizes, b, |sizes|, cur) && cur + split < max
    ensures Sum(sizes, a, |sizes|) + split >= max
    ensures Sum(sizes, a, |sizes|) <= max + sizes[a] + sizes[b]
  {
    SumJoin(sizes, a, b, |sizes|);
    SumJoin(sizes, b, b + 1, |sizes|);
    assert Sum(sizes, b, b + 1) == sizes[b];
  }

  lemma DroppedResult(sizes: seq<nat>, max: nat, split: nat, limit: nat, cur: nat, at: seq<nat>)
    requires split < max <= 2 * split && |at| > 0 && SizeScanned(sizes, |sizes|, split, limit, cur, at) &&
      cur + split < max
    ensures GoodSplit(sizes, at[..|at| - 1], max, split, limit)
  {
    DropGoodPart(sizes, at, split);
    JoinedSum(sizes, StartOf(at, |at| - 1), at[|at| - 1], max, split, cur);
    if |at| == 1 {
      forall z: nat | AtMostEach(sizes, z) ensures Sum(sizes, 0, |sizes|) <= max + 2 * z {
        assert sizes[0] <= z && sizes[at[0]] <= z;
      }
    }
  }

  /** The positions that are kept in the end. */
  ghost function Kept(at: seq<nat>, cur: nat, split: nat, max: nat): seq<nat> {
    if cur + split < max && |at| > 0 then at[..|at| - 1] else at
  }

  lemma KeptGood(sizes: seq<nat>, n: nat, max: nat, split: nat, limit: nat, cur: nat, at: seq<nat>)
    requires SizeScanned(sizes, n, split, limit, cur, at)
    requires n == |sizes| || (|at| == limit && cur + split >= max)
    ensures var kept := Kept(at, cur, split, max);
      && |kept| <= limit && GoodParts(sizes, kept, split)
      && (split < max <= 2 * split && limit >= 1 ==> GoodSplit(sizes, kept, max, split, limit))
  {
    if |at| > 0 { DropGoodPart(sizes, at, split); }
    if split < max <= 2 * split && limit >= 1 { SizeResult(sizes, n, max, split, limit, cur, at); }
  }

  /** The scan, up to the end or to where the checker stops it. */
  method ScanSizes(checker: SizeSplitChecker, keys: seq<Bytes>, sizes: seq<nat>)
    returns (ghost n: nat, ghost at: seq<nat>)
    requires |keys| == |sizes| && checker.currentSize == 0 && checker.splitKeys == []
    modifies checker
    ensures SizeScanned(sizes, n, checker.splitSize, checker.batchSplitLimit, checker.currentSize, at)
    ensures KeysAt(keys, at, checker.splitKeys)
    ensures n == |sizes| ||
      (|at| == checker.batchSplitLimit && checker.currentSize + checker.splitSize >= checker.maxSize)
  {
    at := [];
    var i := 0;
    var stop := false;
    while i < |keys| && !stop
      invariant 0 <= i <= |keys|
      invariant SizeScanned(sizes, i, checker.splitSize, checker.batchSplitLimit, checker.currentSize, at)
      invariant KeysAt(keys, at, checker.splitKeys)
      invariant stop ==> |at| == checker.batchSplitLimit && checker.currentSize + checker.splitSize >= checker.maxSize
    {
      stop, at := checker.OnKv(keys[i], sizes[i], keys, sizes, i, at);
      i := i + 1;
    }
    n := i;
  }

  /** The size checker alone over the pairs of a region, given by key and size. */
  method CheckSizes(maxSize: nat, splitSize: nat, limit: nat, keys: seq<Bytes>, sizes: seq<nat>)
    returns (found: seq<Bytes>, ghost at: seq<nat>)
    requires |keys| == |sizes|
    ensures |found| <= limit && (forall k :: k in found ==> k in keys)
    ensures KeysAt(keys, at, found) && GoodParts(sizes, at, splitSize)
    ensures splitSize < maxSize <= 2 * splitSize && limit >= 1 ==> GoodSplit(sizes, at, maxSize, splitSize, limit)
  {
    var checker := new SizeSplitChecker(maxSize, splitSize, limit);
    ghost var n, all := ScanSizes(checker, keys, sizes);
    KeptGood(sizes, n, maxSize, splitSize, limit, checker.currentSize, all);
    at := Kept(all, checker.currentSize, splitSize, maxSize);
    found := checker.GetSplitKeys();
  }
}
