/** Block locators: the validator of `node/sync/src/block_locators.rs` and the builder
    `get_block_locators` of `node/bft/src/sync/mod.rs`. */
module Locators {
  import opened Types

  const NUM_RECENT_BLOCKS: nat := 100
  const CHECKPOINT_INTERVAL: nat := 10_000
  const U32_MAX: nat := 0xFFFF_FFFF

  datatype Hash = Hash(value: nat)

  datatype Entry = Entry(height: nat, hash: Hash)

  /** An insertion-ordered map from heights to hashes. */
  type Entries = seq<Entry>

  ghost predicate IsIndexMap(m: Entries) {
    && (forall i :: 0 <= i < |m| ==> m[i].height <= U32_MAX)
    && (forall i, j :: 0 <= i < j < |m| ==> m[i].height != m[j].height)
  }

  ghost predicate UniqueHashes(m: Entries) {
    forall i, j :: 0 <= i < j < |m| ==> m[i].hash != m[j].hash
  }

  function Get(m: Entries, height: nat): Option<Hash> {
    if m == [] then None
    else if m[0].height == height then Some(m[0].hash)
    else Get(m[1..], height)
  }

  lemma {:induction false} GetFinds(m: Entries, i: nat)
    requires i < |m| && forall k :: 0 <= k < i ==> m[k].height != m[i].height
    ensures Get(m, m[i].height) == Some(m[i].hash)
  {
    if i > 0 {
      assert forall k :: 0 <= k < i - 1 ==> m[1..][k].height != m[1..][i - 1].height;
      GetFinds(m[1..], i - 1);
    }
  }

  /** The entries are for the last 100 heights up to `tip`, or for all of them, in order. */
  ghost predicate RecentsUpTo(m: Entries, tip: nat) {
    && |m| == tip + 1 - Monus(tip, NUM_RECENT_BLOCKS - 1)
    && forall i :: 0 <= i < |m| ==> m[i].height == Monus(tip, NUM_RECENT_BLOCKS - 1) + i
  }

  /** The entries are for every 10,000th height up to `tip`, in order. */
  ghost predicate CheckpointsUpTo(m: Entries, tip: nat) {
    && |m| == tip / CHECKPOINT_INTERVAL + 1
    && forall i :: 0 <= i < |m| ==> m[i].height == i * CHECKPOINT_INTERVAL
  }

  ghost predicate AgreeOnOverlap(m: Entries, n: Entries) {
    forall i, j :: 0 <= i < |m| && 0 <= j < |n| && m[i].height == n[j].height ==> m[i].hash == n[j].hash
  }

  ghost predicate WellFormed(recents: Entries, checkpoints: Entries, tip: nat) {
    && RecentsUpTo(recents, tip) && UniqueHashes(recents)
    && CheckpointsUpTo(checkpoints, tip) && UniqueHashes(checkpoints)
    && AgreeOnOverlap(recents, checkpoints)
  }

  method HasDuplicates(m: Entries) returns (found: bool)
    ensures found <==> !UniqueHashes(m)
  {
    var seen: set<Hash> := {};
    for i := 0 to |m|
      invariant UniqueHashes(m[..i])
      invariant forall h :: h in seen <==> exists k :: 0 <= k < i && m[k].hash == h
    {
      if m[i].hash in seen {
        var k :| 0 <= k < i && m[k].hash == m[i].hash;
        return true;
      }
      seen := seen + {m[i].hash};
    }
    assert m[..|m|] == m;
    return false;
  }

  /** `check_recent_blocks`: the last height, when the map is the recents of that tip. */
  method CheckRecentBlocks(recents: Entries) returns (tip: Option<nat>)
    ensures tip.Some? ==> RecentsUpTo(recents, tip.value) && UniqueHashes(recents)
    ensures tip.None? ==> forall t: nat :: RecentsUpTo(recents, t) ==> !UniqueHashes(recents)
  {
    if recents == [] {
      return None;
    }
    if |recents| > NUM_RECENT_BLOCKS {
      return None;
    }
    var lastHeight := 0;
    for i := 0 to |recents|
      invariant forall k :: 0 <= k < i ==> recents[k].height == recents[0].height + k
      invariant i > 0 ==> lastHeight == recents[i - 1].height
      invariant i > 0 && |recents| < NUM_RECENT_BLOCKS ==> recents[0].height == 0
    {
      var height := recents[i].height;
      if i == 0 && |recents| < NUM_RECENT_BLOCKS && height > 0 {
        return None;
      }
      if i > 0 && height <= lastHeight {
        assert forall t: nat :: RecentsUpTo(recents, t) ==> recents[i].height == recents[i - 1].height + 1;
        return None;
      }
      if i > 0 && height - lastHeight != 1 {
        assert forall t: nat :: RecentsUpTo(recents, t) ==> recents[i].height == recents[i - 1].height + 1;
        return None;
      }
      lastHeight := height;
    }
    if lastHeight >= NUM_RECENT_BLOCKS && |recents| != NUM_RECENT_BLOCKS {
      return None;
    }
    var duplicates := HasDuplicates(recents);
    if duplicates {
      return None;
    }
    return Some(lastHeight);
  }

  lemma NotCheckpoints(checkpoints: Entries, i: nat)
    requires i < |checkpoints| && checkpoints[i].height != i * CHECKPOINT_INTERVAL
    ensures forall t: nat :: !CheckpointsUpTo(checkpoints, t)
  {
  }

  /** `check_block_checkpoints`: the last height, when the map is a run of checkpoints from 0. */
  method CheckBlockCheckpoints(checkpoints: Entries) returns (last: Option<nat>)
    ensures last.Some? ==> checkpoints != [] && CheckpointsUpTo(checkpoints, last.value) && UniqueHashes(checkpoints)
                           && last.value == (|checkpoints| - 1) * CHECKPOINT_INTERVAL
    ensures last.None? ==> forall t: nat :: CheckpointsUpTo(checkpoints, t) ==> !UniqueHashes(checkpoints)
  {
    if checkpoints == [] {
      return None;
    }
    var lastHeight := 0;
    for i := 0 to |checkpoints|
      invariant forall k :: 0 <= k < i ==> checkpoints[k].height == k * CHECKPOINT_INTERVAL
      invariant i > 0 ==> lastHeight == checkpoints[i - 1].height
    {
      var height := checkpoints[i].height;
      if i == 0 && height != 0 {
        NotCheckpoints(checkpoints, 0);
        return None;
      }
      if i > 0 && height <= lastHeight {
        NotCheckpoints(checkpoints, i);
        return None;
      }
      if i > 0 && height - lastHeight != CHECKPOINT_INTERVAL {
        NotCheckpoints(checkpoints, i);
        return None;
      }
      lastHeight := height;
    }
    var duplicates := HasDuplicates(checkpoints);
    if duplicates {
      return None;
    }
    return Some(lastHeight);
  }

  /** The only height the two maps can share is that of the last checkpoint. */
  lemma OverlapIsLastCheckpoint(recents: Entries, checkpoints: Entries, tip: nat, i: nat, j: nat)
    requires RecentsUpTo(recents, tip) && CheckpointsUpTo(checkpoints, tip)
    requires i < |recents| && j < |checkpoints| && recents[i].height == checkpoints[j].height
    ensures tip % CHECKPOINT_INTERVAL < NUM_RECENT_BLOCKS
    ensures recents[i].height == tip - tip % CHECKPOINT_INTERVAL
  {
    assert checkpoints[j].height == j * CHECKPOINT_INTERVAL;
    assert j <= tip / CHECKPOINT_INTERVAL;
    assert tip == tip / CHECKPOINT_INTERVAL * CHECKPOINT_INTERVAL + tip % CHECKPOINT_INTERVAL;
  }

  /** Both maps hold that height whenever the last checkpoint is recent: the two lookups never fail. */
  lemma OverlapIsPresent(recents: Entries, checkpoints: Entries, tip: nat)
    requires RecentsUpTo(recents, tip) && CheckpointsUpTo(checkpoints, tip)
    requires tip % CHECKPOINT_INTERVAL < NUM_RECENT_BLOCKS
    ensures var common := tip - tip % CHECKPOINT_INTERVAL;
            var i, j := common - Monus(tip, NUM_RECENT_BLOCKS - 1), tip / CHECKPOINT_INTERVAL;
            && 0 <= i < |recents| && recents[i].height == common && Get(recents, common) == Some(recents[i].hash)
            && 0 <= j < |checkpoints| && checkpoints[j].height == common
            && Get(checkpoints, common) == Some(checkpoints[j].hash)
  {
    var common := tip - tip % CHECKPOINT_INTERVAL;
    var i, j := common - Monus(tip, NUM_RECENT_BLOCKS - 1), tip / CHECKPOINT_INTERVAL;
    assert common == j * CHECKPOINT_INTERVAL;
    GetFinds(recents, i);
    GetFinds(checkpoints, j);
  }

  lemma OverlapDecides(recents: Entries, checkpoints: Entries, tip: nat)
    requires RecentsUpTo(recents, tip) && CheckpointsUpTo(checkpoints, tip)
    ensures tip % CHECKPOINT_INTERVAL >= NUM_RECENT_BLOCKS ==> AgreeOnOverlap(recents, checkpoints)
    ensures tip % CHECKPOINT_INTERVAL < NUM_RECENT_BLOCKS ==>
              var common := tip - tip % CHECKPOINT_INTERVAL;
              (AgreeOnOverlap(recents, checkpoints) <==> Get(recents, common) == Get(checkpoints, common))
  {
    forall i, j | 0 <= i < |recents| && 0 <= j < |checkpoints| && recents[i].height == checkpoints[j].height
      ensures tip % CHECKPOINT_INTERVAL < NUM_RECENT_BLOCKS
      ensures Get(recents, recents[i].height) == Some(recents[i].hash)
      ensures Get(checkpoints, recents[i].height) == Some(checkpoints[j].hash)
      ensures recents[i].height == tip - tip % CHECKPOINT_INTERVAL
    {
      OverlapIsLastCheckpoint(recents, checkpoints, tip, i, j);
      GetFinds(recents, i);
      GetFinds(checkpoints, j);
    }
    if tip % CHECKPOINT_INTERVAL < NUM_RECENT_BLOCKS {
      OverlapIsPresent(recents, checkpoints, tip);
    }
  }

  lemma TipIsUnique(recents: Entries, s: nat, t: nat)
    requires RecentsUpTo(recents, s) && RecentsUpTo(recents, t)
    ensures s == t
  {
    assert recents[|recents| - 1].height == s;
  }

  /** `a.saturating_add(b)` on 32 bits */
  function SaturatingAdd(a: nat, b: nat): nat {
    if a + b > U32_MAX then U32_MAX else a + b
  }

  /** `check_block_locators`: accepts exactly the well-formed locators whose tip is below the largest height. */
  method CheckBlockLocators(recents: Entries, checkpoints: Entries) returns (ok: bool)
    requires IsIndexMap(recents) && IsIndexMap(checkpoints)
    ensures ok <==> exists tip: nat :: tip < U32_MAX && WellFormed(recents, checkpoints, tip)
  {
    var lastRecent := CheckRecentBlocks(recents);
    if lastRecent.None? {
      return false;
    }
    var tip := lastRecent.value;
    forall t: nat | WellFormed(recents, checkpoints, t)
      ensures t == tip
    {
      TipIsUnique(recents, t, tip);
    }
    var lastCheckpoint := CheckBlockCheckpoints(checkpoints);
    if lastCheckpoint.None? {
      return false;
    }
    var checkpoint := lastCheckpoint.value;
    assert recents[|recents| - 1].height == tip;
    CheckpointRange(checkpoints, checkpoint, tip);
    if !(checkpoint <= tip < SaturatingAdd(checkpoint, CHECKPOINT_INTERVAL)) {
      return false;
    }
    OverlapDecides(recents, checkpoints, tip);
    var distance := tip % CHECKPOINT_INTERVAL;
    if distance < NUM_RECENT_BLOCKS {
      var common := tip - distance;
      OverlapIsPresent(recents, checkpoints, tip);
      if Get(recents, common).value != Get(checkpoints, common).value {
        return false;
      }
    }
    assert WellFormed(recents, checkpoints, tip);
    return true;
  }

  lemma CheckpointRange(checkpoints: Entries, checkpoint: nat, tip: nat)
    requires checkpoints != [] && CheckpointsUpTo(checkpoints, checkpoint)
    requires checkpoint == (|checkpoints| - 1) * CHECKPOINT_INTERVAL && tip <= U32_MAX
    ensures checkpoint <= tip < SaturatingAdd(checkpoint, CHECKPOINT_INTERVAL) <==>
        CheckpointsUpTo(checkpoints, tip) && tip < U32_MAX
  {
    var n := |checkpoints| - 1;
    assert tip / CHECKPOINT_INTERVAL == n <==>
        n * CHECKPOINT_INTERVAL <= tip < n * CHECKPOINT_INTERVAL + CHECKPOINT_INTERVAL;
  }

  // The builder

  ghost predicate DistinctBlocks(chain: seq<Hash>) {
    forall i, j :: 0 <= i < j < |chain| ==> chain[i] != chain[j]
  }

  /** The entries are blocks of the chain. */
  ghost predicate OnChain(m: Entries, chain: seq<Hash>) {
    forall i :: 0 <= i < |m| ==> m[i].height < |chain| && m[i].hash == chain[m[i].height]
  }

  datatype BlockLocators = BlockLocators(recents: Entries, checkpoints: Entries)

  ghost predicate LocatorsOf(b: BlockLocators, chain: seq<Hash>) {
    && chain != []
    && RecentsUpTo(b.recents, |chain| - 1) && OnChain(b.recents, chain)
    && CheckpointsUpTo(b.checkpoints, |chain| - 1) && OnChain(b.checkpoints, chain)
  }

  /** The builder looks up this height. */
  predicate LooksUp(tip: nat, height: nat) {
    height <= tip && (height + NUM_RECENT_BLOCKS > tip || height % CHECKPOINT_INTERVAL == 0)
  }

  /** `get_block_locators` for the chain of the ledger, which may fail to return some hashes: accepted by the
      validator when the blocks are distinct, exactly up to the tip before the largest height and when the
      ledger returns every hash looked up. */
  method GetBlockLocators(chain: seq<Hash>, missing: set<nat>) returns (locators: Option<BlockLocators>)
    requires 0 < |chain| <= U32_MAX + 1
    ensures locators.Some? ==> LocatorsOf(locators.value, chain)
    ensures locators.Some? ==> forall h: nat :: LooksUp(|chain| - 1, h) ==> h !in missing
    ensures DistinctBlocks(chain) ==>
              (locators.Some? <==> |chain| - 1 < U32_MAX && forall h: nat :: LooksUp(|chain| - 1, h) ==> h !in missing)
  {
    var tip := |chain| - 1;
    var recents: Entries := [];
    var start := Monus(tip, NUM_RECENT_BLOCKS - 1);
    for height := start to tip + 1
      invariant |recents| == height - start
      invariant forall i :: 0 <= i < |recents| ==> recents[i] == Entry(start + i, chain[start + i])
      invariant forall h :: start <= h < height ==> h !in missing
    {
      if height in missing {
        assert LooksUp(tip, height);
        return None;
      }
      recents := recents + [Entry(height, chain[height])];
    }
    var checkpoints: Entries := [];
    var k := 0;
    while k * CHECKPOINT_INTERVAL <= tip
      invariant |checkpoints| == k && k <= tip / CHECKPOINT_INTERVAL + 1
      invariant forall i :: 0 <= i < |checkpoints| ==> i * CHECKPOINT_INTERVAL <= tip
      invariant forall i :: 0 <= i < |checkpoints| ==>
          checkpoints[i] == Entry(i * CHECKPOINT_INTERVAL, chain[i * CHECKPOINT_INTERVAL])
      invariant forall i :: 0 <= i < k ==> i * CHECKPOINT_INTERVAL !in missing
      decreases tip - k
    {
      if k * CHECKPOINT_INTERVAL in missing {
        assert LooksUp(tip, k * CHECKPOINT_INTERVAL);
        return None;
      }
      checkpoints := checkpoints + [Entry(k * CHECKPOINT_INTERVAL, chain[k * CHECKPOINT_INTERVAL])];
      k := k + 1;
    }
    forall h: nat | LooksUp(tip, h)
      ensures h !in missing
    {
      assert h % CHECKPOINT_INTERVAL == 0 ==> h == h / CHECKPOINT_INTERVAL * CHECKPOINT_INTERVAL;
    }
    var b := BlockLocators(recents, checkpoints);
    assert LocatorsOf(b, chain);
    LocatorsAreIndexMaps(b, chain);
    var ok := CheckBlockLocators(recents, checkpoints);
    if DistinctBlocks(chain) {
      LocatorsAreWellFormed(b, chain);
    }
    if ok {
      ghost var t: nat :| t < U32_MAX && WellFormed(recents, checkpoints, t);
      TipIsUnique(recents, t, tip);
      return Some(b);
    }
    return None;
  }

  lemma LocatorsAreIndexMaps(b: BlockLocators, chain: seq<Hash>)
    requires LocatorsOf(b, chain) && |chain| <= U32_MAX + 1
    ensures IsIndexMap(b.recents) && IsIndexMap(b.checkpoints)
  {
    assert forall i :: 0 <= i < |b.checkpoints| ==> b.checkpoints[i].height == i * CHECKPOINT_INTERVAL;
  }

  lemma LocatorsAreWellFormed(b: BlockLocators, chain: seq<Hash>)
    requires LocatorsOf(b, chain) && DistinctBlocks(chain)
    ensures WellFormed(b.recents, b.checkpoints, |chain| - 1)
  {
    forall i, j | 0 <= i < j < |b.recents|
      ensures b.recents[i].hash != b.recents[j].hash
    {
      assert b.recents[i].height < b.recents[j].height;
    }
    forall i, j | 0 <= i < j < |b.checkpoints|
      ensures b.checkpoints[i].hash != b.checkpoints[j].hash
    {
      assert b.checkpoints[i].height < b.checkpoints[j].height;
    }
  }

  // Consistency

  /** `check_consistent_block_locators` */
  method CheckConsistent(before: BlockLocators, after: BlockLocators) returns (ok: bool)
    requires IsIndexMap(before.recents) && IsIndexMap(before.checkpoints)
    ensures ok <==>
              && AgreeOnOverlap(after.recents, before.recents)
              && AgreeOnOverlap(after.checkpoints, before.checkpoints)
  {
    ok := CheckAgree(after.recents, before.recents);
    if ok {
      ok := CheckAgree(after.checkpoints, before.checkpoints);
    }
  }

  method CheckAgree(m: Entries, n: Entries) returns (ok: bool)
    requires IsIndexMap(n)
    ensures ok <==> AgreeOnOverlap(m, n)
  {
    for i := 0 to |m|
      invariant AgreeOnOverlap(m[..i], n)
    {
      GetDecides(n, m[i].height);
      var hash := Get(n, m[i].height);
      if hash.Some? && hash.value != m[i].hash {
        return false;
      }
    }
    assert m[..|m|] == m;
    return true;
  }

  lemma {:induction false} GetDecides(m: Entries, height: nat)
    requires IsIndexMap(m)
    ensures Get(m, height).None? <==> forall i :: 0 <= i < |m| ==> m[i].height != height
    ensures forall i :: 0 <= i < |m| && m[i].height == height ==> Get(m, height) == Some(m[i].hash)
  {
    if m != [] {
      assert IsIndexMap(m[1..]);
      GetDecides(m[1..], height);
      assert forall i :: 0 < i < |m| ==> m[i] == m[1..][i - 1];
    }
  }

  /** Locators of a chain and of any extension of it are consistent, both ways. */
  lemma ExtensionIsConsistent(b: BlockLocators, chain: seq<Hash>, b': BlockLocators, longer: seq<Hash>)
    requires LocatorsOf(b, chain) && LocatorsOf(b', longer) && chain <= longer
    ensures AgreeOnOverlap(b.recents, b'.recents) && AgreeOnOverlap(b.checkpoints, b'.checkpoints)
    ensures AgreeOnOverlap(b'.recents, b.recents) && AgreeOnOverlap(b'.checkpoints, b.checkpoints)
  {
  }

  // Lookup and iteration

  function ToMap(m: Entries): map<nat, Hash> {
    if m == [] then map[] else ToMap(m[..|m| - 1])[m[|m| - 1].height := m[|m| - 1].hash]
  }

  /** `get_hash`: the recents first, then the checkpoints. */
  function GetHash(b: BlockLocators, height: nat): Option<Hash> {
    match Get(b.recents, height)
    case Some(hash) => Some(hash)
    case None => Get(b.checkpoints, height)
  }

  lemma {:induction false} ToMapIsGet(m: Entries, height: nat)
    requires IsIndexMap(m)
    ensures Get(m, height) == if height in ToMap(m) then Some(ToMap(m)[height]) else None
  {
    if m != [] {
      var init, e := m[..|m| - 1], m[|m| - 1];
      assert IsIndexMap(init);
      ToMapIsGet(init, height);
      GetDecides(m, height);
      GetDecides(init, height);
      assert forall i :: 0 <= i < |init| ==> m[i] == init[i];
    }
  }

  /** Iterating (checkpoints chained with recents into one sorted map) and looking up agree at every height. */
  lemma IterationIsLookup(b: BlockLocators, height: nat)
    requires IsIndexMap(b.recents) && IsIndexMap(b.checkpoints)
    ensures var all := ToMap(b.checkpoints + b.recents);
            GetHash(b, height) == if height in all then Some(all[height]) else None
  {
    ToMapIsGet(b.recents, height);
    ToMapIsGet(b.checkpoints, height);
    ToMapChains(b.checkpoints, b.recents);
  }

  lemma {:induction false} ToMapChains(m: Entries, n: Entries)
    ensures ToMap(m + n) == ToMap(m) + ToMap(n)
    decreases |n|
  {
    if n == [] {
      assert m + n == m;
    } else {
      var init := n[..|n| - 1];
      ToMapChains(m, init);
      assert (m + n)[..|m + n| - 1] == m + init;
    }
  }
}
