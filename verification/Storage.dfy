/** The certificate storage of `node/bft/src/helpers/storage.rs`: four maps that describe one set of
    certificates, changed in place by inserting, removing, collecting garbage and moving rounds. */
module Storages {
  import opened Types
  import opened Committees
  import opened Links
  import opened Dfs
  import opened Memories

  type CertificateMap = map<Id, Certificate>

  function BucketOf(certificates: CertificateMap, r: Round): set<(Id, Address)> {
    set id | id in certificates && certificates[id].round == r :: (id, certificates[id].author)
  }

  /** The `rounds` map that describes exactly these certificates: no round without certificates. */
  function RoundsOf(certificates: CertificateMap): map<Round, set<(Id, Address)>> {
    map r | r in (set id | id in certificates :: certificates[id].round) :: BucketOf(certificates, r)
  }

  /** The `batch_ids` map that describes exactly these certificates. */
  function BatchesOf(certificates: CertificateMap): map<Id, Round> {
    map id | id in certificates :: certificates[id].round
  }

  predicate SameSlot(c: Certificate, d: Certificate) {
    c.round == d.round && c.author == d.author
  }

  /** At most one certificate per author and round. */
  ghost predicate OnePerAuthor(certificates: CertificateMap) {
    forall x, y :: x in certificates && y in certificates && SameSlot(certificates[x], certificates[y]) ==> x == y
  }

  ghost predicate AllAbove(certificates: CertificateMap, r: Round) {
    forall id :: id in certificates ==> certificates[id].round > r
  }

  function Above(certificates: CertificateMap, r: Round): CertificateMap {
    map id | id in certificates && certificates[id].round > r :: certificates[id]
  }

  lemma AboveIsAll(certificates: CertificateMap, r: Round)
    requires AllAbove(certificates, r)
    ensures Above(certificates, r) == certificates && Above(certificates, Monus(r, 1)) == certificates
  {
  }

  lemma AboveTwice(certificates: CertificateMap, q: Round, r: Round)
    requires q <= r
    ensures Above(Above(certificates, q), r) == Above(certificates, r) && AllAbove(Above(certificates, r), r)
  {
  }

  lemma RoundIffBucket(certificates: CertificateMap, r: Round)
    ensures r in RoundsOf(certificates) <==> BucketOf(certificates, r) != {}
    ensures r in RoundsOf(certificates) ==> RoundsOf(certificates)[r] == BucketOf(certificates, r)
  {
    if r in RoundsOf(certificates) {
      var id :| id in certificates && certificates[id].round == r;
      assert (id, certificates[id].author) in BucketOf(certificates, r);
    }
    if BucketOf(certificates, r) != {} {
      var e :| e in BucketOf(certificates, r);
      assert certificates[e.0].round == r;
    }
  }

  lemma BucketInsert(certificates: CertificateMap, c: Certificate, r: Round)
    requires c.id !in certificates
    ensures BucketOf(certificates[c.id := c], r) ==
              if r == c.round then BucketOf(certificates, r) + {(c.id, c.author)} else BucketOf(certificates, r)
  {
    var all := certificates[c.id := c];
    forall e: (Id, Address)
      ensures e in BucketOf(all, r) <==> e in BucketOf(certificates, r) || (r == c.round && e == (c.id, c.author))
    {
      assert e in BucketOf(all, r) <==> e.0 in all && all[e.0].round == r && all[e.0].author == e.1;
      assert e in BucketOf(certificates, r) <==>
          e.0 in certificates && certificates[e.0].round == r && certificates[e.0].author == e.1;
    }
  }

  lemma BucketRemove(certificates: CertificateMap, id: Id, r: Round)
    requires id in certificates
    ensures var c := certificates[id];
            BucketOf(certificates - {id}, r) ==
              if r == c.round then BucketOf(certificates, r) - {(id, c.author)} else BucketOf(certificates, r)
  {
    var rest, c := certificates - {id}, certificates[id];
    forall e: (Id, Address)
      ensures e in BucketOf(rest, r) <==> e in BucketOf(certificates, r) && !(r == c.round && e == (id, c.author))
    {
      assert e in BucketOf(rest, r) <==> e.0 in rest && rest[e.0].round == r && rest[e.0].author == e.1;
      assert e in BucketOf(certificates, r) <==>
          e.0 in certificates && certificates[e.0].round == r && certificates[e.0].author == e.1;
    }
  }

  lemma RoundsOfInsert(certificates: CertificateMap, c: Certificate)
    requires c.id !in certificates
    ensures var rounds := RoundsOf(certificates);
            RoundsOf(certificates[c.id := c]) ==
              rounds[c.round := (if c.round in rounds then rounds[c.round] else {}) + {(c.id, c.author)}]
    ensures BatchesOf(certificates[c.id := c]) == BatchesOf(certificates)[c.id := c.round]
  {
    hide RoundsOf;
    hide BucketOf;
    var all := certificates[c.id := c];
    forall r: Round
      ensures r in RoundsOf(all) <==> r in RoundsOf(certificates) || r == c.round
      ensures r in RoundsOf(all) && r != c.round ==> RoundsOf(all)[r] == RoundsOf(certificates)[r]
      ensures r == c.round ==>
          RoundsOf(all)[r] == (if r in RoundsOf(certificates) then RoundsOf(certificates)[r] else {}) +
              {(c.id, c.author)}
    {
      RoundIffBucket(all, r);
      RoundIffBucket(certificates, r);
      BucketInsert(certificates, c, r);
    }
  }

  lemma RoundsOfRemove(certificates: CertificateMap, id: Id)
    requires id in certificates
    ensures var rounds, c := RoundsOf(certificates), certificates[id];
            && c.round in rounds
            && RoundsOf(certificates - {id}) ==
                 if rounds[c.round] - {(id, c.author)} == {} then rounds - {c.round}
                 else rounds[c.round := rounds[c.round] - {(id, c.author)}]
    ensures BatchesOf(certificates - {id}) == BatchesOf(certificates) - {id}
  {
    var rounds, c, rest := RoundsOf(certificates), certificates[id], certificates - {id};
    assert c.round in rounds;
    hide RoundsOf;
    hide BucketOf;
    forall r: Round
      ensures r != c.round ==>
          (r in RoundsOf(rest) <==> r in rounds) && (r in rounds ==> RoundsOf(rest)[r] == rounds[r])
      ensures r == c.round ==> (r in RoundsOf(rest) <==> rounds[r] - {(id, c.author)} != {})
      ensures r == c.round && r in RoundsOf(rest) ==> RoundsOf(rest)[r] == rounds[r] - {(id, c.author)}
    {
      RoundIffBucket(rest, r);
      RoundIffBucket(certificates, r);
      BucketRemove(certificates, id, r);
    }
    if rounds[c.round] - {(id, c.author)} == {} {
      assert RoundsOf(rest) == rounds - {c.round};
    } else {
      assert RoundsOf(rest) == rounds[c.round := rounds[c.round] - {(id, c.author)}];
    }
  }

  /** Removing exactly the certificates of the lowest round. */
  lemma RemoveBucket(certificates: CertificateMap, r: Round, ids: set<Id>)
    requires AllAbove(certificates, Monus(r, 1)) || AllAbove(certificates, r)
    requires forall id :: id in ids <==> id in certificates && certificates[id].round == r
    ensures certificates - ids == Above(certificates, r)
  {
  }

  lemma BucketIds(certificates: CertificateMap, r: Round)
    ensures forall id :: id in (set e | e in BucketOf(certificates, r) :: e.0) <==>
        id in certificates && certificates[id].round == r
  {
    forall id | id in certificates && certificates[id].round == r
      ensures id in (set e | e in BucketOf(certificates, r) :: e.0)
    {
      assert (id, certificates[id].author) in BucketOf(certificates, r);
    }
  }

  /** `get_certificate_ids_for_round` */
  function IdsAt(rounds: map<Round, set<(Id, Address)>>, r: Round): set<Id> {
    if r == 0 || r !in rounds then {} else set e | e in rounds[r] :: e.0
  }

  lemma IdsAtAreLowest(certificates: CertificateMap, r: Round)
    requires AllAbove(certificates, Monus(r, 1))
    ensures certificates - IdsAt(RoundsOf(certificates), r) == Above(certificates, r)
  {
    RoundIffBucket(certificates, r);
    BucketIds(certificates, r);
    RemoveBucket(certificates, r, IdsAt(RoundsOf(certificates), r));
  }

  // What `check_batch_header` and `check_certificate` accept.

  ghost predicate DistinctAuthors(certificates: CertificateMap, parents: seq<Id>) {
    forall i, j :: 0 <= i < j < |parents| && parents[i] in certificates && parents[j] in certificates ==>
                     certificates[parents[i]].author != certificates[parents[j]].author
  }

  /** The parents are checked only above the garbage collection round. */
  ghost predicate ParentsOk(certificates: CertificateMap, gcRound: Round, known: map<Round, Committee>,
                            c: Certificate)
  {
    PreviousRound(c) > gcRound ==>
      && c.round - 1 in known
      && c.round - 1 in RoundsOf(certificates)
      && |c.parents| <= |known[c.round - 1].stakes|
      && DistinctAuthors(certificates, c.parents)
      && ParentsAccepted(certificates, known[c.round - 1], c)
  }

  ghost predicate SignersOk(known: map<Round, Committee>, c: Certificate, signers: seq<Address>) {
    && c.round in known
    && known[c.round].IsMember(c.author)
    && (forall a :: a in signers ==> known[c.round].IsMember(a))
    && known[c.round].HasQuorum({c.author} + Elements(signers))
  }

  /** The check on the parents in full. */
  lemma ParentsOkExactly(certificates: CertificateMap, gcRound: Round, known: map<Round, Committee>, c: Certificate)
    ensures ParentsOk(certificates, gcRound, known, c) <==>
              (c.round > gcRound + 1 ==>
                 && c.round - 1 in known
                 && (exists id :: id in certificates && certificates[id].round + 1 == c.round)
                 && |c.parents| <= |known[c.round - 1].stakes|
                 && (forall id :: id in c.parents ==> id in certificates && certificates[id].round + 1 == c.round)
                 && (forall i, j :: 0 <= i < j < |c.parents| ==>
                                      certificates[c.parents[i]].author != certificates[c.parents[j]].author)
                 && var k := known[c.round - 1];
                    3 * k.StakeOf(set id | id in c.parents && id in certificates :: certificates[id].author) >
                      2 * k.StakeOf(k.stakes.Keys))
  {
    if c.round > gcRound + 1 {
      RoundIffBucket(certificates, c.round - 1);
      SomeInRound(certificates, c.round - 1);
      if c.round - 1 in known {
        known[c.round - 1].ThresholdsExactly(
          set id | id in c.parents && id in certificates :: certificates[id].author);
      }
    }
  }

  lemma SomeInRound(certificates: CertificateMap, r: Round)
    ensures BucketOf(certificates, r) != {} <==> exists id :: id in certificates && certificates[id].round == r
  {
    if id :| id in certificates && certificates[id].round == r {
      assert (id, certificates[id].author) in BucketOf(certificates, r);
    }
    if BucketOf(certificates, r) != {} {
      var e :| e in BucketOf(certificates, r);
      assert e.0 in certificates && certificates[e.0].round == r;
    }
  }

  /** The check on the signers in full. */
  lemma SignersOkExactly(known: map<Round, Committee>, c: Certificate, signers: seq<Address>)
    ensures SignersOk(known, c, signers) <==>
              && c.round in known
              && c.author in known[c.round].stakes
              && (forall a :: a in signers ==> a in known[c.round].stakes)
              && 3 * known[c.round].StakeOf({c.author} + Elements(signers)) >
                   2 * known[c.round].StakeOf(known[c.round].stakes.Keys)
  {
    if c.round in known {
      known[c.round].ThresholdsExactly({c.author} + Elements(signers));
    }
  }

  /** Two accepted certificates of one round share signers, author included, with at least a third of the stake. */
  lemma SignersIntersect(known: map<Round, Committee>, c: Certificate, signers: seq<Address>,
                         d: Certificate, signers': seq<Address>)
    requires SignersOk(known, c, signers) && SignersOk(known, d, signers') && c.round == d.round
    ensures var k := known[c.round];
            3 * k.StakeOf(({c.author} + Elements(signers)) * ({d.author} + Elements(signers'))) >=
              k.StakeOf(k.stakes.Keys)
  {
    var s, t := {c.author} + Elements(signers), {d.author} + Elements(signers');
    known[c.round].QuorumsIntersect(s, t);
    known[c.round].ThresholdsExactly(s * t);
  }

  lemma CheckedExactly(certificates: CertificateMap, gcRound: Round, known: map<Round, Committee>, c: Certificate,
                       signers: seq<Address>, timely: bool)
    ensures Checked(certificates, gcRound, known, c, signers, timely) <==>
              && c.id !in certificates
              && (forall id :: id in certificates ==>
                                 !(certificates[id].round == c.round && certificates[id].author == c.author))
              && timely && ParentsOk(certificates, gcRound, known, c) && SignersOk(known, c, signers)
  {
    assert forall id :: id in certificates ==>
        (SameSlot(certificates[id], c) <==>
           certificates[id].round == c.round && certificates[id].author == c.author);
  }

  /** The checks of `check_certificate` that do not look at the transmissions. */
  ghost predicate Checked(certificates: CertificateMap, gcRound: Round, known: map<Round, Committee>, c: Certificate,
                          signers: seq<Address>, timely: bool)
  {
    IsNewCertificate(certificates, c) && timely && ParentsOk(certificates, gcRound, known, c) &&
        SignersOk(known, c, signers)
  }

  ghost predicate IsNewCertificate(certificates: CertificateMap, c: Certificate) {
    && c.id !in certificates
    && forall id :: id in certificates ==> !SameSlot(certificates[id], c)
  }

  /** Three maps describe the same certificates: one per author and round, all above `gcRound`. */
  ghost predicate Agreeing(rounds: map<Round, set<(Id, Address)>>, certificates: CertificateMap,
                           batchIds: map<Id, Round>, gcRound: Round)
  {
    && WellStored(certificates)
    && rounds == RoundsOf(certificates)
    && batchIds == BatchesOf(certificates)
    && OnePerAuthor(certificates)
    && AllAbove(certificates, gcRound)
  }

  /** All four maps do, the memory holding the transmissions of each certificate. */
  ghost predicate Consistent(rounds: map<Round, set<(Id, Address)>>, certificates: CertificateMap,
                             batchIds: map<Id, Round>,
                             gcRound: Round, memory: Memory)
  {
    Agreeing(rounds, certificates, batchIds, gcRound) && RefCounted(memory, certificates)
  }

  /** The `rounds` map without a certificate, and without its round when that empties it. */
  function WithoutCertificate(rounds: map<Round, set<(Id, Address)>>, c: Certificate): map<Round, set<(Id, Address)>> {
    if c.round !in rounds then rounds
    else if rounds[c.round] - {(c.id, c.author)} == {} then rounds - {c.round}
    else rounds[c.round := rounds[c.round] - {(c.id, c.author)}]
  }

  lemma RemoveIsConsistent(rounds: map<Round, set<(Id, Address)>>, certificates: CertificateMap,
                           batchIds: map<Id, Round>,
                           gcRound: Round, memory: Memory, id: Id)
    requires Consistent(rounds, certificates, batchIds, gcRound, memory) && id in certificates
    ensures Consistent(WithoutCertificate(rounds, certificates[id]), certificates - {id}, batchIds - {id}, gcRound,
                       AfterRemoval(memory, id, Elements(certificates[id].transmissions)))
    ensures AfterRemoval(memory, id, Elements(certificates[id].transmissions)) == Released(memory, {id})
  {
    RemovalReleases(memory, certificates, id);
    RoundsOfRemove(certificates, id);
    RemovalRefCounted(memory, certificates, id);
    hide RoundsOf;
    hide BatchesOf;
    hide RefCounted;
    hide AfterRemoval;
  }

  lemma InsertAgrees(rounds: map<Round, set<(Id, Address)>>, certificates: CertificateMap, batchIds: map<Id, Round>,
                     gcRound: Round, c: Certificate)
    requires Agreeing(rounds, certificates, batchIds, gcRound) && IsNewCertificate(certificates, c) && c.round > gcRound
    ensures var bucket := (if c.round in rounds then rounds[c.round] else {}) + {(c.id, c.author)};
            Agreeing(rounds[c.round := bucket], certificates[c.id := c], batchIds[c.id := c.round], gcRound)
  {
    RoundsOfInsert(certificates, c);
    hide RoundsOf;
    hide BatchesOf;
  }

  lemma InsertIsConsistent(rounds: map<Round, set<(Id, Address)>>, certificates: CertificateMap,
                           batchIds: map<Id, Round>,
                           gcRound: Round, memory: Memory, c: Certificate,
                           aborted: set<TransmissionId>, provided: map<TransmissionId, Transmission>)
    requires Consistent(rounds, certificates, batchIds, gcRound, memory)
    requires IsNewCertificate(certificates, c) && c.round > gcRound
    requires Supplied(memory, c.transmissions, provided, aborted)
    ensures var bucket := (if c.round in rounds then rounds[c.round] else {}) + {(c.id, c.author)};
            var all, memory' := certificates[c.id := c], Inserted(memory, c, aborted, provided);
            && Agreeing(rounds[c.round := bucket], all, batchIds[c.id := c.round], gcRound)
            && NoLoss(memory', all)
            && (RefCounted(memory', all) <==> OnlyDeclared(c.transmissions, aborted))
  {
    hide Agreeing;
    hide NoLeak;
    hide NoLoss;
    hide Inserted;
    hide Supplied;
    hide OnlyDeclared;
    InsertAgrees(rounds, certificates, batchIds, gcRound, c);
    InsertionRefCounted(memory, certificates, c, aborted, provided);
  }

  lemma CollectIsConsistent(rounds: map<Round, set<(Id, Address)>>, certificates: CertificateMap,
                            batchIds: map<Id, Round>,
                            gcRound: Round, memory: Memory, next: Round)
    requires Consistent(rounds, certificates, batchIds, gcRound, memory) && AllAbove(certificates, next)
    ensures Consistent(rounds, certificates, batchIds, next, memory)
  {
  }

  lemma ReleasedStep(m: Memory, before: CertificateMap, mid: CertificateMap, after: CertificateMap)
    requires after.Keys <= mid.Keys <= before.Keys
    ensures Released(Released(m, before.Keys - mid.Keys), mid.Keys - after.Keys) ==
        Released(m, before.Keys - after.Keys)
  {
    ReleasedTwice(m, before.Keys - mid.Keys, mid.Keys - after.Keys);
    assert before.Keys - mid.Keys + (mid.Keys - after.Keys) == before.Keys - after.Keys;
  }

  lemma ConsistentFacts(rounds: map<Round, set<(Id, Address)>>, certificates: CertificateMap, batchIds: map<Id, Round>,
                        gcRound: Round, memory: Memory)
    requires Consistent(rounds, certificates, batchIds, gcRound, memory)
    ensures WellStored(certificates) && rounds == RoundsOf(certificates) && AllAbove(certificates, gcRound)
  {
  }

  lemma NothingReleased(rounds: map<Round, set<(Id, Address)>>, certificates: CertificateMap, batchIds: map<Id, Round>,
                        gcRound: Round, memory: Memory)
    requires Consistent(rounds, certificates, batchIds, gcRound, memory)
    ensures Released(memory, certificates.Keys - certificates.Keys) == memory
  {
    assert certificates.Keys - certificates.Keys == {};
    ReleasedNone(memory, certificates);
  }

  class Storage {
    var currentRound: Round
    var gcRound: Round
    const maxGcRounds: nat
    var rounds: map<Round, set<(Id, Address)>>
    var certificates: CertificateMap
    var batchIds: map<Id, Round>
    const memory: MemoryService

    ghost predicate Valid()
      reads this, memory
    {
      && currentRound >= 1
      && Consistent(rounds, certificates, batchIds, gcRound, memory.Value())
    }

    constructor (startingRound: Round, maxGcRounds: nat)
      ensures Valid() && fresh(memory) && memory.Value() == EMPTY_MEMORY
      ensures certificates == map[] && this.maxGcRounds == maxGcRounds
      ensures currentRound == Max(startingRound, 1) && gcRound == Monus(Max(startingRound, 1), maxGcRounds)
    {
      currentRound := Max(startingRound, 1);
      this.maxGcRounds := maxGcRounds;
      rounds, certificates, batchIds := map[], map[], map[];
      memory := new MemoryService();
      gcRound := Monus(Max(startingRound, 1), maxGcRounds);
    }

    /** The round to move to is never behind; the storage round never decreases. `startingRound` is that of
        the current committee, when the ledger can return it. */
    method IncrementToNextRound(round: Round, startingRound: Option<Round>, latestBlockRound: Round)
      returns (next: Option<Round>)
      requires Valid()
      modifies this`currentRound
      ensures Valid() && old(currentRound) <= currentRound
      ensures next ==
                if round + 1 < old(currentRound) then Some(old(currentRound))
                else if startingRound.None? then None
                else if round + 1 < startingRound.value then Some(latestBlockRound)
                else if round + 1 < gcRound then None
                else Some(round + 1)
      ensures currentRound ==
                if round + 1 < old(currentRound) || startingRound.None? then old(currentRound)
                else if round + 1 < startingRound.value then Max(old(currentRound), Max(latestBlockRound, 1))
                else round + 1
    {
      var nextRound := round + 1;
      if nextRound < currentRound {
        return Some(currentRound);
      }
      if startingRound.None? {
        return None;
      }
      if nextRound < startingRound.value {
        SyncRoundWithBlock(latestBlockRound);
        return Some(latestBlockRound);
      }
      currentRound := nextRound;
      if nextRound < gcRound {
        return None;
      }
      return Some(nextRound);
    }

    method SyncRoundWithBlock(round: Round)
      requires Valid()
      modifies this`currentRound
      ensures Valid() && currentRound == Max(old(currentRound), Max(round, 1))
    {
      var next := Max(round, 1);
      if next > currentRound {
        currentRound := next;
      }
    }

    /** Removes a certificate and everything only it held. */
    method RemoveCertificate(id: Id) returns (removed: bool)
      requires Valid()
      modifies this`rounds, this`certificates, this`batchIds, memory
      ensures Valid() && removed == (id in old(certificates))
      ensures certificates == old(certificates) - {id}
      ensures memory.Value() == Released(old(memory.Value()), old(certificates).Keys - certificates.Keys)
    {
      hide Consistent;
      hide Released;
      hide AfterRemoval;
      hide Elements;
      ConsistentFacts(rounds, certificates, batchIds, gcRound, memory.Value());
      if id !in certificates {
        assert certificates - {id} == certificates;
        NothingReleased(rounds, certificates, batchIds, gcRound, memory.Value());
        return false;
      }
      assert certificates.Keys - (certificates - {id}).Keys == {id};
      var c := certificates[id];
      RemoveIsConsistent(rounds, certificates, batchIds, gcRound, memory.Value(), id);
      if c.round in rounds {
        var left := rounds[c.round] - {(id, c.author)};
        rounds := if left == {} then rounds - {c.round} else rounds[c.round := left];
      }
      certificates := certificates - {id};
      batchIds := batchIds - {id};
      memory.RemoveTransmissions(id, c.transmissions);
      return true;
    }

    /** Removes the certificates at or below the new garbage collection round, which never decreases. */
    method GarbageCollectCertificates(nextRound: Round)
      requires Valid()
      modifies this`rounds, this`certificates, this`batchIds, this`gcRound, memory
      ensures Valid() && gcRound == Max(old(gcRound), Monus(nextRound, maxGcRounds))
      ensures certificates == Above(old(certificates), gcRound)
      ensures memory.Value() == Released(old(memory.Value()), old(certificates).Keys - certificates.Keys)
    {
      hide Consistent;
      hide Released;
      hide Above;
      hide AllAbove;
      var nextGcRound := Monus(nextRound, maxGcRounds);
      ConsistentFacts(rounds, certificates, batchIds, gcRound, memory.Value());
      AboveIsAll(certificates, gcRound);
      NothingReleased(rounds, certificates, batchIds, gcRound, memory.Value());
      if nextGcRound > gcRound {
        var r := gcRound;
        while r <= nextGcRound
          invariant gcRound <= r <= nextGcRound + 1 && gcRound == old(gcRound)
          invariant Valid()
          invariant certificates == Above(old(certificates), Monus(r, 1))
          invariant certificates.Keys <= old(certificates).Keys
          invariant memory.Value() == Released(old(memory.Value()), old(certificates).Keys - certificates.Keys)
        {
          ghost var mid := certificates;
          AboveTwice(old(certificates), Monus(r, 1), Monus(r, 1));
          AboveTwice(old(certificates), Monus(r, 1), r);
          RemoveRound(r);
          ReleasedStep(old(memory.Value()), old(certificates), mid, certificates);
          r := r + 1;
        }
        AboveTwice(old(certificates), nextGcRound, nextGcRound);
        CollectIsConsistent(rounds, certificates, batchIds, gcRound, memory.Value(), nextGcRound);
        gcRound := nextGcRound;
      }
    }

    /** Removes the certificates of the lowest stored round. */
    method RemoveRound(r: Round)
      requires Valid() && AllAbove(certificates, Monus(r, 1))
      modifies this`rounds, this`certificates, this`batchIds, memory
      ensures Valid() && certificates == Above(old(certificates), r)
      ensures certificates.Keys <= old(certificates).Keys
      ensures memory.Value() == Released(old(memory.Value()), old(certificates).Keys - certificates.Keys)
    {
      hide IdsAt;
      hide RoundsOf;
      hide Consistent;
      hide Released;
      hide Above;
      hide AllAbove;
      NothingReleased(rounds, certificates, batchIds, gcRound, memory.Value());
      ConsistentFacts(rounds, certificates, batchIds, gcRound, memory.Value());
      IdsAtAreLowest(certificates, r);
      var ids := IdsAt(rounds, r);
      ghost var all := ids;
      assert certificates - all == Above(certificates, r);
      ghost var before := certificates;
      assert before - (all - ids) == before;
      while ids != {}
        invariant ids <= all && Valid()
        invariant certificates == before - (all - ids)
        invariant memory.Value() == Released(old(memory.Value()), before.Keys - certificates.Keys)
        decreases ids
      {
        var id :| id in ids;
        ghost var mid := certificates;
        var _ := RemoveCertificate(id);
        ReleasedStep(old(memory.Value()), before, mid, certificates);
        assert before - (all - ids) - {id} == before - (all - (ids - {id}));
        ids := ids - {id};
      }
      assert all - {} == all;
    }

    /** Accepts the parents of a certificate exactly when `ParentsOk`. */
    method CheckParents(c: Certificate, known: map<Round, Committee>) returns (ok: bool)
      requires rounds == RoundsOf(certificates)
      ensures ok <==> ParentsOk(certificates, gcRound, known, c)
    {
      hide RoundsOf;
      var previousRound := PreviousRound(c);
      if previousRound <= gcRound {
        return true;
      }
      if previousRound !in known {
        return false;
      }
      if previousRound !in rounds {
        return false;
      }
      if |c.parents| > |known[previousRound].stakes| {
        return false;
      }
      var previousAuthors: set<Address> := {};
      for i := 0 to |c.parents|
        invariant forall k :: 0 <= k < i ==>
            c.parents[k] in certificates && certificates[c.parents[k]].round + 1 == c.round
        invariant DistinctAuthors(certificates, c.parents[..i])
        invariant forall a :: a in previousAuthors <==> exists k :: 0 <= k < i && certificates[c.parents[k]].author == a
      {
        var id := c.parents[i];
        if id !in certificates {
          return false;
        }
        if certificates[id].round != previousRound {
          return false;
        }
        if certificates[id].author in previousAuthors {
          return false;
        }
        assert c.parents[..i + 1] == c.parents[..i] + [id];
        previousAuthors := previousAuthors + {certificates[id].author};
      }
      assert c.parents[..|c.parents|] == c.parents;
      ok := known[previousRound].IsQuorumThresholdReached(previousAuthors);
      assert previousAuthors == set id | id in c.parents && id in certificates :: certificates[id].author;
    }

    /** Accepts the signers exactly when `SignersOk`. */
    method CheckSigners(c: Certificate, signatures: seq<Address>, known: map<Round, Committee>) returns (ok: bool)
      requires c.round in known && known[c.round].IsMember(c.author)
      ensures ok <==> SignersOk(known, c, signatures)
    {
      var signers := {c.author};
      for i := 0 to |signatures|
        invariant signers == {c.author} + Elements(signatures[..i])
        invariant forall a :: a in signatures[..i] ==> known[c.round].IsMember(a)
      {
        assert signatures[..i + 1] == signatures[..i] + [signatures[i]];
        if !known[c.round].IsMember(signatures[i]) {
          return false;
        }
        signers := signers + {signatures[i]};
      }
      assert signatures[..|signatures|] == signatures;
      ok := known[c.round].IsQuorumThresholdReached(signers);
    }

    /** `check_certificate`, with the checks on the batch header: the missing transmissions exactly when
        `Checked`. `known` holds the committees the ledger can return, and `timely` is the outcome of the
        timestamp checks. */
    method CheckCertificate(c: Certificate, signatures: seq<Address>, provided: map<TransmissionId, Transmission>,
                            aborted: set<TransmissionId>, known: map<Round, Committee>, timely: bool)
      returns (missing: Option<map<TransmissionId, Transmission>>)
      requires rounds == RoundsOf(certificates) && batchIds.Keys == certificates.Keys
      requires Distinct(c.transmissions)
      ensures missing.Some? <==>
                && Checked(certificates, gcRound, known, c, signatures, timely)
                && Supplied(memory.Value(), c.transmissions, provided, aborted)
      ensures missing.Some? ==> missing.value == MissingFrom(memory.Value(), c.transmissions, provided)
    {
      hide RoundsOf;
      hide ParentsOk;
      hide SignersOk;
      hide MissingFrom;
      // The certificate is new.
      if c.id in certificates {
        return None;
      }
      if c.round in rounds && exists e :: e in rounds[c.round] && e.1 == c.author {
        SlotIsTaken(certificates, c);
        return None;
      }
      SlotIsFree(certificates, c);
      if c.id in batchIds {
        return None;
      }
      // The author is a member, the batch is timely, and its transmissions are available.
      SignersNeedMember(known, c, signatures);
      if c.round !in known || !known[c.round].IsMember(c.author) || !timely {
        return None;
      }
      missing := memory.FindMissingTransmissions(c.transmissions, provided, aborted);
      if missing.None? {
        return;
      }
      var parentsOk := CheckParents(c, known);
      if !parentsOk {
        return None;
      }
      var signersOk := CheckSigners(c, signatures, known);
      if !signersOk {
        return None;
      }
    }

    /** `insert_certificate`: stores the certificate and its transmissions exactly when every check passes,
        and changes nothing otherwise. Whatever the caller aborts, the maps agree and no certificate
        loses a transmission; nothing leaks exactly when only declared transmissions are aborted. */
    method InsertCertificate(c: Certificate, signatures: seq<Address>, provided: map<TransmissionId, Transmission>,
                             aborted: set<TransmissionId>, known: map<Round, Committee>, timely: bool)
      returns (ok: bool)
      requires Valid()
      requires Distinct(c.transmissions)
      modifies this`rounds, this`certificates, this`batchIds, memory
      ensures Agreeing(rounds, certificates, batchIds, gcRound) && NoLoss(memory.Value(), certificates)
      ensures Valid() <==> (ok ==> OnlyDeclared(c.transmissions, aborted))
      ensures ok <==>
                && c.round > gcRound
                && Checked(old(certificates), gcRound, known, c, signatures, timely)
                && Supplied(old(memory.Value()), c.transmissions, provided, aborted)
      ensures ok ==> certificates == old(certificates)[c.id := c]
      ensures ok ==> memory.Value() == Inserted(old(memory.Value()), c, aborted, provided)
      ensures !ok ==> certificates == old(certificates) && memory.Value() == old(memory.Value())
    {
      AgreeingFacts(rounds, certificates, batchIds, gcRound);
      CheckedFacts(certificates, gcRound, known, c, signatures, timely);
      hide Agreeing;
      hide RoundsOf;
      hide NoLoss;
      hide NoLeak;
      hide Inserted;
      hide Checked;
      hide IsNewCertificate;
      hide MissingFrom;
      hide Supplied;
      hide OnlyDeclared;
      ok := c.round > gcRound;
      if ok {
        var missing := CheckCertificate(c, signatures, provided, aborted, known, timely);
        ok := missing.Some?;
        if ok {
          InsertAtomic(c, provided, aborted, missing.value);
        }
      }
    }

    /** `sync_certificate_with_block`: stores a certificate of a block again, with the transmissions that block or
        ledger return. It is stored exactly when it is above the collection round, passes the checks, and each of
        its transmissions is present or can be synced. */
    method SyncCertificateWithBlock(c: Certificate, signatures: seq<Address>, source: BlockSource,
                                    known: map<Round, Committee>, timely: bool)
      returns (ok: bool)
      requires Valid()
      requires Distinct(c.transmissions)
      modifies this`rounds, this`certificates, this`batchIds, memory
      ensures Valid()
      ensures ok <==>
                && c.round > gcRound
                && Checked(old(certificates), gcRound, known, c, signatures, timely)
                && (forall t :: t in c.transmissions ==> Syncable(old(memory.Value()), source, t))
      ensures ok ==> certificates == old(certificates)[c.id := c]
      ensures ok ==> memory.Value() == Inserted(old(memory.Value()), c,
                                                SyncAborted(old(memory.Value()), c.transmissions, source),
                                                SyncProvided(old(memory.Value()), c.transmissions, source))
      ensures !ok ==> certificates == old(certificates) && memory.Value() == old(memory.Value())
    {
      hide Consistent;
      hide Inserted;
      hide Checked;
      hide Supplied;
      hide OnlyDeclared;
      hide IsNewCertificate;
      hide Syncable;
      CheckedFacts(certificates, gcRound, known, c, signatures, timely);
      NewIsNotStored(certificates, c);
      if c.round <= gcRound {
        return false;
      }
      if c.id in certificates {
        return false;
      }
      var provided, aborted := CollectTransmissions(c.transmissions, source);
      SyncSuppliesExactly(memory.Value(), c.transmissions, source);
      ok := InsertCertificate(c, signatures, provided, aborted, known, timely);
    }

    /** The loop over the declared transmissions: what to provide and what to abort. */
    method CollectTransmissions(declared: seq<TransmissionId>, source: BlockSource)
      returns (provided: map<TransmissionId, Transmission>, aborted: set<TransmissionId>)
      ensures provided == SyncProvided(memory.Value(), declared, source)
      ensures aborted == SyncAborted(memory.Value(), declared, source)
    {
      ghost var m := memory.Value();
      provided, aborted := map[], {};
      for i := 0 to |declared|
        invariant provided.Keys == SyncProvided(m, declared[..i], source).Keys
        invariant forall t :: t in provided ==> t in source.found && provided[t] == source.found[t]
        invariant aborted == SyncAborted(m, declared[..i], source)
      {
        var t := declared[i];
        assert declared[..i + 1] == declared[..i] + [t];
        if t in provided {
          continue;
        }
        if t in memory.transmissions || t in memory.abortedTransmissionIds {
          continue;
        }
        if t.Ratification? {
          continue;
        }
        if t in source.found {
          provided := provided[t := source.found[t]];
        } else if t in source.aborted {
          aborted := aborted + {t};
        }
      }
      assert declared[..|declared|] == declared;
      assert provided == SyncProvided(m, declared, source);
    }

    /** `insert_certificate_atomic` */
    method InsertAtomic(c: Certificate, ghost provided: map<TransmissionId, Transmission>, aborted: set<TransmissionId>,
                        missing: map<TransmissionId, Transmission>)
      requires Valid() && IsNewCertificate(certificates, c) && c.round > gcRound
      requires Supplied(memory.Value(), c.transmissions, provided, aborted)
      requires missing == MissingFrom(memory.Value(), c.transmissions, provided)
      modifies this`rounds, this`certificates, this`batchIds, memory
      ensures Agreeing(rounds, certificates, batchIds, gcRound) && NoLoss(memory.Value(), certificates)
      ensures Valid() <==> OnlyDeclared(c.transmissions, aborted)
      ensures certificates == old(certificates)[c.id := c]
      ensures memory.Value() == Inserted(old(memory.Value()), c, aborted, provided)
    {
      hide Agreeing;
      hide NoLoss;
      hide NoLeak;
      hide OnlyDeclared;
      hide Supplied;
      hide IsNewCertificate;
      hide AfterInsertion;
      hide MissingFrom;
      hide Elements;
      InsertIsConsistent(rounds, certificates, batchIds, gcRound, memory.Value(), c, aborted, provided);
      var bucket := if c.round in rounds then rounds[c.round] else {};
      rounds := rounds[c.round := bucket + {(c.id, c.author)}];
      certificates := certificates[c.id := c];
      batchIds := batchIds[c.id := c.round];
      memory.InsertTransmissions(c.id, c.transmissions, aborted, missing);
    }
  }

  lemma AgreeingFacts(rounds: map<Round, set<(Id, Address)>>, certificates: CertificateMap, batchIds: map<Id, Round>,
                      gcRound: Round)
    requires Agreeing(rounds, certificates, batchIds, gcRound)
    ensures rounds == RoundsOf(certificates) && batchIds.Keys == certificates.Keys
  {
  }

  lemma CheckedFacts(certificates: CertificateMap, gcRound: Round, known: map<Round, Committee>, c: Certificate,
                     signers: seq<Address>, timely: bool)
    ensures Checked(certificates, gcRound, known, c, signers, timely) ==> IsNewCertificate(certificates, c)
  {
  }

  lemma NewIsNotStored(certificates: CertificateMap, c: Certificate)
    ensures IsNewCertificate(certificates, c) ==> c.id !in certificates
  {
  }

  lemma SignersNeedMember(known: map<Round, Committee>, c: Certificate, signers: seq<Address>)
    ensures SignersOk(known, c, signers) ==> c.round in known && known[c.round].IsMember(c.author)
  {
  }

  lemma SlotIsTaken(certificates: CertificateMap, c: Certificate)
    requires c.round in RoundsOf(certificates)
    requires exists e :: e in RoundsOf(certificates)[c.round] && e.1 == c.author
    ensures !IsNewCertificate(certificates, c)
  {
    var e :| e in RoundsOf(certificates)[c.round] && e.1 == c.author;
    assert SameSlot(certificates[e.0], c);
  }

  lemma InRounds(certificates: CertificateMap, id: Id)
    requires id in certificates
    ensures certificates[id].round in RoundsOf(certificates)
    ensures (id, certificates[id].author) in RoundsOf(certificates)[certificates[id].round]
  {
    assert (id, certificates[id].author) in BucketOf(certificates, certificates[id].round);
  }

  lemma SlotIsFree(certificates: CertificateMap, c: Certificate)
    requires c.id !in certificates
    requires !(c.round in RoundsOf(certificates) && exists e :: e in RoundsOf(certificates)[c.round] && e.1 == c.author)
    ensures IsNewCertificate(certificates, c)
  {
    forall id | id in certificates
      ensures !SameSlot(certificates[id], c)
    {
      InRounds(certificates, id);
    }
  }
}
