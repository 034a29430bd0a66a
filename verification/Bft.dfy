/** The BFT of `node/bft/src/bft.rs` in its own, imperative form: each method is proved to do what the
    functions of `Engines` say. */
module Bfts {
  import opened Types
  import opened Committees
  import opened Dags
  import opened Links
  import opened Dfs
  import opened Blocks
  import opened Engines
  import opened Memories
  import opened Storages
  import opened Nodes

  /** `a.saturating_add(b)` on 64 bits */
  function SaturatingAdd(a: nat, b: nat): nat {
    Min(a + b, U64_MAX)
  }

  /** Adds leaders that are newer than those of a walk. */
  ghost function Append(walk: Option<seq<Certificate>>, newer: seq<Certificate>): Option<seq<Certificate>> {
    match walk
    case None => None
    case Some(older) => Some(older + newer)
  }

  ghost predicate DistinctAuthorsIn(s: set<Certificate>) {
    forall c, d :: c in s && d in s && c.author == d.author ==> c == d
  }

  /** The authors of the certificates that include, or do not include, the leader certificate. */
  ghost function AuthorsWith(s: set<Certificate>, id: Id, included: bool): set<Address> {
    set c | c in s && (id in c.parents <==> included) :: c.author
  }

  /** The two stakes add up to the stake of the authors of the round. */
  lemma StakesAddUp(committee: Committee, s: set<Certificate>, id: Id)
    requires DistinctAuthorsIn(s)
    ensures committee.StakeOf(AuthorsWith(s, id, true)) + committee.StakeOf(AuthorsWith(s, id, false))
         == committee.StakeOf(AuthorsOf(s))
  {
    var with, without := AuthorsWith(s, id, true), AuthorsWith(s, id, false);
    committee.StakeOfUnion(with, without);
    assert with + without == AuthorsOf(s) by {
      forall a | a in AuthorsOf(s)
        ensures a in with + without
      {
        var c :| c in s && c.author == a;
        assert a in if id in c.parents then with else without;
      }
    }
    assert with * without == {} by {
      forall a | a in with
        ensures a !in without
      {
        var c :| c in s && id in c.parents && c.author == a;
      }
    }
  }

  /** The readiness test of an odd round. */
  ghost predicate OddRoundReady(committee: Committee, s: set<Certificate>, leader: Option<Certificate>,
                                timerExpired: bool)
  {
    && committee.HasQuorum(AuthorsOf(s))
    && (|| leader.None?
        || timerExpired
        || committee.StakeOf(AuthorsWith(s, leader.value.id, true)) >= committee.AvailabilityThreshold()
        || committee.StakeOf(AuthorsWith(s, leader.value.id, false)) >= committee.QuorumThreshold())
  }

  /** The readiness test in full: more than two thirds of the stake present, and one of the four conditions. */
  lemma OddRoundReadyExactly(committee: Committee, s: set<Certificate>, leader: Option<Certificate>, timerExpired: bool)
    ensures OddRoundReady(committee, s, leader, timerExpired) <==>
              && 3 * committee.StakeOf(set c | c in s :: c.author) > 2 * committee.StakeOf(committee.stakes.Keys)
              && (|| leader.None?
                  || timerExpired
                  || 3 * committee.StakeOf(set c | c in s && leader.value.id in c.parents :: c.author) >=
                       committee.StakeOf(committee.stakes.Keys)
                  || 3 * committee.StakeOf(set c | c in s && leader.value.id !in c.parents :: c.author) >
                       2 * committee.StakeOf(committee.stakes.Keys))
  {
    assert AuthorsOf(s) == set c | c in s :: c.author;
    committee.ThresholdsExactly(AuthorsOf(s));
    if leader.Some? {
      var id := leader.value.id;
      assert AuthorsWith(s, id, true) == set c | c in s && id in c.parents :: c.author;
      assert AuthorsWith(s, id, false) == set c | c in s && id !in c.parents :: c.author;
      committee.ThresholdsExactly(AuthorsWith(s, id, true));
      committee.ThresholdsExactly(AuthorsWith(s, id, false));
    }
  }

  /** Odd-round progress: once every committee member's certificate is stored, the test passes
      whether or not the timer has expired. */
  lemma OddRoundProgress(committee: Committee, s: set<Certificate>, leader: Option<Certificate>, timerExpired: bool)
    requires DistinctAuthorsIn(s)
    requires committee.stakes.Keys <= AuthorsOf(s) && committee.Total() > 0
    ensures OddRoundReady(committee, s, leader, timerExpired)
  {
    committee.StakeOfMonotone(committee.stakes.Keys, AuthorsOf(s));
    if leader.Some? {
      StakesAddUp(committee, s, leader.value.id);
    }
  }

  /** What storage accepts is what the runs of `Nodes` allow to be stored, and leaves the state they describe. */
  lemma InsertedIsAccepted(p: Params, n: Node, c: Certificate, signers: seq<Address>, known: map<Round, Committee>,
                           timely: bool, provided: map<TransmissionId, Transmission>, aborted: set<TransmissionId>)
    requires InWorld(p, c) && forall r :: r in known ==> known[r] == p.committee(r)
    requires c.round > n.engine.gcRound && Checked(n.engine.stored, n.engine.gcRound, known, c, signers, timely)
    requires Supplied(n.engine.memory, c.transmissions, provided, aborted) && OnlyDeclared(c.transmissions, aborted)
    ensures var engine := Next(p, n, Store(c, provided, aborted)).engine;
            && engine.stored == n.engine.stored[c.id := c]
            && engine.memory == Inserted(n.engine.memory, c, aborted, provided)
            && engine.dag == n.engine.dag && engine.gcRound == n.engine.gcRound && engine.log == n.engine.log
  {
    hide RoundsOf;
    hide SignersOk;
    hide Inserted;
    assert forall id :: id in n.engine.stored ==> !SameSlot(n.engine.stored[id], c);
  }

  class Bft {
    const dag: Dag
    const storage: Storage
    const leader: Address
    var leaderCertificate: Option<Certificate>
    var log: seq<Block>

    ghost predicate Valid()
      reads this, dag, storage, storage.memory
    {
      && storage.Valid()
      && Keyed(dag.Value())
      && IdsDetermine(Certificates(dag.Value()))
    }

    ghost function Value(): Engine
      reads this, dag, storage, storage.memory
    {
      Engine(dag.Value(), storage.certificates, storage.gcRound, storage.memory.Value(), log)
    }

    constructor (dag: Dag, storage: Storage, leader: Address)
      requires dag.Value() == EMPTY_DAG && storage.Valid()
      ensures Valid() && this.dag == dag && this.storage == storage && this.leader == leader
      ensures Value() == Engine(EMPTY_DAG, storage.certificates, storage.gcRound, storage.memory.Value(), [])
      ensures leaderCertificate == None
    {
      this.dag, this.storage, this.leader := dag, storage, leader;
      leaderCertificate, log := None, [];
    }

    /** `sync_bft_dag_at_bootup` */
    method SyncBftDagAtBootup(certificates: seq<Certificate>)
      requires Valid()
      modifies dag
      ensures Valid()
      ensures Value() == old(Value()).(dag := AfterCommits(old(dag.Value()), certificates, storage.maxGcRounds))
    {
      CommitAllPrunes(dag.Value(), certificates, storage.maxGcRounds);
      CommitCertificates(certificates);
    }

    /** Commits the certificates into the DAG, in order. */
    method CommitCertificates(certificates: seq<Certificate>)
      modifies dag
      ensures dag.Value() == AfterCommits(old(dag.Value()), certificates, storage.maxGcRounds)
    {
      ghost var target := AfterCommits(dag.Value(), certificates, storage.maxGcRounds);
      assert certificates[0..] == certificates;
      for i := 0 to |certificates|
        invariant AfterCommits(dag.Value(), certificates[i..], storage.maxGcRounds) == target
      {
        assert certificates[i..][1..] == certificates[i + 1..];
        dag.Commit(certificates[i], storage.maxGcRounds);
      }
    }

    /** The stake of the authors who did and did not include the leader certificate, summed with saturation. */
    method ComputeStakeForLeaderCertificate(id: Id, certificates: set<Certificate>, committee: Committee)
      returns (stakeWith: nat, stakeWithout: nat)
      requires DistinctAuthorsIn(certificates)
      ensures stakeWith ==
                Min(committee.StakeOf(set c | c in certificates && id in c.parents :: c.author), U64_MAX)
      ensures stakeWithout ==
                Min(committee.StakeOf(set c | c in certificates && id !in c.parents :: c.author), U64_MAX)
    {
      assert AuthorsWith(certificates, id, true) == set c | c in certificates && id in c.parents :: c.author;
      assert AuthorsWith(certificates, id, false) == set c | c in certificates && id !in c.parents :: c.author;
      stakeWith, stakeWithout := 0, 0;
      var rest := certificates;
      assert certificates - rest == {};
      while rest != {}
        invariant rest <= certificates
        invariant stakeWith == Min(committee.StakeOf(AuthorsWith(certificates - rest, id, true)), U64_MAX)
        invariant stakeWithout == Min(committee.StakeOf(AuthorsWith(certificates - rest, id, false)), U64_MAX)
        decreases rest
      {
        var c :| c in rest;
        var stake := committee.Stake(c.author);
        OneMoreAuthor(committee, certificates, rest, c, id);
        if id in c.parents {
          stakeWith := SaturatingAdd(stakeWith, stake);
        } else {
          stakeWithout := SaturatingAdd(stakeWithout, stake);
        }
        rest := rest - {c};
      }
      assert certificates - {} == certificates;
    }

    /** `is_leader_quorum_or_nonleaders_available` */
    method IsLeaderQuorumOrNonleadersAvailable(oddRound: Round, known: map<Round, Committee>, timerExpired: bool)
      returns (ready: bool)
      requires Valid()
      requires forall r :: r in known ==> known[r].Total() <= U64_MAX
      ensures ready <==>
                && storage.currentRound == oddRound && oddRound % 2 == 1 && oddRound in known
                && OddRoundReady(known[oddRound],
                                 set id | id in storage.certificates && storage.certificates[id].round == oddRound
                                   :: storage.certificates[id],
                                 leaderCertificate, timerExpired)
    {
      if storage.currentRound != oddRound || oddRound % 2 != 1 || oddRound !in known {
        return false;
      }
      var current := StoredAt(storage.certificates, oddRound);
      StoredAuthorsAreDistinct(storage.certificates, oddRound);
      var committee := known[oddRound];
      var quorum := committee.IsQuorumThresholdReached(set c | c in current :: c.author);
      if !quorum {
        return false;
      }
      if leaderCertificate.None? {
        return true;
      }
      var id := leaderCertificate.value.id;
      var stakeWith, stakeWithout := ComputeStakeForLeaderCertificate(id, current, committee);
      assert AuthorsWith(current, id, true) == set c | c in current && id in c.parents :: c.author;
      assert AuthorsWith(current, id, false) == set c | c in current && id !in c.parents :: c.author;
      var total: int := committee.SumStake(committee.stakes.Keys);
      committee.StakeOfAtMostTotal(AuthorsWith(current, id, true));
      committee.StakeOfAtMostTotal(AuthorsWith(current, id, false));
      return stakeWith >= (total - 1) / 3 + 1 || stakeWithout >= total - (total - 1) / 3 || timerExpired;
    }

    /** Orders, builds and commits the block of one anchor; the engine is unchanged when it fails. */
    method CommitAnchorCertificate(anchor: Certificate, answer: Answer) returns (committed: bool)
      requires Valid()
      modifies this`log, dag
      ensures Valid()
      ensures var r := CommitAnchor(old(Value()), storage.maxGcRounds, anchor, answer);
              && committed == r.Some?
              && Value() == if committed then r.value else old(Value())
    {
      var subdag := OrderDagWithDfs(dag, storage.certificates, LedgerIds(log) - answer.unreadableCertificates,
          storage.maxGcRounds, anchor);
      if subdag.None? {
        return false;
      }
      var certificates := Flatten(subdag.value, anchor.round);
      var transmissions := GatherTransmissions(
        Sources(LedgerKeys(log), answer.unreadableTransmissions, storage.memory.transmissions.Keys), certificates);
      if transmissions.None? {
        return false;
      }
      if !AnchorRoundIs(subdag.value, anchor.round) {
        return false;
      }
      if !answer.accepted {
        return false;
      }
      CommitAllPrunes(dag.Value(), certificates, storage.maxGcRounds);
      CommitCertificates(certificates);
      log := log + [Block(anchor, certificates, transmissions.value)];
      return true;
    }

    /** The leader certificates to commit, newest first; `None` when a link cannot be decided. */
    method WalkToOlderLeaders(anchor: Certificate) returns (leaders: Option<seq<Certificate>>)
      requires Valid()
      ensures leaders.None? <==> WalkBack(dag.Value(), leader, anchor.round - 2, anchor).None?
      ensures leaders.Some? ==>
          Reversed(leaders.value) == WalkBack(dag.Value(), leader, anchor.round - 2, anchor).value + [anchor]
    {
      var d := dag.Value();
      var found := [anchor];
      ghost var newer: seq<Certificate> := [];
      var current := anchor;
      var round: int := anchor.round - 2;
      AppendNothing(WalkBack(d, leader, round, current));
      while round >= d.last + 2
        invariant Reversed(found) == newer + [anchor]
        invariant WalkBack(d, leader, anchor.round - 2, anchor) == Append(WalkBack(d, leader, round, current), newer)
        decreases round
      {
        if leader in CertificatesAt(d, round) {
          var previous := d.graph[round][leader];
          var linked := IsLinked(dag, previous, current);
          if linked.None? {
            return None;
          }
          if linked.value {
            AppendOne(WalkBack(d, leader, round - 2, previous), previous, newer);
            assert Reversed(found + [previous]) == [previous] + newer + [anchor] by { ReversedSnoc(found, previous); }
            newer := [previous] + newer;
            found := found + [previous];
            current := previous;
          }
        }
        round := round - 2;
      }
      return Some(found);
    }

    /** Commits the anchors in order until one fails. */
    method CommitAnchorCertificates(anchors: seq<Certificate>, answers: seq<Answer>) returns (finished: bool)
      requires Valid()
      modifies this`log, dag
      ensures Valid()
      ensures CommitAnchors(old(Value()), storage.maxGcRounds, anchors, answers) == Outcome(Value(), finished)
    {
      ghost var e, gcRounds := Value(), storage.maxGcRounds;
      assert WellStored(e.stored);
      hide Consistent;
      hide CommitAnchor;
      hide WellStored;
      hide Keyed;
      hide IdsDetermine;
      assert anchors[0..] == anchors && answers[0..] == answers;
      var k := 0;
      while k < |anchors|
        invariant 0 <= k <= |anchors| && k <= |answers|
        invariant Valid() && Value() == e.(dag := dag.Value(), log := log)
        invariant CommitAnchors(e, gcRounds, anchors, answers) ==
            CommitAnchors(Value(), gcRounds, anchors[k..], answers[k..])
      {
        if k == |answers| {
          return false;
        }
        assert anchors[k..][1..] == anchors[k + 1..] && answers[k..][1..] == answers[k + 1..];
        var committed := CommitAnchorCertificate(anchors[k], answers[k]);
        if !committed {
          return false;
        }
        k := k + 1;
      }
      return true;
    }

    /** `commit_leader_certificate` */
    method CommitLeaderCertificate(anchor: Certificate, answers: seq<Answer>)
      requires Valid()
      modifies this`log, dag, storage, storage.memory
      ensures Valid()
      ensures Value() == CommitLeader(old(Value()), storage.maxGcRounds, leader, anchor, answers)
    {
      hide Consistent;
      hide CommitAnchors;
      hide CollectGarbage;
      hide WalkBack;
      hide Keyed;
      hide IdsDetermine;
      StoredFacts(storage);
      var leaders := WalkToOlderLeaders(anchor);
      if leaders.None? {
        return;
      }
      var finished := CommitAnchorCertificates(Reversed(leaders.value), answers);
      if finished {
        StoredFacts(storage);
        CollectedAlike(Value(), storage.maxGcRounds, anchor.round);
        storage.GarbageCollectCertificates(anchor.round);
      }
    }

    /** `update_dag` */
    method UpdateDagWith(c: Certificate, known: map<Round, Committee>, answers: seq<Answer>)
      requires Valid()
      requires IdsDetermine(Certificates(dag.Value()) + {c})
      modifies this`log, dag, storage, storage.memory
      ensures Valid()
      ensures Value() == UpdateDag(old(Value()), storage.maxGcRounds, leader, known, c, answers)
    {
      hide CommitLeader;
      hide Consistent;
      hide Keyed;
      hide Certificates;
      hide AfterInsert;
      InsertKeepsGraph(dag.Value(), c);
      dag.Insert(c);
      var d := dag.Value();
      var commitRound := PreviousRound(c);
      if commitRound % 2 != 0 || commitRound < 2 {
        return;
      }
      if commitRound <= d.last {
        return;
      }
      if commitRound !in known {
        return;
      }
      if leader !in CertificatesAt(d, commitRound) {
        return;
      }
      var leaderCertificate := d.graph[commitRound][leader];
      if c.round !in d.graph {
        return;
      }
      if c.round !in known {
        return;
      }
      var certificates := d.graph[c.round];
      var authors := set a | a in certificates && leaderCertificate.id in certificates[a].parents
        :: certificates[a].author;
      var available := known[c.round].IsAvailabilityThresholdReached(authors);
      assert authors == Including(d, c.round, leaderCertificate.id);
      if !available {
        return;
      }
      CommitLeaderCertificate(leaderCertificate, answers);
    }
  }

  lemma AppendNothing(walk: Option<seq<Certificate>>)
    ensures Append(walk, []) == walk
  {
    if walk.Some? {
      assert walk.value + [] == walk.value;
    }
  }

  lemma AppendOne(walk: Option<seq<Certificate>>, previous: Certificate, newer: seq<Certificate>)
    ensures Append(Append(walk, [previous]), newer) == Append(walk, [previous] + newer)
  {
    if walk.Some? {
      assert walk.value + [previous] + newer == walk.value + ([previous] + newer);
    }
  }

  /** Collecting in storage and in the engine are the same. */
  lemma CollectedAlike(e: Engine, gcRounds: nat, round: Round)
    requires AllAbove(e.stored, e.gcRound) && NoLeak(e.memory, e.stored)
    ensures var next := Max(e.gcRound, Monus(round, gcRounds));
            var left := Above(e.stored, next);
            CollectGarbage(e, gcRounds, round) ==
              e.(stored := left, gcRound := next, memory := Released(e.memory, e.stored.Keys - left.Keys))
  {
    hide NoLeak;
    hide Released;
    var next := Max(e.gcRound, Monus(round, gcRounds));
    var gone := set id | id in e.stored && e.stored[id].round <= next;
    assert e.stored.Keys - Above(e.stored, next).Keys == gone;
    if next == e.gcRound {
      AboveIsAll(e.stored, next);
      assert gone == {};
      ReleasedNone(e.memory, e.stored);
    } else {
      assert Above(e.stored, next) == e.stored - gone;
    }
  }

  lemma StoredFacts(storage: Storage)
    requires storage.Valid()
    ensures WellStored(storage.certificates) && AllAbove(storage.certificates, storage.gcRound)
    ensures NoLeak(storage.memory.Value(), storage.certificates)
  {
  }

  lemma OneMoreAuthor(committee: Committee, s: set<Certificate>, rest: set<Certificate>, c: Certificate, id: Id)
    requires DistinctAuthorsIn(s) && rest <= s && c in rest
    ensures forall included: bool ::
              committee.StakeOf(AuthorsWith(s - (rest - {c}), id, included)) ==
                committee.StakeOf(AuthorsWith(s - rest, id, included)) +
                  if id in c.parents <==> included then committee.Stake(c.author) else 0
  {
    forall included: bool
      ensures committee.StakeOf(AuthorsWith(s - (rest - {c}), id, included)) ==
                committee.StakeOf(AuthorsWith(s - rest, id, included)) +
                  if id in c.parents <==> included then committee.Stake(c.author) else 0
    {
      var before, after := AuthorsWith(s - rest, id, included), AuthorsWith(s - (rest - {c}), id, included);
      assert s - (rest - {c}) == s - rest + {c};
      if id in c.parents <==> included {
        assert after == before + {c.author};
        assert c.author !in before;
        committee.StakeOfRemove(after, c.author);
        assert after - {c.author} == before;
      } else {
        assert after == before;
      }
    }
  }

  /** `get_certificates_for_round` */
  function StoredAt(certificates: map<Id, Certificate>, r: Round): set<Certificate> {
    set id | id in certificates && certificates[id].round == r :: certificates[id]
  }

  lemma StoredAuthorsAreDistinct(certificates: map<Id, Certificate>, r: Round)
    requires OnePerAuthor(certificates)
    ensures DistinctAuthorsIn(StoredAt(certificates, r))
  {
    forall c, d | c in StoredAt(certificates, r) && d in StoredAt(certificates, r) && c.author == d.author
      ensures c == d
    {
      var x :| x in certificates && certificates[x] == c && c.round == r;
      var y :| y in certificates && certificates[y] == d && d.round == r;
      assert SameSlot(certificates[x], certificates[y]);
    }
  }
}
