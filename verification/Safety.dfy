/** What holds after every run: the safety claims of the commit engine. */
module Safety {
  import opened Types
  import opened Dags
  import opened Links
  import opened Dfs
  import opened DfsExactness
  import opened Blocks
  import opened Memories
  import opened Engines
  import opened Nodes
  import opened NodeProofs
  import opened NodeRuns
  import opened Bootup
  import opened Agreement

  lemma LogFacts(p: Params, n: Node)
    requires Inv(p, n)
    ensures LogOk(n.engine.log)
    ensures forall c :: c in Committed(n.engine.log) ==> InWorld(p, c)
  {
  }

  /** No certificate is committed twice: two committed certificates with the same ID are at the same
      position of the same block. */
  lemma NoDoubleCommit(p: Params, run: seq<Event>, i: nat, a: nat, j: nat, b: nat)
    requires ValidParams(p)
    requires i < |After(p, run).engine.log| && a < |After(p, run).engine.log[i].certificates|
    requires j < |After(p, run).engine.log| && b < |After(p, run).engine.log[j].certificates|
    requires After(p, run).engine.log[i].certificates[a].id == After(p, run).engine.log[j].certificates[b].id
    ensures i == j && a == b
  {
    hide Inv;
    hide After;
    RunKeeps(p, run);
    LogFacts(p, After(p, run));
    OnePosition(p, After(p, run).engine.log, i, a, j, b);
  }

  lemma OnePosition(p: Params, log: seq<Block>, i: nat, a: nat, j: nat, b: nat)
    requires LogOk(log) && forall c :: c in Committed(log) ==> InWorld(p, c)
    requires i < |log| && a < |log[i].certificates|
    requires j < |log| && b < |log[j].certificates|
    requires log[i].certificates[a].id == log[j].certificates[b].id
    ensures i == j && a == b
  {
    var x, y := log[i].certificates[a], log[j].certificates[b];
    assert log[i] in log && log[j] in log;
    assert x in log[i].certificates && y in log[j].certificates;
    assert x in Committed(log) && y in Committed(log);
    assert x == y;
    assert BlockOk(log[i]);
    if i < j {
      InOneBlock(log, i, j, x);
    } else if j < i {
      InOneBlock(log, j, i, x);
    } else if a < b {
      CountedTwice(log[i].certificates, a, b);
    } else if b < a {
      CountedTwice(log[i].certificates, b, a);
    }
  }

  lemma InOneBlock(log: seq<Block>, i: nat, j: nat, c: Certificate)
    requires LogOk(log) && i < j < |log| && c in log[i].certificates
    ensures c !in log[j].certificates
  {
    assert Apart(log[i], log[j]);
  }

  lemma CountedTwice(cs: seq<Certificate>, a: nat, b: nat)
    requires a < b < |cs| && cs[a] == cs[b]
    ensures multiset(cs)[cs[a]] >= 2
  {
    assert cs == cs[..b] + cs[b..];
    assert cs[a] in cs[..b] && cs[b] in cs[b..];
  }

  /** Causal completeness: every parent above the horizon of a committed certificate is committed. */
  lemma CommittedIsCausallyComplete(p: Params, run: seq<Event>, c: Certificate, id: Id)
    requires ValidParams(p)
    requires var n := After(p, run);
             c in Committed(n.engine.log) && id in c.parents && PreviousRound(c) + p.gcRounds > n.engine.dag.last
    ensures id in p.world && p.world[id] in Committed(After(p, run).engine.log)
  {
    RunKeeps(p, run);
    hide StorageOk;
    hide DagOk;
    hide LedgerOk;
    hide DeliveredOk;
    hide LogOk;
    hide After;
    assert IsCommitted(p, Committed(After(p, run).engine.log), id);
  }

  /** No missing parent: garbage collection stays `gcRounds` below the last committed round, stored
      certificates above it have their parents stored, and ordering any stored certificate succeeds
      whichever ledger reads fail. */
  lemma NoMissingParent(p: Params, run: seq<Event>, c: Certificate, unreadable: set<Id>)
    requires ValidParams(p)
    requires c in After(p, run).engine.stored.Values
    ensures var e := After(p, run).engine;
            && (e.gcRound == 0 || e.gcRound + p.gcRounds <= e.dag.last)
            && (PreviousRound(c) > e.gcRound ==>
                  forall id :: id in c.parents ==> id in e.stored && e.stored[id].round + 1 == c.round)
            && WellStored(e.stored)
            && OrderDag(ViewOf(e, p.gcRounds, unreadable), c).Some?
  {
    RunKeeps(p, run);
    hide After;
    hide Inv;
    var n := After(p, run);
    InvFacts(p, n);
    assert c in n.ever;
    forall id | id in c.parents && PreviousRound(c) > n.engine.gcRound
      ensures id in n.engine.stored && n.engine.stored[id].round + 1 == c.round
    {
      StoredParent(p, n, c, id);
    }
    ViewIsSound(p, n, unreadable);
    DfsExact(ViewOf(n.engine, p.gcRounds, unreadable), n.ever, c);
  }

  lemma StoredParent(p: Params, n: Node, c: Certificate, id: Id)
    requires StorageOk(p, n) && c in n.ever && id in c.parents && PreviousRound(c) > n.engine.gcRound
    ensures id in n.engine.stored && n.engine.stored[id].round + 1 == c.round
  {
    assert Rooted(n.ever, c, p.committee);
    assert HasParent(n.ever, c, id);
    var d :| Step(n.ever, c, d) && d.id == id;
    assert InWorld(p, d) && InWorld(p, n.engine.stored[id]);
  }

  /** Reference counting over any run: every transmission in memory is held by stored certificates that declare
      it, at least one, and every transmission a stored certificate declares is recorded for it. */
  lemma TransmissionsAreCounted(p: Params, run: seq<Event>)
    requires ValidParams(p)
    ensures RefCounted(After(p, run).engine.memory, After(p, run).engine.stored)
  {
    hide Inv;
    hide After;
    hide RefCounted;
    RunKeeps(p, run);
    InvFacts(p, After(p, run));
  }

  /** Block uniqueness: a transaction or solution ID is in at most one block, at one position, whatever
      its checksum. */
  lemma NoDoubleInclusion(p: Params, run: seq<Event>, i: nat, a: nat, j: nat, b: nat)
    requires ValidParams(p)
    requires i < |After(p, run).engine.log| && a < |After(p, run).engine.log[i].transmissions|
    requires j < |After(p, run).engine.log| && b < |After(p, run).engine.log[j].transmissions|
    ensures var t, u := After(p, run).engine.log[i].transmissions[a], After(p, run).engine.log[j].transmissions[b];
            && !t.Ratification? && !u.Ratification?
            && (t.Transaction? && u.Transaction? && t.transaction == u.transaction ==> i == j && a == b)
            && (t.Solution? && u.Solution? && t.solution == u.solution ==> i == j && a == b)
  {
    hide Inv;
    hide After;
    RunKeeps(p, run);
    LogFacts(p, After(p, run));
    OneInclusion(After(p, run).engine.log, i, a, j, b);
    KeysAreSubjects(After(p, run).engine.log[i].transmissions[a], After(p, run).engine.log[j].transmissions[b]);
  }

  lemma OneInclusion(log: seq<Block>, i: nat, a: nat, j: nat, b: nat)
    requires LogOk(log)
    requires i < |log| && a < |log[i].transmissions|
    requires j < |log| && b < |log[j].transmissions|
    ensures var t, u := log[i].transmissions[a], log[j].transmissions[b];
            !t.Ratification? && !u.Ratification? && (KeyOf(t) == KeyOf(u) ==> i == j && a == b)
  {
    var t, u := log[i].transmissions[a], log[j].transmissions[b];
    assert BlockOk(log[i]) && BlockOk(log[j]);
    assert t in log[i].transmissions && u in log[j].transmissions;
    assert KeyOf(t) in KeysOf(log[i].transmissions) && KeyOf(u) in KeysOf(log[j].transmissions);
    assert i < j ==> Apart(log[i], log[j]);
    assert j < i ==> Apart(log[j], log[i]);
  }

  /** Chunk independence: two runs that have committed the same anchors, in whatever chunks and with whatever
      garbage collection, storage contents and failed ledger reads in between, have ordered the same
      certificates under each of them, in the same order. */
  lemma ChunkIndependence(p: Params, run: seq<Event>, run': seq<Event>)
    requires ValidParams(p)
    requires Anchors(After(p, run).engine.log) == Anchors(After(p, run').engine.log)
    ensures Subdags(After(p, run).engine.log) == Subdags(After(p, run').engine.log)
  {
    hide After;
    hide IdealSubdags;
    LogIsIdeal(p, run);
    LogIsIdeal(p, run');
  }

  // The ledger only grows.

  lemma {:induction false} CommitAnchorsExtends(e: Engine, gcRounds: nat, anchors: seq<Certificate>,
                                                answers: seq<Answer>)
    requires WellStored(e.stored)
    ensures e.log <= CommitAnchors(e, gcRounds, anchors, answers).engine.log
    decreases |anchors|
  {
    hide OrderDag;
    if anchors != [] && answers != [] {
      var r := CommitAnchor(e, gcRounds, anchors[0], answers[0]);
      if r.Some? {
        CommitAnchorsExtends(r.value, gcRounds, anchors[1..], answers[1..]);
      }
    }
  }

  lemma NextExtends(p: Params, n: Node, event: Event)
    ensures n.engine.log <= Next(p, n, event).engine.log
  {
    hide Committable;
    hide WalkBack;
    hide CommitAnchors;
    if Enabled(p, n, event) && event.Deliver? {
      var e := n.engine.(dag := AfterInsert(n.engine.dag, event.certificate));
      var a := Committable(e.dag, p.leader, event.known, event.certificate);
      if a.Some? {
        var w := WalkBack(e.dag, p.leader, a.value.round - 2, a.value);
        if w.Some? {
          CommitAnchorsExtends(e, p.gcRounds, w.value + [a.value], event.answers);
        }
      }
    }
  }

  /** What a run has committed stays committed, in place, whatever happens next. */
  lemma {:induction false} CommitsArePermanent(p: Params, run: seq<Event>, more: seq<Event>)
    ensures After(p, run).engine.log <= After(p, run + more).engine.log
    decreases |more|
  {
    hide Next;
    if more == [] {
      assert run + more == run;
    } else {
      var init := more[..|more| - 1];
      assert (run + more)[..|run + more| - 1] == run + init;
      CommitsArePermanent(p, run, init);
      NextExtends(p, After(p, run + init), more[|more| - 1]);
    }
  }

  /** A restart at any point of a run leaves the last committed round and the recent IDs as they were. */
  lemma RestartKeepsCounters(p: Params, run: seq<Event>)
    requires ValidParams(p)
    ensures var d, d' := After(p, run).engine.dag, After(p, run + [Restart]).engine.dag;
            d'.last == d.last && d'.recent == d.recent
  {
    hide Inv;
    hide StorageOk;
    hide DagOk;
    hide LedgerOk;
    hide DeliveredOk;
    hide LogOk;
    hide Rebooted;
    RunKeeps(p, run);
    assert (run + [Restart])[..|run|] == run;
    InvFacts(p, After(p, run));
    LogFacts(p, After(p, run));
    RebootCounters(p, After(p, run));
  }

  lemma RebootCounters(p: Params, n: Node)
    requires LogOk(n.engine.log) && LedgerOk(p, n)
    ensures var d := Rebooted(n.engine.log, p.gcRounds).dag;
            d.last == n.engine.dag.last && d.recent == n.engine.dag.recent
  {
    RebootTracks(n.engine.log, p.gcRounds);
    TracksDetermines(n.engine.dag, Rebooted(n.engine.log, p.gcRounds).dag, Committed(n.engine.log), p.gcRounds);
  }

  /** Anchor inclusion after any run: a leader above the last committed round with availability support
      in the DAG is in the chain that committing any later delivered leader walks. */
  lemma SupportedLeaderIsCommittedNext(p: Params, run: seq<Event>, a: Certificate, c: Certificate)
    requires ValidParams(p)
    requires var n := After(p, run);
             && InGraph(n.engine.dag, a) && a.author == p.leader && a.round % 2 == 0 && a.round > n.engine.dag.last
             && Supported(Certificates(n.engine.dag), a, p.committee)
             && c in n.delivered && c.round % 2 == 0 && c.round > a.round
    ensures var walk := WalkBack(After(p, run).engine.dag, p.leader, c.round - 2, c);
            walk.Some? && a in walk.value
  {
    hide After;
    hide Inv;
    hide StorageOk;
    hide DagOk;
    hide LedgerOk;
    hide DeliveredOk;
    hide Supported;
    hide WalkBack;
    RunKeeps(p, run);
    InvFacts(p, After(p, run));
    SupportedIsWalked(p, After(p, run), a, c.round - 2, c);
  }
}
