/** No fork: the blocks themselves, with their transmissions, are the same in any two runs as far as both
    have got, as long as no failed ledger lookup drops a transmission; and an anchor is refused only for a
    stated reason. */
module NoFork {
  import opened Types
  import opened Committees
  import opened Dags
  import opened Dfs
  import opened DfsExactness
  import opened Blocks
  import opened Memories
  import opened Engines
  import opened Nodes
  import opened NodeProofs
  import opened NodeRuns
  import opened Agreement

  // When an anchor commits.

  /** Every certificate that an anchor commits is still stored. */
  lemma SubdagIsStored(p: Params, n: Node, unreadable: set<Id>, a: Certificate, certificates: seq<Certificate>)
    requires StorageOk(p, n) && DagOk(n) && LedgerOk(p, n)
    requires IsAnchor(n, a) && Collects(p, n, unreadable, a, certificates)
    ensures forall d :: d in certificates ==> d.id in n.engine.stored && n.engine.stored[d.id] == d
  {
    var v := ViewOf(n.engine, p.gcRounds, unreadable);
    forall d | d in certificates
      ensures d.id in n.engine.stored && n.engine.stored[d.id] == d
    {
      assert InWorld(p, d);
      if d == a {
        assert InWorld(p, n.engine.stored[a.id]);
      } else {
        var c := ReachesLastStep(v, a, d);
        assert c in certificates;
        var d' := ParentIsStored(p, n, c, d.id);
      }
    }
  }

  lemma {:induction false} DeclaredBySome(certificates: seq<Certificate>, t: TransmissionId) returns (c: Certificate)
    requires t in Declared(certificates)
    ensures c in certificates && t in c.transmissions
  {
    c := certificates[0];
    if t !in c.transmissions {
      c := DeclaredBySome(certificates[1..], t);
    }
  }

  /** Storage has recorded the transmission for its certificates, but only as aborted. */
  predicate AbortedOnly(m: Memory, t: TransmissionId) {
    t in m.aborted && t !in m.transmissions
  }

  /** What stored certificates declare is in memory unless it is recorded as aborted only. */
  lemma DeclaredIsRecorded(n: Node, certificates: seq<Certificate>, t: TransmissionId)
    requires MemoryOk(n) && t in Declared(certificates)
    requires forall d :: d in certificates ==> d.id in n.engine.stored && n.engine.stored[d.id] == d
    ensures t in n.engine.memory.transmissions <==> !AbortedOnly(n.engine.memory, t)
  {
    var c := DeclaredBySome(certificates, t);
    assert Declares(n.engine.stored, c.id, t);
    assert Recorded(n.engine.memory, c.id, t);
  }

  /** An anchor of a reachable state commits exactly when consensus accepts the block, no certificate
      declares a ratification, and no transmission that the block must include is recorded as aborted only:
      storage has lost nothing else. */
  lemma AnchorCommitsIn(p: Params, n: Node, a: Certificate, answer: Answer)
    requires Inv(p, n) && IsAnchor(n, a)
    ensures WellStored(n.engine.stored)
    ensures var declared := Declared(IdealSubdag(p, LedgerIds(n.engine.log), n.engine.dag.last, a));
            CommitAnchor(n.engine, p.gcRounds, a, answer).Some? <==>
              && answer.accepted
              && Ratification !in declared
              && forall t :: FirstNew(SourcesOf(n.engine, answer), declared, t) ==> !AbortedOnly(n.engine.memory, t)
  {
    hide Inv;
    hide StorageOk;
    hide MemoryOk;
    hide DagOk;
    hide LedgerOk;
    hide DeliveredOk;
    hide OrderDag;
    hide IdealSubdag;
    hide Collects;
    hide CommitAnchor;
    hide AbortedOnly;
    hide FirstNewAt;
    InvFacts(p, n);
    AnchorOrders(p, n, a, answer.unreadableCertificates);
    BlockDecides(n.engine, p.gcRounds, a, answer);
    var subdag := IdealSubdag(p, LedgerIds(n.engine.log), n.engine.dag.last, a);
    GatherSucceeds(SourcesOf(n.engine, answer), Declared(subdag), []);
    NoKeys();
    SubdagIsStored(p, n, answer.unreadableCertificates, a, subdag);
    forall t | FirstNew(SourcesOf(n.engine, answer), Declared(subdag), t)
      ensures t in n.engine.memory.transmissions <==> !AbortedOnly(n.engine.memory, t)
    {
      DeclaredIsRecorded(n, subdag, t);
    }
  }

  /** The same after any run. */
  lemma AnchorCommitsExactly(p: Params, run: seq<Event>, a: Certificate, answer: Answer)
    requires ValidParams(p) && IsAnchor(After(p, run), a)
    ensures WellStored(After(p, run).engine.stored)
    ensures var e := After(p, run).engine;
            var declared := Declared(IdealSubdag(p, LedgerIds(e.log), e.dag.last, a));
            CommitAnchor(e, p.gcRounds, a, answer).None? <==>
              || !answer.accepted
              || Ratification in declared
              || exists t :: FirstNew(SourcesOf(e, answer), declared, t) && AbortedOnly(e.memory, t)
  {
    hide After;
    hide Inv;
    hide CommitAnchor;
    hide IdealSubdag;
    RunKeeps(p, run);
    AnchorCommitsIn(p, After(p, run), a, answer);
  }

  lemma NoKeys()
    ensures KeysOf([]) == {}
  {
  }

  /** In any state, an anchor commits exactly when its subdag can be ordered and has the anchor's round as its
      highest, its block can be built, and consensus accepts it. */
  lemma BlockDecides(e: Engine, gcRounds: nat, a: Certificate, answer: Answer)
    requires WellStored(e.stored)
    ensures CommitAnchor(e, gcRounds, a, answer).Some? <==>
              var subdag := OrderDag(ViewOf(e, gcRounds, answer.unreadableCertificates), a);
              && subdag.Some?
              && a.round in subdag.value && (forall r :: r in subdag.value ==> r <= a.round)
              && Gather(SourcesOf(e, answer), Declared(Flatten(subdag.value, a.round)), []).Some?
              && answer.accepted
  {
    hide OrderDag;
    hide AfterCommits;
    hide Gather;
  }

  // Failed ledger lookups of transmissions.

  /** The transmissions of a block when every ledger lookup succeeds. */
  function WholeBlock(log: seq<Block>, certificates: seq<Certificate>): seq<TransmissionId> {
    Select(LedgerKeys(log), {}, Declared(certificates), [])
  }

  /** The transmissions of every block follow from its certificates and the blocks before it. */
  ghost predicate Faithful(log: seq<Block>) {
    forall i :: 0 <= i < |log| ==> log[i].transmissions == WholeBlock(log[..i], log[i].certificates)
  }

  /** No failed lookup drops a transmission of the anchor's block. */
  ghost predicate Harmless(e: Engine, gcRounds: nat, a: Certificate, answer: Answer)
    requires WellStored(e.stored)
  {
    match OrderDag(ViewOf(e, gcRounds, answer.unreadableCertificates), a)
    case None => true
    case Some(subdag) =>
      forall t :: t in WholeBlock(e.log, Flatten(subdag, a.round)) ==> t !in answer.unreadableTransmissions
  }

  /** The same for every anchor that a chunk commits. */
  ghost predicate HarmlessChunk(e: Engine, gcRounds: nat, anchors: seq<Certificate>, answers: seq<Answer>)
    requires WellStored(e.stored)
    decreases |anchors|
  {
    anchors == [] || answers == [] ||
    match CommitAnchor(e, gcRounds, anchors[0], answers[0])
    case None => true
    case Some(e') =>
      Harmless(e, gcRounds, anchors[0], answers[0]) && HarmlessChunk(e', gcRounds, anchors[1..], answers[1..])
  }

  /** The chunk that delivering a certificate sets out to commit, if any. */
  ghost function ChunkOf(p: Params, e: Engine, known: map<Round, Committee>, c: Certificate): seq<Certificate> {
    match Committable(e.dag, p.leader, known, c)
    case None => []
    case Some(a) =>
      match WalkBack(e.dag, p.leader, a.round - 2, a)
      case None => []
      case Some(older) => older + [a]
  }

  /** Its anchors can be committed in order. */
  lemma ChunkIsChain(p: Params, n: Node, known: map<Round, Committee>, c: Certificate)
    requires Inv(p, n)
    ensures Chain(n, ChunkOf(p, n.engine, known, c))
  {
    hide Inv;
    hide StorageOk;
    hide MemoryOk;
    hide DagOk;
    hide LedgerOk;
    hide DeliveredOk;
    hide WalkBack;
    hide Committable;
    InvFacts(p, n);
    var a := Committable(n.engine.dag, p.leader, known, c);
    if a.Some? {
      CommittableIsAnchor(p, n, known, c);
      WalkSucceeds(p, n, a.value.round - 2, a.value);
    }
  }

  ghost predicate HarmlessEvent(p: Params, n: Node, event: Event) {
    Enabled(p, n, event) && event.Deliver? ==>
      var e := n.engine.(dag := AfterInsert(n.engine.dag, event.certificate));
      HarmlessChunk(e, p.gcRounds, ChunkOf(p, e, event.known, event.certificate), event.answers)
  }

  /** Over the whole run, no failed lookup drops a transmission of a committed block. */
  ghost predicate HarmlessRun(p: Params, run: seq<Event>) {
    forall i :: 0 <= i < |run| ==> HarmlessEvent(p, After(p, run[..i]), run[i])
  }

  lemma FaithfulGrows(log: seq<Block>, b: Block)
    ensures Faithful(log + [b]) <==> Faithful(log) && b.transmissions == WholeBlock(log, b.certificates)
  {
    var log' := log + [b];
    assert log'[..|log|] == log && log'[|log|] == b;
    assert forall i :: 0 <= i < |log| ==> log'[..i] == log[..i] && log'[i] == log[i];
  }

  lemma CommitAnchorFaithful(e: Engine, gcRounds: nat, anchor: Certificate, answer: Answer)
    requires WellStored(e.stored) && CommitAnchor(e, gcRounds, anchor, answer).Some?
    ensures Faithful(CommitAnchor(e, gcRounds, anchor, answer).value.log) <==>
              Faithful(e.log) && Harmless(e, gcRounds, anchor, answer)
  {
    hide Faithful;
    hide OrderDag;
    var subdag := OrderDag(ViewOf(e, gcRounds, answer.unreadableCertificates), anchor).value;
    var certificates := Flatten(subdag, anchor.round);
    FailedReadsMatterExactly(SourcesOf(e, answer), Declared(certificates));
    FaithfulGrows(e.log, Block(anchor, certificates, Gather(SourcesOf(e, answer), Declared(certificates), []).value));
  }

  lemma {:induction false} CommitAnchorsFaithful(e: Engine, gcRounds: nat, anchors: seq<Certificate>,
                                                 answers: seq<Answer>)
    requires WellStored(e.stored)
    ensures Faithful(CommitAnchors(e, gcRounds, anchors, answers).engine.log) <==>
              Faithful(e.log) && HarmlessChunk(e, gcRounds, anchors, answers)
    decreases |anchors|
  {
    hide Faithful;
    hide Harmless;
    if anchors != [] && answers != [] {
      var r := CommitAnchor(e, gcRounds, anchors[0], answers[0]);
      if r.Some? {
        CommitAnchorFaithful(e, gcRounds, anchors[0], answers[0]);
        CommitAnchorsFaithful(r.value, gcRounds, anchors[1..], answers[1..]);
      }
    }
  }

  /** An event grows the log by committing its chunk. */
  lemma NextCommits(p: Params, n: Node, event: Event)
    ensures Enabled(p, n, event) && event.Deliver? ==>
              var e := n.engine.(dag := AfterInsert(n.engine.dag, event.certificate));
              Next(p, n, event).engine.log ==
                CommitAnchors(e, p.gcRounds, ChunkOf(p, e, event.known, event.certificate), event.answers).engine.log
    ensures !(Enabled(p, n, event) && event.Deliver?) ==> Next(p, n, event).engine.log == n.engine.log
  {
    hide Committable;
    hide WalkBack;
    hide CommitAnchor;
  }

  lemma NextFaithful(p: Params, n: Node, event: Event)
    ensures Faithful(Next(p, n, event).engine.log) <==> Faithful(n.engine.log) && HarmlessEvent(p, n, event)
  {
    hide Faithful;
    hide HarmlessChunk;
    hide CommitAnchors;
    hide ChunkOf;
    hide Next;
    NextCommits(p, n, event);
    if Enabled(p, n, event) && event.Deliver? {
      var e := n.engine.(dag := AfterInsert(n.engine.dag, event.certificate));
      CommitAnchorsFaithful(e, p.gcRounds, ChunkOf(p, e, event.known, event.certificate), event.answers);
    }
  }

  /** The blocks of a run are whole exactly when no failed lookup drops a transmission of one. */
  lemma {:induction false} RunFaithfulExactly(p: Params, run: seq<Event>)
    ensures Faithful(After(p, run).engine.log) <==> HarmlessRun(p, run)
  {
    hide After;
    hide Next;
    hide Faithful;
    hide HarmlessRun;
    hide HarmlessEvent;
    if run == [] {
      NothingYet(p);
    } else {
      var init, event := run[..|run| - 1], run[|run| - 1];
      assert run == init + [event];
      RunFaithfulExactly(p, init);
      AfterGrows(p, init, event);
      NextFaithful(p, After(p, init), event);
      HarmlessRunGrows(p, init, event);
    }
  }

  lemma AfterGrows(p: Params, run: seq<Event>, event: Event)
    ensures After(p, run + [event]) == Next(p, After(p, run), event)
  {
    assert (run + [event])[..|run|] == run;
  }

  lemma NothingYet(p: Params)
    ensures Faithful(After(p, []).engine.log) && HarmlessRun(p, [])
  {
  }

  lemma HarmlessRunGrows(p: Params, run: seq<Event>, event: Event)
    ensures HarmlessRun(p, run + [event]) <==> HarmlessRun(p, run) && HarmlessEvent(p, After(p, run), event)
  {
    hide HarmlessEvent;
    hide After;
    var run' := run + [event];
    assert run'[..|run|] == run && run'[|run|] == event;
    assert forall i :: 0 <= i < |run| ==> run'[..i] == run[..i] && run'[i] == run[i];
  }

  // Agreement on whole blocks.

  /** Faithful logs with the same anchors and subdags have the same blocks. */
  lemma {:induction false} SameBlocks(log: seq<Block>, log': seq<Block>, k: nat)
    requires Faithful(log) && Faithful(log')
    requires k <= |log| <= |log'|
    requires Anchors(log) <= Anchors(log') && Subdags(log) <= Subdags(log')
    ensures log[..k] == log'[..k]
    decreases k
  {
    if k > 0 {
      SameBlocks(log, log', k - 1);
      var i := k - 1;
      assert Anchors(log)[i] == Anchors(log')[i] && Subdags(log)[i] == Subdags(log')[i];
      assert log[i] == log'[i];
      assert log[..k] == log[..i] + [log[i]] && log'[..k] == log'[..i] + [log'[i]];
    }
  }

  /** One ledger is a prefix of the other, block for block. */
  ghost predicate Comparable(log: seq<Block>, log': seq<Block>) {
    log <= log' || log' <= log
  }

  /** No fork: two runs over the same certificates in which no failed lookup drops a transmission of a
      committed block have comparable ledgers. */
  lemma LedgersNeverFork(p: Params, run: seq<Event>, run': seq<Event>)
    requires ValidWorld(p) && HarmlessRun(p, run) && HarmlessRun(p, run')
    ensures Comparable(After(p, run).engine.log, After(p, run').engine.log)
  {
    hide ValidWorld;
    hide After;
    hide Faithful;
    hide HarmlessRun;
    var log, log' := After(p, run).engine.log, After(p, run').engine.log;
    RunsAgree(p, run, run');
    RunFaithfulExactly(p, run);
    RunFaithfulExactly(p, run');
    if Anchors(log) <= Anchors(log') && Subdags(log) <= Subdags(log') {
      SameBlocks(log, log', |log|);
      assert log[..|log|] == log;
    } else {
      SameBlocks(log', log, |log'|);
      assert log'[..|log'|] == log';
    }
  }
}
