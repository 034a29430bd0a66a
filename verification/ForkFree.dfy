/** The exact condition for agreement on whole blocks: a run never forks from a run without dropped
    transmissions if and only if no failed lookup drops a transmission of one of its own blocks. For the
    converse, a run is mended: the same events with every lookup succeeding and every transmission provided
    commit the same anchors with whole blocks. */
module ForkFree {
  import opened Types
  import opened Committees
  import opened Dags
  import opened Dfs
  import opened Blocks
  import opened Memories
  import opened Engines
  import opened Nodes
  import opened NodeProofs
  import opened NodeRuns
  import opened Agreement
  import opened NoFork

  /** Two nodes that differ only in their transmissions, the second having aborted none. */
  ghost predicate Twins(n: Node, n': Node) {
    && n'.ever == n.ever && n'.delivered == n.delivered
    && TwinEngines(n.engine, n'.engine)
  }

  ghost predicate TwinEngines(e: Engine, e': Engine) {
    && e'.dag == e.dag && e'.stored == e.stored && e'.gcRound == e.gcRound
    && Anchors(e'.log) == Anchors(e.log) && Subdags(e'.log) == Subdags(e.log)
    && e'.memory.aborted == map[]
  }

  /** What the log contributes besides transmissions. */
  lemma TwinLogs(log: seq<Block>, log': seq<Block>)
    requires Anchors(log) == Anchors(log') && Subdags(log) == Subdags(log')
    ensures |log| == |log'| && LedgerIds(log) == LedgerIds(log') && Committed(log) == Committed(log')
    ensures LastRound(log) == LastRound(log')
  {
    LedgerIdsAreSubdagIds(log);
    LedgerIdsAreSubdagIds(log');
    assert |Anchors(log)| == |log| && |Anchors(log')| == |log'|;
    CommittedBySubdags(log, log');
    CommittedBySubdags(log', log);
    if log != [] {
      assert Anchors(log)[|log| - 1] == Anchors(log')[|log| - 1];
    }
  }

  lemma CommittedBySubdags(log: seq<Block>, log': seq<Block>)
    requires Subdags(log) == Subdags(log') && |log| == |log'|
    ensures Committed(log) <= Committed(log')
  {
    forall c | c in Committed(log)
      ensures c in Committed(log')
    {
      var b :| b in log && c in b.certificates;
      var i :| 0 <= i < |log| && log[i] == b;
      assert Subdags(log)[i] == Subdags(log')[i];
      assert log'[i] in log' && c in log'[i].certificates;
    }
  }

  lemma {:induction false} TwinCertificates(blocks: seq<Block>, blocks': seq<Block>)
    requires Subdags(blocks) == Subdags(blocks') && |blocks| == |blocks'|
    ensures AllCertificates(blocks) == AllCertificates(blocks')
    decreases |blocks|
  {
    if blocks != [] {
      assert Subdags(blocks)[0] == Subdags(blocks')[0];
      assert Subdags(blocks[1..]) == Subdags(blocks)[1..] && Subdags(blocks'[1..]) == Subdags(blocks')[1..];
      TwinCertificates(blocks[1..], blocks'[1..]);
    }
  }

  const CLEAR := Answer({}, {}, true)

  function Clear(k: nat): seq<Answer> {
    seq(k, _ => CLEAR)
  }

  // Committing the same anchors.

  lemma TwinCommit(p: Params, n: Node, n': Node, a: Certificate, answer: Answer)
    requires Inv(p, n) && Inv(p, n') && Twins(n, n') && IsAnchor(n, a)
    requires CommitAnchor(n.engine, p.gcRounds, a, answer).Some?
    ensures CommitAnchor(n'.engine, p.gcRounds, a, CLEAR).Some?
    ensures TwinEngines(CommitAnchor(n.engine, p.gcRounds, a, answer).value,
                        CommitAnchor(n'.engine, p.gcRounds, a, CLEAR).value)
  {
    hide Inv;
    hide OrderDag;
    hide IdealSubdag;
    hide Gather;
    hide FirstNew;
    hide Collects;
    hide AfterCommits;
    TwinLogs(n.engine.log, n'.engine.log);
    AnchorCommitsIn(p, n, a, answer);
    AnchorCommitsIn(p, n', a, CLEAR);
    AnchorOrders(p, n, a, answer.unreadableCertificates);
    AnchorOrders(p, n', a, {});
    var subdag := OrderDag(ViewOf(n.engine, p.gcRounds, answer.unreadableCertificates), a).value;
    var subdag' := OrderDag(ViewOf(n'.engine, p.gcRounds, {}), a).value;
    var certificates := Flatten(subdag, a.round);
    assert Flatten(subdag', a.round) == certificates;
    LogGrows(n.engine.log,
        Block(a, certificates, Gather(SourcesOf(n.engine, answer), Declared(certificates), []).value));
    LogGrows(n'.engine.log,
        Block(a, certificates, Gather(SourcesOf(n'.engine, CLEAR), Declared(certificates), []).value));
  }

  lemma ClearTail(k: nat)
    requires k > 0
    ensures Clear(k) != [] && Clear(k)[0] == CLEAR && Clear(k)[1..] == Clear(k - 1)
  {
  }

  /** A chunk that commits `k` anchors commits the same ones when exactly `k` answers are clear. */
  lemma {:induction false} TwinCommits(p: Params, n: Node, n': Node, anchors: seq<Certificate>, answers: seq<Answer>)
    returns (k: nat)
    requires Inv(p, n) && Inv(p, n') && Twins(n, n') && Chain(n, anchors)
    ensures WellStored(n.engine.stored) && WellStored(n'.engine.stored)
    ensures var o := CommitAnchors(n.engine, p.gcRounds, anchors, answers);
            var o' := CommitAnchors(n'.engine, p.gcRounds, anchors, Clear(k));
            TwinEngines(o.engine, o'.engine) && o'.finished == o.finished
    decreases |anchors|
  {
    hide Inv;
    hide StorageOk;
    hide DagOk;
    hide LedgerOk;
    hide DeliveredOk;
    hide MemoryOk;
    hide CommitAnchor;
    hide TwinEngines;
    hide Clear;
    k := 0;
    InvFacts(p, n);
    InvFacts(p, n');
    NothingClear();
    if anchors != [] && answers != [] {
      var r := CommitAnchor(n.engine, p.gcRounds, anchors[0], answers[0]);
      if r.Some? {
        assert IsAnchor(n, anchors[0]);
        TwinCommit(p, n, n', anchors[0], answers[0]);
        var r' := CommitAnchor(n'.engine, p.gcRounds, anchors[0], CLEAR);
        CommitAnchorKeeps(p, n, anchors[0], answers[0]);
        CommitAnchorKeepsTwin(p, n, n', anchors[0]);
        ChainContinues(n, r.value, anchors);
        k := TwinCommits(p, n.(engine := r.value), n'.(engine := r'.value), anchors[1..], answers[1..]);
        k := k + 1;
        ClearTail(k);
      }
    }
  }

  lemma NothingClear()
    ensures Clear(0) == []
  {
  }

  lemma CommitAnchorKeepsTwin(p: Params, n: Node, n': Node, a: Certificate)
    requires Inv(p, n') && Twins(n, n') && IsAnchor(n, a)
    requires WellStored(n'.engine.stored) && CommitAnchor(n'.engine, p.gcRounds, a, CLEAR).Some?
    ensures Inv(p, n'.(engine := CommitAnchor(n'.engine, p.gcRounds, a, CLEAR).value))
  {
    hide Inv;
    hide CommitAnchor;
    CommitAnchorKeeps(p, n', a, CLEAR);
  }

  // The same events.

  lemma TwinCollect(e: Engine, e': Engine, gcRounds: nat, round: Round)
    requires TwinEngines(e, e')
    ensures TwinEngines(CollectGarbage(e, gcRounds, round), CollectGarbage(e', gcRounds, round))
  {
  }

  lemma TwinCommitLeader(p: Params, n: Node, n': Node, a: Certificate, answers: seq<Answer>) returns (k: nat)
    requires Inv(p, n) && Inv(p, n') && Twins(n, n') && IsAnchor(n, a)
    ensures WellStored(n.engine.stored) && WellStored(n'.engine.stored)
    ensures TwinEngines(CommitLeader(n.engine, p.gcRounds, p.leader, a, answers),
                        CommitLeader(n'.engine, p.gcRounds, p.leader, a, Clear(k)))
  {
    hide Inv;
    hide StorageOk;
    hide DagOk;
    hide LedgerOk;
    hide DeliveredOk;
    hide MemoryOk;
    hide WalkBack;
    hide CommitAnchors;
    hide CollectGarbage;
    hide Clear;
    InvFacts(p, n);
    InvFacts(p, n');
    WalkSucceeds(p, n, a.round - 2, a);
    var anchors := WalkBack(n.engine.dag, p.leader, a.round - 2, a).value + [a];
    k := TwinCommits(p, n, n', anchors, answers);
    TwinCollect(CommitAnchors(n.engine, p.gcRounds, anchors, answers).engine,
                CommitAnchors(n'.engine, p.gcRounds, anchors, Clear(k)).engine, p.gcRounds, a.round);
  }

  lemma TwinDeliver(p: Params, n: Node, n': Node, c: Certificate, known: map<Round, Committee>, answers: seq<Answer>)
    returns (k: nat)
    requires Inv(p, n) && Inv(p, n') && Twins(n, n') && Enabled(p, n, Deliver(c, known, answers))
    ensures Twins(Next(p, n, Deliver(c, known, answers)), Next(p, n', Deliver(c, known, Clear(k))))
  {
    hide Inv;
    hide StorageOk;
    hide DagOk;
    hide LedgerOk;
    hide DeliveredOk;
    hide MemoryOk;
    hide Committable;
    hide CommitLeader;
    hide AfterInsert;
    hide Clear;
    k := 0;
    InvFacts(p, n');
    TwinLogs(n.engine.log, n'.engine.log);
    var dag := AfterInsert(n.engine.dag, c);
    var m := Node(n.engine.(dag := dag), n.ever, n.delivered + {c});
    var m' := Node(n'.engine.(dag := dag), n.ever, n.delivered + {c});
    InsertKeeps(p, n, c);
    InsertKeeps(p, n', c);
    var a := Committable(dag, p.leader, known, c);
    if a.Some? {
      InvFacts(p, m);
      CommittableIsAnchor(p, m, known, c);
      k := TwinCommitLeader(p, m, m', a.value, answers);
    }
  }

  /** A transmission for every declared ID. */
  function Filled(c: Certificate, provided: map<TransmissionId, Transmission>): map<TransmissionId, Transmission> {
    map t | t in c.transmissions :: if t in provided then provided[t] else RatificationData
  }

  lemma TwinStore(p: Params, n: Node, n': Node, c: Certificate, provided: map<TransmissionId, Transmission>,
                  aborted: set<TransmissionId>)
    requires Twins(n, n') && Enabled(p, n, Store(c, provided, aborted))
    ensures Twins(Next(p, n, Store(c, provided, aborted)), Next(p, n', Store(c, Filled(c, provided), {})))
  {
    assert HoldAborted(map[], c.id, {}) == map[];
    hide InWorld;
    hide HoldEntries;
  }

  lemma TwinRestart(p: Params, n: Node, n': Node)
    requires Twins(n, n')
    ensures Twins(Next(p, n, Restart), Next(p, n', Restart))
  {
    hide AfterCommits;
    hide AllCertificates;
    var log, log' := n.engine.log, n'.engine.log;
    TwinLogs(log, log');
    var start := Monus(|log|, p.gcRounds / 2 + 1);
    assert Subdags(log[start..]) == Subdags(log)[start..] && Subdags(log'[start..]) == Subdags(log')[start..];
    TwinCertificates(Window(log, p.gcRounds), Window(log', p.gcRounds));
  }

  lemma {:induction false} ClearIsHarmless(e: Engine, gcRounds: nat, anchors: seq<Certificate>, k: nat)
    requires WellStored(e.stored)
    ensures HarmlessChunk(e, gcRounds, anchors, Clear(k))
    decreases |anchors|
  {
    hide OrderDag;
    if anchors != [] && k > 0 {
      var r := CommitAnchor(e, gcRounds, anchors[0], CLEAR);
      ClearTail(k);
      if r.Some? {
        ClearIsHarmless(r.value, gcRounds, anchors[1..], k - 1);
      }
    }
  }

  /** The mended event. */
  lemma TwinEvent(p: Params, n: Node, n': Node, event: Event) returns (event': Event)
    requires Inv(p, n) && Inv(p, n') && Twins(n, n') && Enabled(p, n, event)
    ensures Twins(Next(p, n, event), Next(p, n', event')) && HarmlessEvent(p, n', event')
  {
    hide Inv;
    hide Next;
    hide Twins;
    hide HarmlessChunk;
    match event
    case Store(c, provided, aborted) =>
      TwinStore(p, n, n', c, provided, aborted);
      event' := Store(c, Filled(c, provided), {});
    case Deliver(c, known, answers) =>
      var k := TwinDeliver(p, n, n', c, known, answers);
      event' := Deliver(c, known, Clear(k));
      InvFacts(p, n');
      var e := n'.engine.(dag := AfterInsert(n'.engine.dag, c));
      ClearIsHarmless(e, p.gcRounds, ChunkOf(p, e, known, c), k);
    case Restart =>
      TwinRestart(p, n, n');
      event' := Restart;
  }

  lemma StartsAsTwins(p: Params)
    ensures Twins(After(p, []), After(p, []))
  {
  }

  /** Every run has a mended one. */
  lemma {:induction false} Mend(p: Params, run: seq<Event>) returns (run': seq<Event>)
    requires ValidParams(p)
    ensures Twins(After(p, run), After(p, run')) && HarmlessRun(p, run')
  {
    hide After;
    hide Next;
    hide Twins;
    hide Inv;
    hide HarmlessRun;
    hide HarmlessEvent;
    if run == [] {
      run' := [];
      StartsAsTwins(p);
      NothingYet(p);
    } else {
      var init, event := run[..|run| - 1], run[|run| - 1];
      assert run == init + [event];
      run' := Mend(p, init);
      AfterGrows(p, init, event);
      RunKeeps(p, init);
      RunKeeps(p, run');
      if Enabled(p, After(p, init), event) {
        var event' := TwinEvent(p, After(p, init), After(p, run'), event);
        AfterGrows(p, run', event');
        HarmlessRunGrows(p, run', event');
        run' := run' + [event'];
      } else {
        DisabledStays(p, After(p, init), event);
      }
    }
  }

  lemma DisabledStays(p: Params, n: Node, event: Event)
    requires !Enabled(p, n, event)
    ensures Next(p, n, event) == n
  {
  }

  lemma DifferentBlocks(log: seq<Block>, log': seq<Block>)
    requires |log| == |log'| && log != log'
    ensures !Comparable(log, log')
  {
    assert log[..|log|] == log && log'[..|log'|] == log';
  }

  /** The exact condition: a run's ledger is comparable to that of every run without dropped transmissions if
      and only if no failed lookup drops a transmission of one of its own blocks. */
  lemma NeverForksExactly(p: Params, run: seq<Event>)
    requires ValidWorld(p)
    ensures HarmlessRun(p, run) <==>
              forall run' :: HarmlessRun(p, run') ==> Comparable(After(p, run).engine.log, After(p, run').engine.log)
  {
    hide ValidWorld;
    hide After;
    hide Faithful;
    hide HarmlessRun;
    if HarmlessRun(p, run) {
      forall run' | HarmlessRun(p, run')
        ensures Comparable(After(p, run).engine.log, After(p, run').engine.log)
      {
        LedgersNeverFork(p, run, run');
      }
    } else {
      WorldIsParams(p);
      var run' := Mend(p, run);
      RunFaithfulExactly(p, run);
      RunFaithfulExactly(p, run');
      TwinLogs(After(p, run).engine.log, After(p, run').engine.log);
      DifferentBlocks(After(p, run).engine.log, After(p, run').engine.log);
    }
  }
}
