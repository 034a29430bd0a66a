/** How the blocks of a run came about: each was committed from a state that satisfies the invariant. Hence the
    order within every block is fixed without the traversal, and every prefix of the ledger is causally complete. */
module Histories {
  import opened Types
  import opened Dags
  import opened Dfs
  import opened DfsExactness
  import opened DfsOrder
  import opened Blocks
  import opened Engines
  import opened Nodes
  import opened NodeProofs
  import opened NodeRuns
  import opened Agreement
  import opened NoFork

  /** Committing the anchor of `b` in the state `n` appends `b`. */
  ghost predicate Commits(p: Params, n: Node, answer: Answer, b: Block) {
    && Inv(p, n) && IsAnchor(n, b.anchor)
    && WellStored(n.engine.stored)
    && var r := CommitAnchor(n.engine, p.gcRounds, b.anchor, answer);
       r.Some? && r.value.log == n.engine.log + [b]
  }

  /** `b` was committed on top of `before`. */
  ghost predicate CommittedOn(p: Params, before: seq<Block>, b: Block) {
    exists n: Node, answer: Answer :: Commits(p, n, answer, b) && n.engine.log == before
  }

  /** Every block was. */
  ghost predicate Accounted(p: Params, log: seq<Block>) {
    forall i :: 0 <= i < |log| ==> CommittedOn(p, log[..i], log[i])
  }

  lemma AccountedGrows(p: Params, log: seq<Block>, b: Block)
    requires Accounted(p, log) && CommittedOn(p, log, b)
    ensures Accounted(p, log + [b])
  {
    hide CommittedOn;
    var log' := log + [b];
    assert log'[..|log|] == log && log'[|log|] == b;
    assert forall i :: 0 <= i < |log| ==> log'[..i] == log[..i] && log'[i] == log[i];
  }

  lemma CommitAnchorHistory(p: Params, n: Node, a: Certificate, answer: Answer)
    requires Inv(p, n) && IsAnchor(n, a) && Accounted(p, n.engine.log)
    requires WellStored(n.engine.stored) && CommitAnchor(n.engine, p.gcRounds, a, answer).Some?
    ensures Accounted(p, CommitAnchor(n.engine, p.gcRounds, a, answer).value.log)
  {
    hide Inv;
    hide OrderDag;
    hide Accounted;
    hide Gather;
    var log' := CommitAnchor(n.engine, p.gcRounds, a, answer).value.log;
    assert Commits(p, n, answer, log'[|n.engine.log|]);
    AccountedGrows(p, n.engine.log, log'[|n.engine.log|]);
  }

  lemma {:induction false} CommitAnchorsHistory(p: Params, n: Node, anchors: seq<Certificate>, answers: seq<Answer>)
    requires Inv(p, n) && Chain(n, anchors) && Accounted(p, n.engine.log)
    ensures WellStored(n.engine.stored)
    ensures Accounted(p, CommitAnchors(n.engine, p.gcRounds, anchors, answers).engine.log)
    decreases |anchors|
  {
    hide Inv;
    hide StorageOk;
    hide MemoryOk;
    hide DagOk;
    hide LedgerOk;
    hide DeliveredOk;
    hide CommitAnchor;
    hide Accounted;
    InvFacts(p, n);
    if anchors != [] && answers != [] {
      var r := CommitAnchor(n.engine, p.gcRounds, anchors[0], answers[0]);
      if r.Some? {
        assert IsAnchor(n, anchors[0]);
        CommitAnchorHistory(p, n, anchors[0], answers[0]);
        CommitAnchorKeeps(p, n, anchors[0], answers[0]);
        ChainContinues(n, r.value, anchors);
        CommitAnchorsHistory(p, n.(engine := r.value), anchors[1..], answers[1..]);
      }
    }
  }

  lemma NextHistory(p: Params, n: Node, event: Event)
    requires Inv(p, n) && Accounted(p, n.engine.log)
    ensures Accounted(p, Next(p, n, event).engine.log)
  {
    hide Inv;
    hide Accounted;
    hide Next;
    hide CommitAnchors;
    NextCommits(p, n, event);
    if Enabled(p, n, event) && event.Deliver? {
      var c := event.certificate;
      var n' := Node(n.engine.(dag := AfterInsert(n.engine.dag, c)), n.ever, n.delivered + {c});
      InsertKeeps(p, n, c);
      ChunkIsChain(p, n', event.known, c);
      CommitAnchorsHistory(p, n', ChunkOf(p, n'.engine, event.known, c), event.answers);
    }
  }

  lemma StartsEmpty(p: Params)
    ensures After(p, []).engine.log == []
  {
  }

  /** Every block of every run was committed from a state that satisfies the invariant. */
  lemma {:induction false} RunHistory(p: Params, run: seq<Event>)
    requires ValidParams(p)
    ensures Accounted(p, After(p, run).engine.log)
  {
    hide After;
    hide Next;
    hide Inv;
    if run == [] {
      StartsEmpty(p);
    } else {
      var init, event := run[..|run| - 1], run[|run| - 1];
      assert run == init + [event];
      RunHistory(p, init);
      RunKeeps(p, init);
      AfterGrows(p, init, event);
      NextHistory(p, After(p, init), event);
    }
  }

  // The order within a block.

  /** The previous certificate IDs are an ordered set. */
  ghost predicate DistinctParents(p: Params) {
    forall c :: c in p.world.Values ==> Distinct(c.parents)
  }

  lemma EverIsDistinct(p: Params, n: Node)
    requires StorageOk(p, n) && DistinctParents(p)
    ensures forall c :: c in n.ever ==> Distinct(c.parents)
  {
    hide Distinct;
    forall c | c in n.ever
      ensures Distinct(c.parents)
    {
      assert InWorld(p, c);
      assert p.world[c.id] in p.world.Values;
    }
  }

  /** The levels below an anchor as if nothing were ever pruned: each holds the uncommitted parents of the level
      above, from left to right, each at its first occurrence. */
  ghost function IdealLevels(p: Params, before: seq<Block>, anchor: Certificate): seq<Certificate> {
    LevelsUpTo(IdealView(p, LedgerIds(before), LastRound(before)), [anchor], anchor.round)
  }

  /** Ordering an anchor of a reachable state gives the levels of the ideal view. */
  lemma AnchorLevels(p: Params, n: Node, a: Certificate, unreadable: set<Id>)
    requires Inv(p, n) && IsAnchor(n, a) && DistinctParents(p)
    ensures OrderDag(ViewOf(n.engine, p.gcRounds, unreadable), a).Some?
    ensures Flatten(OrderDag(ViewOf(n.engine, p.gcRounds, unreadable), a).value, a.round) ==
              IdealLevels(p, n.engine.log, a)
  {
    hide Inv;
    hide StorageOk;
    hide MemoryOk;
    hide DagOk;
    hide DeliveredOk;
    hide DistinctParents;
    hide Distinct;
    hide Tracks;
    hide Sound;
    hide Agree;
    hide OrderDag;
    hide LevelsUpTo;
    InvFacts(p, n);
    EverIsDistinct(p, n);
    ViewIsSound(p, n, unreadable);
    var v, w := ViewOf(n.engine, p.gcRounds, unreadable), IdealView(p, LedgerIds(n.engine.log), n.engine.dag.last);
    BlockOrder(v, n.ever, a);
    LevelsUpToSame(v, w, n.ever, [a], a.round);
  }

  /** Left to right in every block of every run, whatever the certificates that exist. */
  lemma BlocksAreLeftToRight(p: Params, run: seq<Event>, i: nat)
    requires ValidParams(p) && DistinctParents(p)
    requires i < |After(p, run).engine.log|
    ensures var log := After(p, run).engine.log;
            log[i].certificates == IdealLevels(p, log[..i], log[i].anchor)
  {
    hide After;
    hide Inv;
    hide DistinctParents;
    hide OrderDag;
    hide IdealLevels;
    hide Gather;
    var log := After(p, run).engine.log;
    RunHistory(p, run);
    assert CommittedOn(p, log[..i], log[i]);
    var n: Node, answer: Answer :| Commits(p, n, answer, log[i]) && n.engine.log == log[..i];
    AnchorLevels(p, n, log[i].anchor, answer.unreadableCertificates);
    BlockOf(n, p.gcRounds, answer, log[i]);
  }

  /** The block that a commit appends. */
  lemma BlockOf(n: Node, gcRounds: nat, answer: Answer, b: Block)
    requires WellStored(n.engine.stored)
    requires var r := CommitAnchor(n.engine, gcRounds, b.anchor, answer);
             r.Some? && r.value.log == n.engine.log + [b]
    ensures OrderDag(ViewOf(n.engine, gcRounds, answer.unreadableCertificates), b.anchor).Some?
    ensures b.certificates ==
              Flatten(OrderDag(ViewOf(n.engine, gcRounds, answer.unreadableCertificates), b.anchor).value,
                      b.anchor.round)
    ensures Gather(SourcesOf(n.engine, answer), Declared(b.certificates), []) == Some(b.transmissions)
  {
    hide OrderDag;
    hide Gather;
    hide AfterCommits;
    var r := CommitAnchor(n.engine, gcRounds, b.anchor, answer).value;
    assert r.log[|n.engine.log|] == b;
  }

  // The transmissions of a block.

  function LedgerTransmissions(log: seq<Block>): set<TransmissionId> {
    set b, t | b in log && t in b.transmissions :: t
  }

  lemma LedgerKeysAreKeys(log: seq<Block>)
    ensures LedgerKeys(log) == KeysIn(LedgerTransmissions(log))
  {
    hide KeyOf;
    forall k
      ensures k in LedgerKeys(log) <==> k in KeysIn(LedgerTransmissions(log))
    {
      if k in LedgerKeys(log) {
        var b :| b in log && k in KeysOf(b.transmissions);
        var t :| t in b.transmissions && !t.Ratification? && KeyOf(t) == k;
        assert t in LedgerTransmissions(log);
      }
      if k in KeysIn(LedgerTransmissions(log)) {
        var t :| t in LedgerTransmissions(log) && !t.Ratification? && KeyOf(t) == k;
        var b :| b in log && t in b.transmissions;
        assert k in KeysOf(b.transmissions);
      }
    }
  }

  /** The block holds each transaction and solution of its certificates that no earlier block has and whose lookup
      succeeds, once, as first declared, and nothing else. */
  ghost predicate IsWhole(before: seq<Block>, b: Block, unreadable: set<TransmissionId>) {
    HoldsNew(LedgerTransmissions(before), unreadable, Declared(b.certificates), b.transmissions)
  }

  lemma BuiltIsWhole(n: Node, gcRounds: nat, answer: Answer, b: Block)
    requires WellStored(n.engine.stored)
    requires var r := CommitAnchor(n.engine, gcRounds, b.anchor, answer);
             r.Some? && r.value.log == n.engine.log + [b]
    ensures IsWhole(n.engine.log, b, answer.unreadableTransmissions)
    ensures Ratification !in Declared(b.certificates)
  {
    hide CommitAnchor;
    hide OrderDag;
    hide Gather;
    hide HoldsNew;
    hide Declared;
    BlockOf(n, gcRounds, answer, b);
    LedgerKeysAreKeys(n.engine.log);
    BlockContents(SourcesOf(n.engine, answer), LedgerTransmissions(n.engine.log), Declared(b.certificates));
    GatherSucceeds(SourcesOf(n.engine, answer), Declared(b.certificates), []);
  }

  /** With every lookup succeeding, the selection is whole. */
  lemma SelectedIsWhole(before: seq<Block>, b: Block)
    requires Ratification !in Declared(b.certificates) && b.transmissions == WholeBlock(before, b.certificates)
    ensures IsWhole(before, b, {})
  {
    hide Gather;
    hide HoldsNew;
    hide Declared;
    hide FirstNew;
    var declared := Declared(b.certificates);
    var s := Sources(LedgerKeys(before), {}, Elements(declared));
    assert forall t :: FirstNew(s, declared, t) ==> t in declared by {
      FirstNewIsDeclared(s, declared);
    }
    GatherSucceeds(s, declared, []);
    GatherSelects(s, declared, []);
    LedgerKeysAreKeys(before);
    BlockContents(s, LedgerTransmissions(before), declared);
  }

  lemma FirstNewIsDeclared(s: Sources, declared: seq<TransmissionId>)
    ensures forall t :: FirstNew(s, declared, t) ==> t in declared
  {
  }

  /** Every block of every run holds what its certificates declare that is new, up to failed lookups; and exactly
      that when no failed lookup drops a transmission. */
  lemma BlocksAreWhole(p: Params, run: seq<Event>, i: nat)
    requires ValidParams(p) && i < |After(p, run).engine.log|
    ensures var log := After(p, run).engine.log;
            && (exists unreadable :: IsWhole(log[..i], log[i], unreadable))
            && (HarmlessRun(p, run) ==> IsWhole(log[..i], log[i], {}))
  {
    hide After;
    hide Inv;
    hide IsWhole;
    hide CommitAnchor;
    hide HarmlessRun;
    hide WholeBlock;
    var log := After(p, run).engine.log;
    RunHistory(p, run);
    assert CommittedOn(p, log[..i], log[i]);
    var n: Node, answer: Answer :| Commits(p, n, answer, log[i]) && n.engine.log == log[..i];
    BuiltIsWhole(n, p.gcRounds, answer, log[i]);
    RunFaithfulExactly(p, run);
    if HarmlessRun(p, run) {
      SelectedIsWhole(log[..i], log[i]);
    }
  }
}
