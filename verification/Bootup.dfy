/** Bootup: `sync_storage_with_ledger_at_bootup` of `node/bft/src/sync/mod.rs` reads back only a window
    of blocks, and `sync_bft_dag_at_bootup` of `node/bft/src/bft.rs` commits their certificates. */
module Bootup {
  import opened Types
  import opened Dags
  import opened Memories
  import opened Engines
  import opened Nodes

  /** Every certificate of a block is at or below its anchor, and anchors rise by two rounds or more. */
  ghost predicate Spaced(log: seq<Block>) {
    && (forall i :: 0 <= i < |log| ==> log[i].anchor in log[i].certificates)
    && (forall i, c :: 0 <= i < |log| && c in log[i].certificates ==> c.round <= log[i].anchor.round)
    && (forall i :: 0 < i < |log| ==> log[i - 1].anchor.round + 2 <= log[i].anchor.round)
  }

  lemma {:induction false} RoundsRise(log: seq<Block>, i: nat, j: nat)
    requires Spaced(log) && i <= j < |log|
    ensures log[i].anchor.round + 2 * (j - i) <= log[j].anchor.round
    decreases j - i
  {
    if i < j {
      RoundsRise(log, i, j - 1);
    }
  }

  lemma {:induction false} AllCertificatesElements(blocks: seq<Block>)
    ensures Elements(AllCertificates(blocks)) == Committed(blocks)
  {
    if blocks != [] {
      AllCertificatesElements(blocks[1..]);
      assert blocks == [blocks[0]] + blocks[1..];
      assert Elements(AllCertificates(blocks)) ==
          Elements(blocks[0].certificates) + Elements(AllCertificates(blocks[1..]));
      assert Committed(blocks) == Elements(blocks[0].certificates) + Committed(blocks[1..]);
    }
  }

  /** A block with a certificate within `gcRounds` of the tip is in the window. */
  lemma RecentBlockInWindow(log: seq<Block>, gcRounds: nat, c: Certificate, i: nat)
    requires Spaced(log) && i < |log| && c in log[i].certificates
    ensures c.round <= LastRound(log)
    ensures c.round + gcRounds > LastRound(log) ==> i >= Monus(|log|, gcRounds / 2 + 1)
  {
    RoundsRise(log, i, |log| - 1);
  }

  lemma RecentIsInWindow(log: seq<Block>, gcRounds: nat, c: Certificate)
    requires Spaced(log) && c in Committed(log)
    ensures c.round <= LastRound(log)
    ensures c.round + gcRounds > LastRound(log) ==> c in Committed(Window(log, gcRounds))
  {
    var b :| b in log && c in b.certificates;
    var i :| 0 <= i < |log| && log[i] == b;
    hide Spaced;
    RecentBlockInWindow(log, gcRounds, c, i);
    var start := Monus(|log|, gcRounds / 2 + 1);
    if i >= start {
      assert log[start..][i - start] == b;
      assert b in Window(log, gcRounds);
    }
  }

  lemma WindowIsInLog(log: seq<Block>, gcRounds: nat)
    ensures Committed(Window(log, gcRounds)) <= Committed(log)
    ensures log != [] ==> log[|log| - 1] in Window(log, gcRounds)
  {
    var start := Monus(|log|, gcRounds / 2 + 1);
    assert forall b :: b in log[start..] ==> b in log;
    if log != [] {
      assert log[start..][|log| - 1 - start] == log[|log| - 1];
    }
  }

  /** Counters that describe the window describe the whole ledger. */
  lemma WindowTracksLedger(d: DagState, log: seq<Block>, gcRounds: nat)
    requires Spaced(log)
    requires Tracks(d, Committed(Window(log, gcRounds)), gcRounds)
    ensures Tracks(d, Committed(log), gcRounds) && d.last == LastRound(log)
  {
    var window, all := Committed(Window(log, gcRounds)), Committed(log);
    WindowIsInLog(log, gcRounds);
    forall c | c in all
      ensures c.round <= LastRound(log)
      ensures c.round + gcRounds > LastRound(log) ==> c in window
    {
      RecentIsInWindow(log, gcRounds, c);
    }
    if log != [] {
      var tip := log[|log| - 1];
      assert tip.anchor in tip.certificates;
      assert tip.anchor in window;
    } else {
      assert window == {};
    }
    assert d.last == LastRound(log);
    forall r: Round, id
      ensures r + gcRounds > d.last ==> (CommittedAt(window, r, id) <==> CommittedAt(all, r, id))
    {
      if r + gcRounds > d.last && CommittedAt(all, r, id) {
        var c :| c in all && c.round == r && c.id == id;
        assert c in window;
      }
    }
  }

  lemma EmptyTracks(gcRounds: nat)
    ensures Tracks(EMPTY_DAG, {}, gcRounds)
  {
  }

  /** Bootup equivalence: committing the certificates of the window, in any order, leaves the same
      counters as committing those of the whole ledger, in any order. */
  lemma BootupEquivalence(log: seq<Block>, gcRounds: nat, window: seq<Certificate>, all: seq<Certificate>)
    requires Spaced(log)
    requires Elements(window) == Committed(Window(log, gcRounds))
    requires Elements(all) == Committed(log)
    ensures var d, e := AfterCommits(EMPTY_DAG, window, gcRounds), AfterCommits(EMPTY_DAG, all, gcRounds);
            d.last == e.last == LastRound(log) && d.recent == e.recent
    ensures |Window(log, gcRounds)| == Min(|log|, gcRounds / 2 + 1)
    ensures Window(log, gcRounds) == log[|log| - |Window(log, gcRounds)|..]
  {
    EmptyTracks(gcRounds);
    CommitAllTracks(EMPTY_DAG, {}, window, gcRounds);
    CommitAllTracks(EMPTY_DAG, {}, all, gcRounds);
    assert {} + Elements(window) == Elements(window) && {} + Elements(all) == Elements(all);
    WindowTracksLedger(AfterCommits(EMPTY_DAG, window, gcRounds), log, gcRounds);
    TracksDetermines(AfterCommits(EMPTY_DAG, window, gcRounds), AfterCommits(EMPTY_DAG, all, gcRounds),
                     Committed(log), gcRounds);
  }

  // A restart in the middle of a run.

  lemma LogIsSpaced(log: seq<Block>)
    requires LogOk(log)
    ensures Spaced(log)
  {
    assert forall i :: 0 <= i < |log| ==> BlockOk(log[i]);
    assert forall i :: 0 < i < |log| ==> Apart(log[i - 1], log[i]);
  }

  lemma RebootTracks(log: seq<Block>, gcRounds: nat)
    requires LogOk(log)
    ensures Tracks(Rebooted(log, gcRounds).dag, Committed(log), gcRounds)
    ensures Rebooted(log, gcRounds).dag.last == LastRound(log)
    ensures Certificates(Rebooted(log, gcRounds).dag) == {} && Keyed(Rebooted(log, gcRounds).dag)
  {
    var window := AllCertificates(Window(log, gcRounds));
    LogIsSpaced(log);
    EmptyTracks(gcRounds);
    CommitAllTracks(EMPTY_DAG, {}, window, gcRounds);
    AllCertificatesElements(Window(log, gcRounds));
    assert {} + Elements(window) == Elements(window);
    WindowTracksLedger(AfterCommits(EMPTY_DAG, window, gcRounds), log, gcRounds);
    CommitAllPrunes(EMPTY_DAG, window, gcRounds);
    assert Certificates(EMPTY_DAG) == {};
  }

  lemma RestartKeeps(p: Params, n: Node)
    requires Inv(p, n)
    ensures Inv(p, Node(Rebooted(n.engine.log, p.gcRounds), {}, {}))
  {
    hide Tracks;
    hide AfterCommits;
    hide LogOk;
    hide CausallyComplete;
    hide IdealSubdags;
    hide Committed;
    hide StorageOk;
    hide MemoryOk;
    hide DagOk;
    hide DeliveredOk;
    RebootTracks(n.engine.log, p.gcRounds);
    EmptyIsOk(p, Node(Rebooted(n.engine.log, p.gcRounds), {}, {}));
  }

  /** Nothing stored and nothing delivered. */
  lemma EmptyIsOk(p: Params, n: Node)
    requires n.ever == {} && n.delivered == {} && n.engine.stored == map[] && n.engine.memory == EMPTY_MEMORY
    requires Keyed(n.engine.dag) && Certificates(n.engine.dag) == {}
    ensures StorageOk(p, n) && MemoryOk(n) && DagOk(n) && DeliveredOk(p, n)
  {
  }

  lemma StartIsOk(p: Params)
    requires ValidParams(p)
    ensures Inv(p, Node(Rebooted([], p.gcRounds), {}, {}))
  {
    RebootTracks([], p.gcRounds);
    assert Committed([]) == {};
  }
}
