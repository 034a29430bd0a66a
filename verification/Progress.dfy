/** When a chunk is committed to its end: the progress counterpart of the safety results. */
module Progress {
  import opened Types
  import opened Committees
  import opened Dags
  import opened Links
  import opened Dfs
  import opened Blocks
  import opened Engines
  import opened Nodes
  import opened NodeProofs
  import opened NodeRuns
  import opened Agreement
  import opened NoFork

  /** The three reasons to refuse an anchor in a state. */
  ghost predicate Refused(p: Params, e: Engine, a: Certificate, answer: Answer)
    requires ValidParams(p)
  {
    var declared := Declared(IdealSubdag(p, LedgerIds(e.log), e.dag.last, a));
    || !answer.accepted
    || Ratification in declared
    || exists t :: FirstNew(SourcesOf(e, answer), declared, t) && AbortedOnly(e.memory, t)
  }

  /** The state that the first `k` anchors of a chunk leave. */
  ghost function StateAt(p: Params, e: Engine, anchors: seq<Certificate>, answers: seq<Answer>, k: nat): Engine
    requires WellStored(e.stored) && k <= |anchors| && k <= |answers|
  {
    CommitAnchors(e, p.gcRounds, anchors[..k], answers[..k]).engine
  }

  /** Anchor `k` of the chunk gets an answer, and no reason to refuse it in the state its predecessors leave. */
  ghost predicate Passes(p: Params, e: Engine, anchors: seq<Certificate>, answers: seq<Answer>, k: nat)
    requires ValidParams(p) && WellStored(e.stored) && k < |anchors|
  {
    k < |answers| && !Refused(p, StateAt(p, e, anchors, answers, k), anchors[k], answers[k])
  }

  ghost predicate AllPass(p: Params, e: Engine, anchors: seq<Certificate>, answers: seq<Answer>)
    requires ValidParams(p) && WellStored(e.stored)
  {
    forall k: nat :: k < |anchors| ==> Passes(p, e, anchors, answers, k)
  }

  /** The first anchor commits exactly when it is not refused. */
  lemma FirstPasses(p: Params, n: Node, anchors: seq<Certificate>, answers: seq<Answer>)
    requires Inv(p, n) && anchors != [] && answers != [] && IsAnchor(n, anchors[0])
    ensures WellStored(n.engine.stored)
    ensures CommitAnchor(n.engine, p.gcRounds, anchors[0], answers[0]).Some? <==>
              Passes(p, n.engine, anchors, answers, 0)
  {
    hide Inv;
    hide CommitAnchor;
    hide IdealSubdag;
    hide FirstNew;
    InvFacts(p, n);
    AnchorCommitsIn(p, n, anchors[0], answers[0]);
    assert anchors[..0] == [] && answers[..0] == [];
  }

  /** The later anchors of a chunk see what the first one leaves. */
  lemma LaterPasses(p: Params, e: Engine, e': Engine, anchors: seq<Certificate>, answers: seq<Answer>, k: nat)
    requires ValidParams(p) && WellStored(e.stored) && WellStored(e'.stored)
    requires answers != [] && k + 1 < |anchors|
    requires CommitAnchor(e, p.gcRounds, anchors[0], answers[0]) == Some(e')
    ensures Passes(p, e, anchors, answers, k + 1) <==> Passes(p, e', anchors[1..], answers[1..], k)
  {
    hide CommitAnchor;
    hide Refused;
    if k + 1 < |answers| {
      assert anchors[..k + 1][1..] == anchors[1..][..k] && answers[..k + 1][1..] == answers[1..][..k];
      assert anchors[..k + 1][0] == anchors[0] && answers[..k + 1][0] == answers[0];
    }
  }

  lemma AllPassUnfolds(p: Params, e: Engine, e': Engine, anchors: seq<Certificate>, answers: seq<Answer>)
    requires ValidParams(p) && WellStored(e.stored) && WellStored(e'.stored)
    requires anchors != [] && answers != []
    requires CommitAnchor(e, p.gcRounds, anchors[0], answers[0]) == Some(e')
    ensures AllPass(p, e, anchors, answers) <==>
              Passes(p, e, anchors, answers, 0) && AllPass(p, e', anchors[1..], answers[1..])
  {
    hide Passes;
    hide CommitAnchor;
    forall k: nat | k + 1 < |anchors|
      ensures Passes(p, e, anchors, answers, k + 1) <==> Passes(p, e', anchors[1..], answers[1..], k)
    {
      LaterPasses(p, e, e', anchors, answers, k);
    }
    if Passes(p, e, anchors, answers, 0) && AllPass(p, e', anchors[1..], answers[1..]) {
      forall k: nat | k < |anchors|
        ensures Passes(p, e, anchors, answers, k)
      {
        if k > 0 {
          assert Passes(p, e', anchors[1..], answers[1..], k - 1);
        }
      }
    }
    if AllPass(p, e, anchors, answers) {
      forall k: nat | k < |anchors[1..]|
        ensures Passes(p, e', anchors[1..], answers[1..], k)
      {
        assert Passes(p, e, anchors, answers, k + 1);
      }
    }
  }

  /** A chunk is committed to its end exactly when every anchor passes. */
  lemma {:induction false} ChunkFinishesExactly(p: Params, n: Node, anchors: seq<Certificate>, answers: seq<Answer>)
    requires Inv(p, n) && Chain(n, anchors)
    ensures WellStored(n.engine.stored)
    ensures CommitAnchors(n.engine, p.gcRounds, anchors, answers).finished <==> AllPass(p, n.engine, anchors, answers)
    decreases |anchors|
  {
    hide Inv;
    hide StorageOk;
    hide MemoryOk;
    hide DagOk;
    hide LedgerOk;
    hide DeliveredOk;
    hide CommitAnchor;
    hide Passes;
    InvFacts(p, n);
    if anchors != [] {
      if answers == [] {
        NoAnswer(p, n.engine, anchors);
      } else {
        assert IsAnchor(n, anchors[0]);
        FirstPasses(p, n, anchors, answers);
        var r := CommitAnchor(n.engine, p.gcRounds, anchors[0], answers[0]);
        if r.Some? {
          CommitAnchorKeeps(p, n, anchors[0], answers[0]);
          ChainContinues(n, r.value, anchors);
          ChunkFinishesExactly(p, n.(engine := r.value), anchors[1..], answers[1..]);
          AllPassUnfolds(p, n.engine, r.value, anchors, answers);
        }
      }
    }
  }

  lemma NoAnswer(p: Params, e: Engine, anchors: seq<Certificate>)
    requires ValidParams(p) && WellStored(e.stored) && anchors != []
    ensures !Passes(p, e, anchors, [], 0)
  {
  }

  /** The engine after the delivery of `c`, before anything is committed. */
  function Delivered(n: Node, c: Certificate): Engine {
    n.engine.(dag := AfterInsert(n.engine.dag, c))
  }

  /** The ledger has grown by the whole walk, and storage holds exactly what is above the new collection round. */
  ghost predicate CommittedWalk(p: Params, e: Engine, e': Engine, walk: seq<Certificate>, a: Certificate) {
    && Anchors(e'.log) == Anchors(e.log) + walk
    && e'.gcRound == Max(e.gcRound, Monus(a.round, p.gcRounds))
    && e'.stored == map id | id in e.stored && e.stored[id].round > e'.gcRound :: e.stored[id]
  }

  /** The ledger has grown by the first anchors of the walk, and nothing was collected. */
  ghost predicate StoppedShort(e: Engine, e': Engine, walk: seq<Certificate>) {
    && (exists k :: 0 <= k < |walk| && Anchors(e'.log) == Anchors(e.log) + walk[..k])
    && e'.gcRound == e.gcRound && e'.stored == e.stored && e'.memory == e.memory
  }

  lemma CommitLeaderExactly(p: Params, n: Node, a: Certificate, answers: seq<Answer>)
    requires Inv(p, n) && IsAnchor(n, a)
    ensures WellStored(n.engine.stored) && WalkBack(n.engine.dag, p.leader, a.round - 2, a).Some?
    ensures var walk := WalkBack(n.engine.dag, p.leader, a.round - 2, a).value + [a];
            var e' := CommitLeader(n.engine, p.gcRounds, p.leader, a, answers);
            && (e'.dag.last == a.round <==> AllPass(p, n.engine, walk, answers))
            && (e'.dag.last == a.round ==> CommittedWalk(p, n.engine, e', walk, a))
            && (e'.dag.last != a.round ==> StoppedShort(n.engine, e', walk))
  {
    hide Inv;
    hide StorageOk;
    hide MemoryOk;
    hide DagOk;
    hide LedgerOk;
    hide DeliveredOk;
    hide WalkBack;
    hide CommitAnchors;
    hide AllPass;
    InvFacts(p, n);
    WalkSucceeds(p, n, a.round - 2, a);
    var walk := WalkBack(n.engine.dag, p.leader, a.round - 2, a).value + [a];
    ChunkFinishesExactly(p, n, walk, answers);
    var o := CommitAnchors(n.engine, p.gcRounds, walk, answers);
    var k := CommitAnchorsKeeps(p, n, walk, answers);
    StoredStays(n.engine, p.gcRounds, walk, answers);
    assert walk[|walk| - 1] == a;
    if k == |walk| {
      assert walk[..k] == walk;
      StoredAbove(p, n);
    } else {
      assert Anchors(o.engine.log) == Anchors(n.engine.log) + walk[..k];
    }
  }

  lemma StoredAbove(p: Params, n: Node)
    requires StorageOk(p, n)
    ensures forall id :: id in n.engine.stored ==> n.engine.stored[id].round > n.engine.gcRound
  {
  }

  lemma {:induction false} StoredStays(e: Engine, gcRounds: nat, anchors: seq<Certificate>, answers: seq<Answer>)
    requires WellStored(e.stored)
    ensures var e' := CommitAnchors(e, gcRounds, anchors, answers).engine;
            e'.stored == e.stored && e'.gcRound == e.gcRound && e'.memory == e.memory
    decreases |anchors|
  {
    hide OrderDag;
    if anchors != [] && answers != [] {
      var r := CommitAnchor(e, gcRounds, anchors[0], answers[0]);
      if r.Some? {
        StoredStays(r.value, gcRounds, anchors[1..], answers[1..]);
      }
    }
  }

  /** The leader certificate that a delivery of `c` may commit: that of the round below, even, at least 2 and above
      the last committed one, with both committees known and its supporters' round in the DAG. */
  ghost predicate Candidate(p: Params, d: DagState, known: map<Round, Committee>, c: Certificate, a: Certificate) {
    && InGraph(d, a) && a.author == p.leader && a.round + 1 == c.round
    && a.round % 2 == 0 && a.round >= 2 && a.round > d.last
    && a.round in known && c.round in known && c.round in d.graph
  }

  lemma IncludingIsSupporters(d: DagState, a: Certificate)
    requires Keyed(d)
    ensures Including(d, a.round + 1, a.id) == Supporters(Certificates(d), a)
  {
    var r := a.round + 1;
    forall x | x in Including(d, r, a.id)
      ensures x in Supporters(Certificates(d), a)
    {
      var y :| y in CertificatesAt(d, r) && a.id in d.graph[r][y].parents && d.graph[r][y].author == x;
      assert d.graph[r][y] in Certificates(d);
    }
    forall x | x in Supporters(Certificates(d), a)
      ensures x in Including(d, r, a.id)
    {
      var c :| c in Certificates(d) && c.round == r && a.id in c.parents && c.author == x;
      assert c.author in CertificatesAt(d, r) && d.graph[r][c.author] == c;
    }
  }

  /** The certificates of the next round that include `a` have at least one third of the stake. */
  ghost predicate HasThird(p: Params, d: DagState, a: Certificate) {
    var k := p.committee(a.round + 1);
    3 * k.StakeOf(Supporters(Certificates(d), a)) >= k.StakeOf(k.stakes.Keys)
  }

  /** A leader is committed exactly when its supporters reach the availability threshold. */
  lemma CommittableExactly(p: Params, d: DagState, known: map<Round, Committee>, c: Certificate, a: Certificate)
    requires Keyed(d) && forall r :: r in known ==> known[r] == p.committee(r)
    ensures Committable(d, p.leader, known, c) == Some(a) <==>
              Candidate(p, d, known, c, a) && HasThird(p, d, a)
  {
    IncludingIsSupporters(d, a);
    p.committee(a.round + 1).ThresholdsExactly(Supporters(Certificates(d), a));
    if Committable(d, p.leader, known, c).Some? {
      var b := Committable(d, p.leader, known, c).value;
      assert InGraph(d, b);
      IncludingIsSupporters(d, b);
    }
  }

  /** Without a supported candidate, a delivery only inserts the certificate. */
  lemma NothingToCommit(p: Params, n: Node, c: Certificate, known: map<Round, Committee>, answers: seq<Answer>)
    requires Keyed(Delivered(n, c).dag) && Enabled(p, n, Deliver(c, known, answers))
    requires forall a :: Candidate(p, Delivered(n, c).dag, known, c, a) ==>
                           !HasThird(p, Delivered(n, c).dag, a)
    ensures Next(p, n, Deliver(c, known, answers)).engine == Delivered(n, c)
  {
    hide Candidate;
    hide HasThird;
    hide Committable;
    hide CommitLeader;
    hide AfterInsert;
    var r := Committable(Delivered(n, c).dag, p.leader, known, c);
    if r.Some? {
      CommittableExactly(p, Delivered(n, c).dag, known, c, r.value);
    }
  }

  /** Progress: after any run, delivering `c` attempts a commit exactly when the leader certificate `a` of the round
      below has the support of at least one third of the stake in the DAG. Then its round becomes the last committed
      one exactly when no anchor of the walk is refused; the ledger has grown by the whole walk, and storage
      holds exactly the certificates above the new collection round. A walk that stops short leaves its first anchors
      committed and nothing collected. Without support, or without such a leader certificate, ledger and storage are
      unchanged. */
  lemma DeliveryCommitsExactly(p: Params, run: seq<Event>, c: Certificate, known: map<Round, Committee>,
                               answers: seq<Answer>)
    requires ValidParams(p) && Enabled(p, After(p, run), Deliver(c, known, answers))
    ensures var e := Delivered(After(p, run), c);
            var e' := After(p, run + [Deliver(c, known, answers)]).engine;
            && WellStored(e.stored)
            && (forall a :: Candidate(p, e.dag, known, c, a) ==>
                  if !HasThird(p, e.dag, a) then e' == e else
                    && WalkBack(e.dag, p.leader, a.round - 2, a).Some?
                    && var walk := WalkBack(e.dag, p.leader, a.round - 2, a).value + [a];
                       && (e'.dag.last == a.round <==> AllPass(p, e, walk, answers))
                       && (e'.dag.last == a.round ==> CommittedWalk(p, e, e', walk, a))
                       && (e'.dag.last != a.round ==> StoppedShort(e, e', walk)))
            && ((forall a :: !Candidate(p, e.dag, known, c, a)) ==> e' == e)
  {
    hide After;
    hide Inv;
    hide ParentsDelivered;
    hide Candidate;
    hide HasThird;
    hide Committable;
    hide WalkBack;
    hide CommitLeader;
    hide AllPass;
    hide CommittedWalk;
    hide StoppedShort;
    hide DagOk;
    var n := After(p, run);
    RunKeeps(p, run);
    AfterGrows(p, run, Deliver(c, known, answers));
    InsertKeeps(p, n, c);
    var n' := Node(Delivered(n, c), n.ever, n.delivered + {c});
    InvFacts(p, n');
    DagIsKeyed(n');
    var e := Delivered(n, c);
    if !exists a :: Candidate(p, e.dag, known, c, a) && HasThird(p, e.dag, a) {
      NothingToCommit(p, n, c, known, answers);
    }
    forall a | Candidate(p, e.dag, known, c, a)
      ensures if !HasThird(p, e.dag, a)
              then Next(p, n, Deliver(c, known, answers)).engine == e
              else Committable(e.dag, p.leader, known, c) == Some(a)
    {
      OneCandidate(p, e.dag, known, c, a);
      CommittableExactly(p, e.dag, known, c, a);
      if !HasThird(p, e.dag, a) {
        NothingToCommit(p, n, c, known, answers);
      }
    }
    forall a | Candidate(p, e.dag, known, c, a) && HasThird(p, e.dag, a)
      ensures WalkBack(e.dag, p.leader, a.round - 2, a).Some?
      ensures var e' := Next(p, n, Deliver(c, known, answers)).engine;
              var walk := WalkBack(e.dag, p.leader, a.round - 2, a).value + [a];
              && (e'.dag.last == a.round <==> AllPass(p, e, walk, answers))
              && (e'.dag.last == a.round ==> CommittedWalk(p, e, e', walk, a))
              && (e'.dag.last != a.round ==> StoppedShort(e, e', walk))
    {
      assert Committable(e.dag, p.leader, known, c) == Some(a);
      CommittableIsAnchor(p, n', known, c);
      CommitLeaderExactly(p, n', a, answers);
    }
  }

  lemma DagIsKeyed(n: Node)
    requires DagOk(n)
    ensures Keyed(n.engine.dag)
  {
  }

  /** There is at most one candidate. */
  lemma OneCandidate(p: Params, d: DagState, known: map<Round, Committee>, c: Certificate, a: Certificate)
    requires Candidate(p, d, known, c, a)
    ensures forall b :: Candidate(p, d, known, c, b) ==> b == a
  {
  }
}
