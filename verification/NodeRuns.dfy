/** Whole chunks, whole events and whole runs keep the invariant of `Nodes`. */
module NodeRuns {
  import opened Types
  import opened Committees
  import opened Dags
  import opened Links
  import opened Dfs
  import opened Memories
  import opened Engines
  import opened Nodes
  import opened NodeProofs

  // Links above the last committed round.

  lemma CollectedBelowCommitted(p: Params, n: Node)
    requires LedgerOk(p, n)
    ensures n.engine.gcRound <= n.engine.dag.last
    ensures forall c :: c in Committed(n.engine.log) ==> c.round <= n.engine.dag.last
  {
  }

  /** A parent above the last committed round of a delivered certificate is in the DAG. */
  lemma ParentInGraph(p: Params, n: Node, c: Certificate, d: Certificate)
    requires DagOk(n) && LedgerOk(p, n) && DeliveredOk(p, n)
    requires c in n.delivered && InWorld(p, d) && d.id in c.parents && d.round + 1 == c.round
    requires d.round > n.engine.dag.last
    ensures d in n.delivered && InGraph(n.engine.dag, d)
  {
    CollectedBelowCommitted(p, n);
    hide LedgerOk;
    assert ParentsDelivered(p, n, c);
  }

  /** A certificate above the collected rounds has a stored parent one round lower. */
  lemma SomeParent(p: Params, n: Node, c: Certificate) returns (d: Certificate)
    requires StorageOk(p, n) && c in n.ever && c.round > n.engine.gcRound + 1
    ensures InWorld(p, d) && Step(n.ever, c, d)
  {
    d := RootedHasParent(n.ever, c, p.committee);
  }

  /** A delivered certificate two rounds above the last committed one has a parent in the DAG. */
  lemma SomeParentInGraph(p: Params, n: Node, c: Certificate) returns (d: Certificate)
    requires StorageOk(p, n) && DagOk(n) && LedgerOk(p, n) && DeliveredOk(p, n)
    requires c in n.delivered && c.round > n.engine.dag.last + 1
    ensures d in n.delivered && InGraph(n.engine.dag, d) && d.round + 1 == c.round
  {
    CollectedBelowCommitted(p, n);
    d := SomeParent(p, n, c);
    ParentInGraph(p, n, c, d);
  }

  /** The DAG has certificates for every round between the last committed one and a delivered certificate. */
  lemma {:induction false} RoundsFilled(p: Params, n: Node, c: Certificate, r: Round)
    requires StorageOk(p, n) && DagOk(n) && LedgerOk(p, n) && DeliveredOk(p, n)
    requires c in n.delivered && n.engine.dag.last < r < c.round
    ensures r in n.engine.dag.graph
    decreases c.round
  {
    hide StorageOk;
    hide DagOk;
    hide LedgerOk;
    hide DeliveredOk;
    var d := SomeParentInGraph(p, n, c);
    if d.round > r {
      RoundsFilled(p, n, d, r);
    }
  }

  lemma {:induction false} LinkedMonotone(s: set<Certificate>, t: set<Certificate>, hi: Certificate, lo: Certificate)
    requires s <= t && Linked(s, hi, lo)
    ensures Linked(t, hi, lo)
    decreases hi.round
  {
    if hi != lo {
      var m :| Step(s, hi, m) && Linked(s, m, lo);
      LinkedMonotone(s, t, m, lo);
      assert Step(t, hi, m);
    }
  }

  lemma {:induction false} LinkedInDag(p: Params, n: Node, s: set<Certificate>, hi: Certificate, lo: Certificate)
    requires DagOk(n) && LedgerOk(p, n) && DeliveredOk(p, n)
    requires forall c :: c in s ==> InWorld(p, c)
    requires hi in n.delivered && lo.round > n.engine.dag.last && Linked(s, hi, lo)
    ensures Linked(Certificates(n.engine.dag), hi, lo)
    decreases hi.round
  {
    hide DagOk;
    hide LedgerOk;
    hide DeliveredOk;
    if hi != lo {
      var m :| Step(s, hi, m) && Linked(s, m, lo);
      LinkedDescends(s, m, lo);
      ParentInGraph(p, n, hi, m);
      LinkedInDag(p, n, s, m, lo);
      assert Step(Certificates(n.engine.dag), hi, m);
    }
  }

  /** Link exactness: above the last committed round `is_linked` never errors, and pruning never
      changes its answer: it is the answer over all certificates of any world that contains the DAG. */
  lemma LinkExact(p: Params, n: Node, s: set<Certificate>, previous: Certificate, current: Certificate)
    requires StorageOk(p, n) && DagOk(n) && LedgerOk(p, n) && DeliveredOk(p, n)
    requires current in n.delivered && previous.round > n.engine.dag.last
    requires n.delivered <= s && forall c :: c in s ==> InWorld(p, c)
    ensures LinkAnswer(n.engine.dag, previous, current) == Some(Linked(s, current, previous))
  {
    assert Certificates(n.engine.dag) <= s;
    hide StorageOk;
    hide DagOk;
    hide LedgerOk;
    hide DeliveredOk;
    hide Linked;
    forall r: Round | previous.round <= r < current.round
      ensures r in n.engine.dag.graph
    {
      RoundsFilled(p, n, current, r);
    }
    if Linked(s, current, previous) {
      LinkedInDag(p, n, s, current, previous);
    }
    if Linked(Certificates(n.engine.dag), current, previous) {
      LinkedMonotone(Certificates(n.engine.dag), s, current, previous);
    }
  }

  /** Anchor inclusion in every state: a leader above the last committed round that has availability
      support in the DAG is reached from every certificate stored two or more rounds later. */
  lemma SupportedIsLinked(p: Params, n: Node, a: Certificate, c: Certificate)
    requires StorageOk(p, n) && DagOk(n) && LedgerOk(p, n) && DeliveredOk(p, n)
    requires InGraph(n.engine.dag, a) && a.round > n.engine.dag.last
    requires Supported(Certificates(n.engine.dag), a, p.committee)
    requires c in n.ever && c.round >= a.round + 2
    ensures Linked(n.ever, c, a)
    ensures c in n.delivered ==> LinkAnswer(n.engine.dag, a, c) == Some(true)
  {
    CollectedBelowCommitted(p, n);
    SupportedMonotone(Certificates(n.engine.dag), n.ever, a, p.committee);
    assert a in Certificates(n.engine.dag);
    AnchorInclusion(n.ever, n.engine.gcRound, p.committee, a, c);
    if c in n.delivered {
      LinkExact(p, n, n.ever, a, c);
    }
  }

  // The walk to older leaders.

  /** Anchors that can be committed in this order. */
  ghost predicate Chain(n: Node, anchors: seq<Certificate>) {
    && (forall i :: 0 <= i < |anchors| ==> IsAnchor(n, anchors[i]))
    && (forall i, j :: 0 <= i < j < |anchors| ==> anchors[i].round < anchors[j].round)
  }

  ghost predicate UpTo(anchors: seq<Certificate>, leader: Address, r: int) {
    forall i :: 0 <= i < |anchors| ==> anchors[i].round <= r && anchors[i].author == leader
  }

  /** The leader certificate of an uncommitted even round: it can be committed, and its link to any
      delivered certificate is decided. */
  lemma LeaderInGraph(p: Params, n: Node, r: Round, current: Certificate)
    requires Inv(p, n) && current in n.delivered
    requires r > n.engine.dag.last && r % 2 == 0 && p.leader in CertificatesAt(n.engine.dag, r)
    ensures var previous := n.engine.dag.graph[r][p.leader];
            && IsAnchor(n, previous) && previous.round == r && previous.author == p.leader
            && InGraph(n.engine.dag, previous)
            && LinkAnswer(n.engine.dag, previous, current) == Some(Linked(n.ever, current, previous))
  {
    var previous := n.engine.dag.graph[r][p.leader];
    assert previous in Certificates(n.engine.dag);
    LinkExact(p, n, n.ever, previous, current);
  }

  /** The walk never errors and gives anchors that can be committed in order. */
  lemma {:induction false} WalkSucceeds(p: Params, n: Node, r: int, current: Certificate)
    requires Inv(p, n)
    requires current in n.delivered && r % 2 == 0
    ensures WalkBack(n.engine.dag, p.leader, r, current).Some?
    ensures Chain(n, WalkBack(n.engine.dag, p.leader, r, current).value)
    ensures UpTo(WalkBack(n.engine.dag, p.leader, r, current).value, p.leader, r)
    decreases r
  {
    hide Inv;
    hide LinkAnswer;
    var d := n.engine.dag;
    if r >= d.last + 2 {
      WalkSucceeds(p, n, r - 2, current);
      if p.leader in CertificatesAt(d, r) {
        LeaderInGraph(p, n, r, current);
        WalkSucceeds(p, n, r - 2, d.graph[r][p.leader]);
      }
    }
  }

  lemma InvFacts(p: Params, n: Node)
    requires Inv(p, n)
    ensures ValidParams(p) && StorageOk(p, n) && DagOk(n) && LedgerOk(p, n) && DeliveredOk(p, n) && MemoryOk(n)
    ensures n.delivered <= n.ever && WellStored(n.engine.stored)
    ensures n.engine.dag.last % 2 == 0
  {
    hide MemoryOk;
    hide DeliveredOk;
    hide CausallyComplete;
    hide IdealSubdags;
    var log := n.engine.log;
    if log != [] {
      assert BlockOk(log[|log| - 1]);
    }
  }

  /** Committing any later leader includes every supported older leader in its chain. */
  lemma {:induction false} SupportedIsWalked(p: Params, n: Node, a: Certificate, r: int, current: Certificate)
    requires Inv(p, n)
    requires InGraph(n.engine.dag, a) && a.round > n.engine.dag.last && a.round % 2 == 0 && a.author == p.leader
    requires Supported(Certificates(n.engine.dag), a, p.committee)
    requires current in n.delivered && current in n.ever && a.round + 2 <= current.round
    requires a.round <= r && r % 2 == 0
    ensures WalkBack(n.engine.dag, p.leader, r, current).Some?
    ensures a in WalkBack(n.engine.dag, p.leader, r, current).value
    decreases r
  {
    hide Inv;
    hide StorageOk;
    hide DagOk;
    hide LedgerOk;
    hide DeliveredOk;
    hide LinkAnswer;
    hide Supported;
    hide Linked;
    var d := n.engine.dag;
    InvFacts(p, n);
    WalkSucceeds(p, n, r, current);
    if p.leader in CertificatesAt(d, r) {
      LeaderInGraph(p, n, r, current);
    }
    if r == a.round {
      SupportedIsLinked(p, n, a, current);
    } else {
      SupportedIsWalked(p, n, a, r - 2, current);
      if p.leader in CertificatesAt(d, r) {
        SupportedIsWalked(p, n, a, r - 2, d.graph[r][p.leader]);
      }
    }
  }

  // Chunks.

  /** Committing an anchor leaves the later anchors of a chain committable. */
  lemma ChainContinues(n: Node, e': Engine, anchors: seq<Certificate>)
    requires Chain(n, anchors) && anchors != [] && e'.dag.last == anchors[0].round
    ensures Chain(n.(engine := e'), anchors[1..])
  {
    forall i | 0 <= i < |anchors[1..]|
      ensures IsAnchor(n.(engine := e'), anchors[1..][i])
    {
      assert IsAnchor(n, anchors[i + 1]);
    }
  }

  /** The log has grown by the first `k` anchors. */
  ghost predicate Grew(before: Engine, after: Engine, anchors: seq<Certificate>, k: nat) {
    && k <= |anchors|
    && Anchors(after.log) == Anchors(before.log) + anchors[..k]
    && after.dag.last == if k == 0 then before.dag.last else anchors[k - 1].round
  }

  lemma GrewOneMore(e: Engine, e1: Engine, e2: Engine, anchors: seq<Certificate>, k: nat)
    requires anchors != [] && Anchors(e1.log) == Anchors(e.log) + [anchors[0]] && e1.dag.last == anchors[0].round
    requires Grew(e1, e2, anchors[1..], k)
    ensures Grew(e, e2, anchors, k + 1)
  {
    assert anchors[..k + 1] == [anchors[0]] + anchors[1..][..k];
  }

  /** Committing a chunk of anchors keeps the invariant wherever it stops, and the log grows by the
      anchors committed. */
  lemma {:induction false} CommitAnchorsKeeps(p: Params, n: Node, anchors: seq<Certificate>, answers: seq<Answer>)
    returns (k: nat)
    requires Inv(p, n) && Chain(n, anchors)
    ensures var o := CommitAnchors(n.engine, p.gcRounds, anchors, answers);
            && Inv(p, n.(engine := o.engine))
            && Grew(n.engine, o.engine, anchors, k)
            && (o.finished <==> k == |anchors|)
    decreases |anchors|
  {
    hide Inv;
    hide StorageOk;
    hide DagOk;
    hide LedgerOk;
    hide DeliveredOk;
    hide CommitAnchor;
    k := 0;
    InvFacts(p, n);
    if anchors != [] && answers != [] {
      var r := CommitAnchor(n.engine, p.gcRounds, anchors[0], answers[0]);
      if r.Some? {
        assert IsAnchor(n, anchors[0]);
        CommitAnchorKeeps(p, n, anchors[0], answers[0]);
        ChainContinues(n, r.value, anchors);
        k := CommitAnchorsKeeps(p, n.(engine := r.value), anchors[1..], answers[1..]);
        GrewOneMore(n.engine, r.value, CommitAnchors(n.engine, p.gcRounds, anchors, answers).engine, anchors, k);
        k := k + 1;
      }
    }
  }

  lemma CollectStorageOk(p: Params, n: Node, round: Round)
    requires StorageOk(p, n)
    ensures StorageOk(p, n.(engine := CollectGarbage(n.engine, p.gcRounds, round)))
  {
  }

  lemma CollectLedgerOk(p: Params, n: Node, round: Round)
    requires LedgerOk(p, n) && round <= n.engine.dag.last
    ensures LedgerOk(p, n.(engine := CollectGarbage(n.engine, p.gcRounds, round)))
  {
    hide Tracks;
  }

  lemma CollectMemoryOk(n: Node, gcRounds: nat, round: Round)
    requires MemoryOk(n)
    ensures MemoryOk(n.(engine := CollectGarbage(n.engine, gcRounds, round)))
  {
    hide RefCounted;
    var gone := set id | id in n.engine.stored && n.engine.stored[id].round <= Monus(round, gcRounds);
    ReleasedRefCounted(n.engine.memory, n.engine.stored, gone);
  }

  lemma CollectGarbageKeeps(p: Params, n: Node, round: Round)
    requires Inv(p, n) && round <= n.engine.dag.last
    ensures Inv(p, n.(engine := CollectGarbage(n.engine, p.gcRounds, round)))
  {
    var n' := n.(engine := CollectGarbage(n.engine, p.gcRounds, round));
    assert DagOk(n');
    hide StorageOk;
    hide LedgerOk;
    hide DagOk;
    hide DeliveredOk;
    hide LogOk;
    hide MemoryOk;
    hide CausallyComplete;
    hide IdealSubdags;
    CollectStorageOk(p, n, round);
    CollectMemoryOk(n, p.gcRounds, round);
    CollectLedgerOk(p, n, round);
    DeliveredStays(p, n, n');
  }

  lemma CommitLeaderKeeps(p: Params, n: Node, a: Certificate, answers: seq<Answer>)
    requires Inv(p, n) && IsAnchor(n, a)
    ensures WellStored(n.engine.stored)
    ensures Inv(p, n.(engine := CommitLeader(n.engine, p.gcRounds, p.leader, a, answers)))
  {
    hide Inv;
    hide StorageOk;
    hide DagOk;
    hide LedgerOk;
    hide DeliveredOk;
    hide WalkBack;
    hide CommitAnchors;
    InvFacts(p, n);
    WalkSucceeds(p, n, a.round - 2, a);
    var anchors := WalkBack(n.engine.dag, p.leader, a.round - 2, a).value + [a];
    var o := CommitAnchors(n.engine, p.gcRounds, anchors, answers);
    var k := CommitAnchorsKeeps(p, n, anchors, answers);
    if o.finished {
      CollectGarbageKeeps(p, n.(engine := o.engine), a.round);
    }
  }

  // Events.

  lemma InsertDagOk(p: Params, n: Node, c: Certificate)
    requires StorageOk(p, n) && DagOk(n) && LedgerOk(p, n) && c in n.ever
    ensures DagOk(Node(n.engine.(dag := AfterInsert(n.engine.dag, c)), n.ever, n.delivered + {c}))
  {
    InsertKeepsGraph(n.engine.dag, c);
    assert Unique(n.ever);
    assert c.round > n.engine.dag.last ==> !IsRecentlyCommitted(n.engine.dag, c.round, c.id);
    hide StorageOk;
    hide LedgerOk;
    hide AfterInsert;
    hide IsRecentlyCommitted;
  }

  lemma InsertLedgerOk(p: Params, n: Node, n': Node)
    requires LedgerOk(p, n)
    requires n'.engine.log == n.engine.log && n'.engine.gcRound == n.engine.gcRound
    requires n'.engine.dag.recent == n.engine.dag.recent && n'.engine.dag.last == n.engine.dag.last
    ensures LedgerOk(p, n')
  {
    assert forall r: Round, id :: IsRecentlyCommitted(n'.engine.dag, r, id) <==>
        IsRecentlyCommitted(n.engine.dag, r, id);
    hide IsRecentlyCommitted;
  }

  lemma InsertDeliveredOk(p: Params, n: Node, c: Certificate, n': Node)
    requires DeliveredOk(p, n) && ParentsDelivered(p, n, c)
    requires n'.delivered == n.delivered + {c} && n'.engine.log == n.engine.log && n'.engine.gcRound == n.engine.gcRound
    ensures DeliveredOk(p, n')
  {
    forall x | x in n'.delivered
      ensures ParentsDelivered(p, n', x)
    {
      assert ParentsDelivered(p, n, x);
    }
  }

  lemma InsertKeeps(p: Params, n: Node, c: Certificate)
    requires Inv(p, n) && c in n.ever && ParentsDelivered(p, n, c)
    ensures Inv(p, Node(n.engine.(dag := AfterInsert(n.engine.dag, c)), n.ever, n.delivered + {c}))
  {
    var n' := Node(n.engine.(dag := AfterInsert(n.engine.dag, c)), n.ever, n.delivered + {c});
    hide StorageOk;
    hide LedgerOk;
    hide DagOk;
    hide DeliveredOk;
    hide LogOk;
    hide CausallyComplete;
    hide IdealSubdags;
    hide ParentsDelivered;
    InsertDagOk(p, n, c);
    StorageStays(p, n, n');
    InsertLedgerOk(p, n, n');
    InsertDeliveredOk(p, n, c, n');
  }

  lemma CommittableIsAnchor(p: Params, n: Node, known: map<Round, Committee>, c: Certificate)
    requires DagOk(n) && Committable(n.engine.dag, p.leader, known, c).Some?
    ensures IsAnchor(n, Committable(n.engine.dag, p.leader, known, c).value)
  {
    assert Committable(n.engine.dag, p.leader, known, c).value in Certificates(n.engine.dag);
  }

  lemma DeliverKeeps(p: Params, n: Node, c: Certificate, known: map<Round, Committee>, answers: seq<Answer>)
    requires Inv(p, n) && Enabled(p, n, Deliver(c, known, answers))
    ensures Inv(p, Next(p, n, Deliver(c, known, answers)))
  {
    InsertKeeps(p, n, c);
    var n' := Node(n.engine.(dag := AfterInsert(n.engine.dag, c)), n.ever, n.delivered + {c});
    assert DagOk(n');
    hide Inv;
    hide DagOk;
    hide Committable;
    hide CommitLeader;
    var a := Committable(n'.engine.dag, p.leader, known, c);
    if a.Some? {
      CommittableIsAnchor(p, n', known, c);
      CommitLeaderKeeps(p, n', a.value, answers);
    }
  }

  lemma StoreStorageOk(p: Params, n: Node, c: Certificate, provided: map<TransmissionId, Transmission>,
                       aborted: set<TransmissionId>)
    requires StorageOk(p, n) && Accepts(p, n.engine, c)
    ensures StorageOk(p, n.(engine := Stored(n.engine, c, provided, aborted), ever := n.ever + {c}))
  {
    StoreClosed(p, n, c);
    StoreUnique(p, n, c);
    hide ClosedAbove;
    hide ParentsAccepted;
    hide Unique;
    hide Inserted;
  }

  lemma StoreUnique(p: Params, n: Node, c: Certificate)
    requires StorageOk(p, n) && Accepts(p, n.engine, c)
    ensures Unique(n.ever + {c})
  {
    hide ClosedAbove;
    hide ParentsAccepted;
    forall x | x in n.ever
      ensures x.round != c.round || x.author != c.author
    {
      assert InWorld(p, x);
      if x.round > n.engine.gcRound {
        assert InWorld(p, n.engine.stored[x.id]);
      }
    }
  }

  lemma StoreMemoryOk(n: Node, c: Certificate, provided: map<TransmissionId, Transmission>,
                      aborted: set<TransmissionId>)
    requires MemoryOk(n) && c.id !in n.engine.stored
    requires Supplied(n.engine.memory, c.transmissions, provided, aborted) && OnlyDeclared(c.transmissions, aborted)
    ensures MemoryOk(n.(engine := Stored(n.engine, c, provided, aborted), ever := n.ever + {c}))
  {
    hide NoLoss;
    hide NoLeak;
    hide Inserted;
    hide Supplied;
    InsertionRefCounted(n.engine.memory, n.engine.stored, c, aborted, provided);
  }

  lemma StoreDagOk(n: Node, n': Node)
    requires DagOk(n) && n'.engine.dag == n.engine.dag && n'.delivered == n.delivered && n.ever <= n'.ever
    ensures DagOk(n')
  {
  }

  lemma StoreKeeps(p: Params, n: Node, c: Certificate, provided: map<TransmissionId, Transmission>,
                   aborted: set<TransmissionId>)
    requires Inv(p, n) && Enabled(p, n, Store(c, provided, aborted))
    ensures Inv(p, Next(p, n, Store(c, provided, aborted)))
  {
    hide StorageOk;
    hide MemoryOk;
    hide DagOk;
    hide LedgerOk;
    hide DeliveredOk;
    hide LogOk;
    hide CausallyComplete;
    hide IdealSubdags;
    hide InWorld;
    hide ParentsAccepted;
    hide Inserted;
    hide Supplied;
    hide OnlyDeclared;
    var n' := n.(engine := Stored(n.engine, c, provided, aborted), ever := n.ever + {c});
    StoreStorageOk(p, n, c, provided, aborted);
    StoreMemoryOk(n, c, provided, aborted);
    StoreDagOk(n, n');
    InsertLedgerOk(p, n, n');
    DeliveredStays(p, n, n');
  }

  lemma {:induction false} RootedMonotone(s: set<Certificate>, t: set<Certificate>, c: Certificate,
                                          committee: Round -> Committee)
    requires s <= t && Rooted(s, c, committee)
    ensures Rooted(t, c, committee)
  {
    forall id | id in c.parents
      ensures HasParent(t, c, id)
    {
      assert HasParent(s, c, id);
      var d :| Step(s, c, d) && d.id == id;
      assert Step(t, c, d);
    }
    assert ParentsIn(s, c) <= ParentsIn(t, c);
    committee(c.round - 1).StakeOfMonotone(AuthorsOf(ParentsIn(s, c)), AuthorsOf(ParentsIn(t, c)));
  }

  lemma AcceptedIsRooted(stored: map<Id, Certificate>, s: set<Certificate>, c: Certificate,
                         committee: Round -> Committee)
    requires WellStored(stored) && stored.Values <= s
    requires c.round > 0 && ParentsAccepted(stored, committee(c.round - 1), c)
    ensures Rooted(s, c, committee)
  {
    var quorum := set id | id in c.parents && id in stored :: stored[id].author;
    forall id | id in c.parents
      ensures HasParent(s, c, id) && stored[id].author in AuthorsOf(ParentsIn(s, c))
    {
      assert Step(s, c, stored[id]);
      assert stored[id] in ParentsIn(s, c);
    }
    committee(c.round - 1).StakeOfMonotone(quorum, AuthorsOf(ParentsIn(s, c)));
  }

  lemma StoreClosed(p: Params, n: Node, c: Certificate)
    requires StorageOk(p, n) && Accepts(p, n.engine, c)
    ensures ClosedAbove(n.ever + {c}, n.engine.gcRound, p.committee)
  {
    var ever := n.ever + {c};
    hide Rooted;
    hide ParentsAccepted;
    hide Unique;
    forall x | x in ever && x.round > n.engine.gcRound + 1
      ensures Rooted(ever, x, p.committee)
    {
      if x in n.ever {
        assert Rooted(n.ever, x, p.committee);
        RootedMonotone(n.ever, ever, x, p.committee);
      } else {
        AcceptedIsRooted(n.engine.stored, ever, c, p.committee);
      }
    }
  }
}
