/** Every event keeps the invariant of `Nodes`. */
module NodeProofs {
  import opened Types
  import opened Dags
  import opened Links
  import opened Dfs
  import opened DfsExactness
  import opened Blocks
  import opened Engines
  import opened Nodes

  // What the traversal sees.

  /** A parent above the horizon is still stored: garbage collection has not reached its round. */
  lemma ParentIsStored(p: Params, n: Node, c: Certificate, id: Id) returns (d: Certificate)
    requires StorageOk(p, n) && LedgerOk(p, n)
    requires c in n.ever && id in c.parents && PreviousRound(c) + p.gcRounds > n.engine.dag.last
    ensures InWorld(p, d) && d in n.ever && d.id == id && d.round + 1 == c.round
    ensures d.round > n.engine.gcRound && id in n.engine.stored && n.engine.stored[id] == d
  {
    assert InWorld(p, c) && Rooted(n.ever, c, p.committee);
    assert HasParent(n.ever, c, id);
    d :| Step(n.ever, c, d) && d.id == id;
    assert InWorld(p, d) && InWorld(p, n.engine.stored[id]);
  }

  lemma ResolvesInNode(p: Params, n: Node, unreadable: set<Id>, d: Certificate)
    requires StorageOk(p, n) && DagOk(n) && LedgerOk(p, n)
    requires InWorld(p, d) && d.id in n.engine.stored && n.engine.stored[d.id] == d
    requires d.round + p.gcRounds > n.engine.dag.last
    ensures Resolve(ViewOf(n.engine, p.gcRounds, unreadable), d.round, d.id)
         == if d in Committed(n.engine.log) then Skip else Found(d)
  {
    var e := n.engine;
    CommittedIsWorld(p, n, d);
    assert IsRecentlyCommitted(e.dag, d.round, d.id) <==> CommittedAt(Committed(e.log), d.round, d.id);
    var found := FindById(CertificatesAt(e.dag, d.round), d.id);
    if found.Some? {
      var a :| a in CertificatesAt(e.dag, d.round) && e.dag.graph[d.round][a] == found.value && found.value.id == d.id;
      assert found.value in Certificates(e.dag);
      assert InWorld(p, found.value);
    }
  }

  lemma ResolvesInIdeal(p: Params, n: Node, d: Certificate)
    requires LedgerOk(p, n) && InWorld(p, d)
    ensures Resolve(IdealView(p, LedgerIds(n.engine.log), n.engine.dag.last), d.round, d.id)
         == if d in Committed(n.engine.log) then Skip else Found(d)
  {
    CommittedIsWorld(p, n, d);
  }

  /** A parent the traversal looks up is skipped when committed and found otherwise, exactly as with
      nothing ever collected. */
  lemma ParentResolves(p: Params, n: Node, unreadable: set<Id>, c: Certificate, id: Id) returns (d: Certificate)
    requires StorageOk(p, n) && DagOk(n) && LedgerOk(p, n)
    requires c in n.ever && id in c.parents
    requires Open(ViewOf(n.engine, p.gcRounds, unreadable), c)
    ensures d in n.ever && d.id == id && d.round + 1 == c.round && IsCommitted(p, {d}, id)
    ensures var committed := Committed(n.engine.log);
            var l := if d in committed then Skip else Found(d);
            && Resolve(ViewOf(n.engine, p.gcRounds, unreadable), PreviousRound(c), id) == l
            && Resolve(IdealView(p, LedgerIds(n.engine.log), n.engine.dag.last), PreviousRound(c), id) == l
  {
    d := ParentIsStored(p, n, c, id);
    ResolvesInNode(p, n, unreadable, d);
    ResolvesInIdeal(p, n, d);
  }

  lemma CommittedIsWorld(p: Params, n: Node, d: Certificate)
    requires LedgerOk(p, n) && InWorld(p, d)
    ensures d in Committed(n.engine.log) <==> CommittedAt(Committed(n.engine.log), d.round, d.id)
    ensures d in Committed(n.engine.log) <==> d.id in LedgerIds(n.engine.log)
  {
    var log := n.engine.log;
    if CommittedAt(Committed(log), d.round, d.id) {
      var x :| x in Committed(log) && x.round == d.round && x.id == d.id;
      assert InWorld(p, x);
    }
    if d.id in LedgerIds(log) {
      var b, x :| b in log && x in b.certificates && x.id == d.id;
      assert x in Committed(log);
      assert InWorld(p, x);
    }
  }

  lemma ViewIsSound(p: Params, n: Node, unreadable: set<Id>)
    requires ValidParams(p) && StorageOk(p, n) && DagOk(n) && LedgerOk(p, n)
    ensures Sound(ViewOf(n.engine, p.gcRounds, unreadable), n.ever)
    ensures Agree(ViewOf(n.engine, p.gcRounds, unreadable), IdealView(p, LedgerIds(n.engine.log), n.engine.dag.last),
        n.ever)
  {
    var v := ViewOf(n.engine, p.gcRounds, unreadable);
    var w := IdealView(p, LedgerIds(n.engine.log), n.engine.dag.last);
    forall c, id | c in n.ever && Open(v, c) && id in c.parents
      ensures ResolvesIn(v, n.ever, c.round, Resolve(v, PreviousRound(c), id), id)
      ensures Resolve(v, PreviousRound(c), id) == Resolve(w, PreviousRound(c), id)
    {
      var d := ParentResolves(p, n, unreadable, c, id);
    }
    assert IdsDetermine(n.ever) by {
      forall c, d | c in n.ever && d in n.ever && c.id == d.id
        ensures c == d
      {
        assert InWorld(p, c) && InWorld(p, d);
      }
    }
  }

  /** `a` can be committed next. */
  ghost predicate IsAnchor(n: Node, a: Certificate) {
    a in n.delivered && a.round > n.engine.dag.last && a.round % 2 == 0
  }

  /** The certificates committed with an anchor. */
  ghost predicate Collects(p: Params, n: Node, unreadable: set<Id>, a: Certificate, certificates: seq<Certificate>) {
    && (forall d :: d in certificates <==> Reaches(ViewOf(n.engine, p.gcRounds, unreadable), a, d))
    && (forall d :: d in certificates ==> d in n.ever && d.round <= a.round && multiset(certificates)[d] == 1)
    && a in certificates
  }

  /** Ordering an anchor of a reachable state never fails, and gives the ideal subdag. */
  lemma AnchorOrders(p: Params, n: Node, a: Certificate, unreadable: set<Id>)
    requires Inv(p, n) && IsAnchor(n, a)
    ensures OrderDag(ViewOf(n.engine, p.gcRounds, unreadable), a).Some?
    ensures var subdag := OrderDag(ViewOf(n.engine, p.gcRounds, unreadable), a).value;
            && AnchorRoundIs(subdag, a.round)
            && Flatten(subdag, a.round) == IdealSubdag(p, LedgerIds(n.engine.log), n.engine.dag.last, a)
            && Collects(p, n, unreadable, a, Flatten(subdag, a.round))
  {
    var v := ViewOf(n.engine, p.gcRounds, unreadable);
    ViewIsSound(p, n, unreadable);
    OrderDagAgrees(v, IdealView(p, LedgerIds(n.engine.log), n.engine.dag.last), n.ever, a);
    SubdagExact(v, n.ever, a);
    DfsExact(v, n.ever, a);
    FlattenContains(OrderDag(v, a).value, a.round);
    assert Reaches(v, a, a);
  }

  /** No certificate is committed twice. */
  lemma CollectsUncommitted(p: Params, n: Node, unreadable: set<Id>, a: Certificate, certificates: seq<Certificate>)
    requires Inv(p, n) && IsAnchor(n, a) && Collects(p, n, unreadable, a, certificates)
    ensures Committed(n.engine.log) !! Elements(certificates)
  {
    var v := ViewOf(n.engine, p.gcRounds, unreadable);
    forall d | d in certificates
      ensures d !in Committed(n.engine.log)
    {
      if d != a {
        var c := ReachesLastStep(v, a, d);
        assert c in certificates;
        var d' := ParentResolves(p, n, unreadable, c, d.id);
      }
    }
  }

  /** The parents above the horizon are committed with their children or before them. */
  lemma CollectsParents(p: Params, n: Node, unreadable: set<Id>, a: Certificate, certificates: seq<Certificate>)
    requires Inv(p, n) && IsAnchor(n, a) && Collects(p, n, unreadable, a, certificates)
    ensures CausallyComplete(p, Committed(n.engine.log) + Elements(certificates), a.round)
  {
    var v := ViewOf(n.engine, p.gcRounds, unreadable);
    var before := Committed(n.engine.log);
    var all := before + Elements(certificates);
    forall c, id | c in all && id in c.parents && PreviousRound(c) + p.gcRounds > a.round
      ensures IsCommitted(p, all, id)
    {
      if c in before {
        assert IsCommitted(p, before, id);
      } else {
        var d := ParentResolves(p, n, unreadable, c, id);
        if d !in before {
          assert Edge(v, c, d);
          ReachesExtends(v, a, c, d);
        }
      }
    }
  }

  // Committing one anchor.

  lemma LogGrows(log: seq<Block>, b: Block)
    ensures Committed(log + [b]) == Committed(log) + Elements(b.certificates)
    ensures LedgerKeys(log + [b]) == LedgerKeys(log) + KeysOf(b.transmissions)
    ensures Anchors(log + [b]) == Anchors(log) + [b.anchor]
    ensures Subdags(log + [b]) == Subdags(log) + [b.certificates]
  {
    assert forall x :: x in log + [b] <==> x in log || x == b;
  }

  lemma LedgerIdsAreSubdagIds(log: seq<Block>)
    ensures IdsIn(Subdags(log)) == LedgerIds(log)
  {
    forall id
      ensures id in IdsIn(Subdags(log)) <==> id in LedgerIds(log)
    {
      if id in IdsIn(Subdags(log)) {
        var s, c :| s in Subdags(log) && c in s && c.id == id;
        var i :| 0 <= i < |log| && Subdags(log)[i] == s;
        assert log[i] in log && c in log[i].certificates;
      }
      if id in LedgerIds(log) {
        var b, c :| b in log && c in b.certificates && c.id == id;
        var i :| 0 <= i < |log| && log[i] == b;
        assert Subdags(log)[i] in Subdags(log);
      }
    }
  }

  lemma IdealGrows(p: Params, log: seq<Block>, b: Block)
    requires ValidParams(p)
    requires Subdags(log) == IdealSubdags(p, Anchors(log))
    requires b.certificates == IdealSubdag(p, LedgerIds(log), LastRound(log), b.anchor)
    ensures Subdags(log + [b]) == IdealSubdags(p, Anchors(log + [b]))
  {
    LogGrows(log, b);
    LedgerIdsAreSubdagIds(log);
    var anchors := Anchors(log + [b]);
    assert anchors[..|anchors| - 1] == Anchors(log);
  }

  lemma CommitLedgerOk(p: Params, n: Node, b: Block)
    requires LedgerOk(p, n) && b.anchor.round > n.engine.dag.last
    requires b.anchor in b.certificates && forall c :: c in b.certificates ==>
        c.round <= b.anchor.round && InWorld(p, c)
    ensures LedgerOk(p, WithBlock(p, n, b)) && WithBlock(p, n, b).engine.dag.last == b.anchor.round
  {
    LogGrows(n.engine.log, b);
    hide Tracks;
    CommitsUpTo(n.engine.dag, Committed(n.engine.log), b.certificates, p.gcRounds, b.anchor);
  }

  lemma CommitDagOk(p: Params, n: Node, b: Block)
    requires DagOk(n)
    ensures DagOk(WithBlock(p, n, b))
  {
    CommitAllPrunes(n.engine.dag, b.certificates, p.gcRounds);
  }

  /** Delivered parents stay delivered or committed as the log grows and garbage is collected. */
  lemma DeliveredStays(p: Params, n: Node, n': Node)
    requires DeliveredOk(p, n)
    requires n'.delivered == n.delivered && n.engine.gcRound <= n'.engine.gcRound
    requires Committed(n.engine.log) <= Committed(n'.engine.log)
    ensures DeliveredOk(p, n')
  {
    forall c | c in n'.delivered
      ensures ParentsDelivered(p, n', c)
    {
      assert ParentsDelivered(p, n, c);
    }
  }

  lemma StorageStays(p: Params, n: Node, n': Node)
    requires StorageOk(p, n)
    requires n'.ever == n.ever && n'.engine.stored == n.engine.stored && n'.engine.gcRound == n.engine.gcRound
    ensures StorageOk(p, n')
  {
  }

  lemma NewBlockIsApart(log: seq<Block>, b: Block, i: nat)
    requires i < |log| && log[i].anchor.round + 2 <= b.anchor.round
    requires Committed(log) !! Elements(b.certificates)
    requires KeysOf(b.transmissions) !! LedgerKeys(log)
    ensures Apart(log[i], b)
  {
    assert log[i] in log;
    forall c | c in log[i].certificates
      ensures c !in b.certificates
    {
      assert c in Committed(log);
      assert c in b.certificates ==> c in Elements(b.certificates);
    }
    assert forall k :: k in KeysOf(log[i].transmissions) ==> k in LedgerKeys(log);
  }

  lemma CommitLogOk(log: seq<Block>, b: Block)
    requires LogOk(log) && BlockOk(b) && LastRound(log) < b.anchor.round
    requires Committed(log) !! Elements(b.certificates)
    requires KeysOf(b.transmissions) !! LedgerKeys(log)
    ensures LogOk(log + [b])
  {
    hide KeysOf;
    hide LedgerKeys;
    hide Committed;
    hide Elements;
    forall i | 0 <= i < |log|
      ensures Apart(log[i], b)
    {
      assert BlockOk(log[|log| - 1]);
      if i < |log| - 1 {
        assert Apart(log[i], log[|log| - 1]);
      }
      NewBlockIsApart(log, b, i);
    }
  }

  lemma CommitBlockOk(p: Params, n: Node, unreadable: set<Id>, b: Block)
    requires IsAnchor(n, b.anchor) && Collects(p, n, unreadable, b.anchor, b.certificates)
    requires DistinctKeys(b.transmissions) && StorageOk(p, n)
    ensures BlockOk(b) && forall c :: c in b.certificates ==> InWorld(p, c)
  {
  }

  /** Committing a block for an anchor keeps the invariant. */
  lemma CommitBlockKeeps(p: Params, n: Node, unreadable: set<Id>, b: Block)
    requires Inv(p, n) && IsAnchor(n, b.anchor) && Collects(p, n, unreadable, b.anchor, b.certificates)
    requires b.certificates == IdealSubdag(p, LedgerIds(n.engine.log), n.engine.dag.last, b.anchor)
    requires DistinctKeys(b.transmissions) && KeysOf(b.transmissions) !! LedgerKeys(n.engine.log)
    ensures Inv(p, WithBlock(p, n, b)) && WithBlock(p, n, b).engine.dag.last == b.anchor.round
  {
    hide StorageOk;
    hide DagOk;
    hide Tracks;
    hide CausallyComplete;
    hide DeliveredOk;
    hide LogOk;
    hide Collects;
    hide DistinctKeys;
    hide IdealSubdags;
    hide IdealSubdag;
    CommitBlockOk(p, n, unreadable, b);
    CommitLedgerOk(p, n, b);
    CommitDagOk(p, n, b);
    CollectsUncommitted(p, n, unreadable, b.anchor, b.certificates);
    CommitLogOk(n.engine.log, b);
    CollectsParents(p, n, unreadable, b.anchor, b.certificates);
    LogGrows(n.engine.log, b);
    IdealGrows(p, n.engine.log, b);
    StorageStays(p, n, WithBlock(p, n, b));
    DeliveredStays(p, n, WithBlock(p, n, b));
  }

  lemma CommitAnchorKeeps(p: Params, n: Node, a: Certificate, answer: Answer)
    requires Inv(p, n) && IsAnchor(n, a)
    requires CommitAnchor(n.engine, p.gcRounds, a, answer).Some?
    ensures var e' := CommitAnchor(n.engine, p.gcRounds, a, answer).value;
            && Inv(p, n.(engine := e'))
            && e'.dag.last == a.round
            && e'.gcRound == n.engine.gcRound
            && Anchors(e'.log) == Anchors(n.engine.log) + [a]
            && Certificates(e'.dag) <= Certificates(n.engine.dag)
  {
    var unreadable := answer.unreadableCertificates;
    AnchorOrders(p, n, a, unreadable);
    var certificates := Flatten(OrderDag(ViewOf(n.engine, p.gcRounds, unreadable), a).value, a.round);
    BlockKeys(SourcesOf(n.engine, answer), Declared(certificates));
    var b := Block(a, certificates, Gather(SourcesOf(n.engine, answer), Declared(certificates), []).value);
    CommitBlockKeeps(p, n, unreadable, b);
    LogGrows(n.engine.log, b);
    CommitAllPrunes(n.engine.dag, certificates, p.gcRounds);
  }
}
