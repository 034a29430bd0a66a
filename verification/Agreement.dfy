/** Agreement: any two runs over the same certificates commit the same anchors, with the same
    subdags, in the same order, as far as both have got. */
module Agreement {
  import opened Types
  import opened Committees
  import opened Dags
  import opened Links
  import opened Dfs
  import opened Engines
  import opened Nodes
  import opened NodeProofs
  import opened NodeRuns
  import opened Bootup

  /** The certificates that exist: one per author and round, each with a quorum of existing parents. */
  ghost predicate ValidWorld(p: Params) {
    && ValidParams(p)
    && (forall c :: c in p.world.Values ==> InWorld(p, c))
    && Unique(p.world.Values)
    && ClosedAbove(p.world.Values, 0, p.committee)
  }

  ghost predicate IsLeader(s: set<Certificate>, leader: Address, r: int, c: Certificate) {
    c in s && c.author == leader && c.round == r
  }

  /** The leaders above round `lo` at rounds `r`, `r - 2`, ... of `s`, each linked from the next newer
      one and the newest from `current`, oldest first. */
  ghost function Leaders(s: set<Certificate>, leader: Address, lo: Round, r: int, current: Certificate)
    : seq<Certificate>
    decreases r
  {
    if r < lo + 2 then []
    else if l :| IsLeader(s, leader, r, l) && Linked(s, current, l)
    then Leaders(s, leader, lo, r - 2, l) + [l]
    else Leaders(s, leader, lo, r - 2, current)
  }

  /** The whole history of a leader, itself included. */
  ghost function History(s: set<Certificate>, leader: Address, c: Certificate): seq<Certificate> {
    Leaders(s, leader, 0, c.round - 2, c) + [c]
  }

  ghost predicate Rising(cs: seq<Certificate>, lo: int, hi: int) {
    && (forall i :: 0 <= i < |cs| ==> lo < cs[i].round <= hi)
    && (forall i, j :: 0 <= i < j < |cs| ==> cs[i].round < cs[j].round)
  }

  lemma {:induction false} LeadersRise(s: set<Certificate>, leader: Address, lo: Round, r: int, current: Certificate)
    ensures Rising(Leaders(s, leader, lo, r, current), lo, r)
    decreases r
  {
    if r >= lo + 2 {
      if l :| && IsLeader(s, leader, r, l) && Linked(s, current, l)
              && Leaders(s, leader, lo, r, current) == Leaders(s, leader, lo, r - 2, l) + [l] {
        LeadersRise(s, leader, lo, r - 2, l);
      } else {
        LeadersRise(s, leader, lo, r - 2, current);
      }
    }
  }

  /** One step of the leader walk when round `r` has a linked leader. */
  lemma LeadersStep(s: set<Certificate>, leader: Address, lo: Round, r: int, current: Certificate, l: Certificate)
    requires Unique(s) && r >= lo + 2
    requires IsLeader(s, leader, r, l) && Linked(s, current, l)
    ensures Leaders(s, leader, lo, r, current) == Leaders(s, leader, lo, r - 2, l) + [l]
  {
  }

  lemma LeadersSkip(s: set<Certificate>, leader: Address, lo: Round, r: int, current: Certificate)
    requires r >= lo + 2
    requires !exists l :: IsLeader(s, leader, r, l) && Linked(s, current, l)
    ensures Leaders(s, leader, lo, r, current) == Leaders(s, leader, lo, r - 2, current)
  {
  }

  /** The history of a supported leader is a prefix of every later walk. */
  lemma {:induction false} SupportedHistoryIsPrefix(p: Params, a: Certificate, r: int, current: Certificate)
    requires ValidWorld(p)
    requires IsLeader(p.world.Values, p.leader, a.round, a) && a.round >= 2 && a.round % 2 == 0
    requires Supported(p.world.Values, a, p.committee)
    requires current in p.world.Values && current.round >= a.round + 2
    requires r >= a.round && r % 2 == 0
    ensures History(p.world.Values, p.leader, a) <= Leaders(p.world.Values, p.leader, 0, r, current)
    decreases r
  {
    hide Linked;
    hide Leaders;
    hide Supported;
    hide ClosedAbove;
    hide Unique;
    var s := p.world.Values;
    if r == a.round {
      AnchorInclusion(s, 0, p.committee, a, current);
      LeadersStep(s, p.leader, 0, r, current, a);
    } else if l :| IsLeader(s, p.leader, r, l) && Linked(s, current, l) {
      LeadersStep(s, p.leader, 0, r, current, l);
      SupportedHistoryIsPrefix(p, a, r - 2, l);
    } else {
      LeadersSkip(s, p.leader, 0, r, current);
      SupportedHistoryIsPrefix(p, a, r - 2, current);
    }
  }

  /** A leader that was, or could be, committed directly. */
  ghost predicate Direct(p: Params, a: Certificate) {
    && IsLeader(p.world.Values, p.leader, a.round, a)
    && a.round >= 2 && a.round % 2 == 0
    && Supported(p.world.Values, a, p.committee)
  }

  /** The histories of two directly committable leaders never diverge. */
  lemma DirectHistoriesAgree(p: Params, a: Certificate, c: Certificate)
    requires ValidWorld(p) && Direct(p, a) && Direct(p, c)
    requires a.round <= c.round
    ensures History(p.world.Values, p.leader, a) <= History(p.world.Values, p.leader, c)
  {
    if a.round < c.round {
      SupportedHistoryIsPrefix(p, a, c.round - 2, c);
    } else {
      assert a == c;
    }
  }

  /** Cutting the walk at `lo` only drops its leaders up to `lo`. */
  lemma LeadersEnd(s: set<Certificate>, leader: Address, lo: Round, r: int, current: Certificate)
    requires r < lo + 2
    ensures Leaders(s, leader, 0, r, current) + Leaders(s, leader, lo, r, current) == Leaders(s, leader, 0, r, current)
  {
  }

  lemma RisingUpTo(cs: seq<Certificate>, lo: int, r: int, hi: int)
    requires Rising(cs, lo, r) && hi % 2 == 0 && r % 2 == 0 && r < hi + 2
    ensures Rising(cs, lo, hi)
  {
  }

  lemma {:induction false} LeadersCut(s: set<Certificate>, leader: Address, lo: Round, r: int, current: Certificate)
    returns (older: seq<Certificate>)
    requires Unique(s) && lo % 2 == 0 && r % 2 == 0
    ensures Leaders(s, leader, 0, r, current) == older + Leaders(s, leader, lo, r, current)
    ensures Rising(older, 0, lo)
    decreases r
  {
    hide Leaders;
    hide Linked;
    hide Unique;
    hide Rising;
    if r < lo + 2 {
      older := Leaders(s, leader, 0, r, current);
      LeadersRise(s, leader, 0, r, current);
      LeadersEnd(s, leader, lo, r, current);
      RisingUpTo(older, 0, r, lo);
    } else if l :| IsLeader(s, leader, r, l) && Linked(s, current, l) {
      LeadersStep(s, leader, 0, r, current, l);
      LeadersStep(s, leader, lo, r, current, l);
      older := LeadersCut(s, leader, lo, r - 2, l);
      var rest := Leaders(s, leader, lo, r - 2, l);
      assert older + rest + [l] == older + (rest + [l]);
    } else {
      LeadersSkip(s, leader, 0, r, current);
      LeadersSkip(s, leader, lo, r, current);
      older := LeadersCut(s, leader, lo, r - 2, current);
    }
  }

  /** The committed anchors are the first ones of the history of a directly committable leader. */
  ghost predicate Agrees(p: Params, anchors: seq<Certificate>) {
    anchors == [] || exists c :: Direct(p, c) && anchors <= History(p.world.Values, p.leader, c)
  }

  lemma HistoryRises(p: Params, c: Certificate)
    requires c.round >= 2
    ensures Rising(History(p.world.Values, p.leader, c), 0, c.round)
  {
    LeadersRise(p.world.Values, p.leader, 0, c.round - 2, c);
  }

  /** Committed anchors below a new directly committable leader are the start of its history. */
  lemma AnchorsBelowDirect(p: Params, anchors: seq<Certificate>, a: Certificate)
    requires ValidWorld(p) && Agrees(p, anchors) && Direct(p, a)
    requires anchors == [] || anchors[|anchors| - 1].round < a.round
    ensures anchors <= History(p.world.Values, p.leader, a)
  {
    var s := p.world.Values;
    if anchors != [] {
      var c :| Direct(p, c) && anchors <= History(s, p.leader, c);
      if c.round <= a.round {
        DirectHistoriesAgree(p, c, a);
      } else {
        DirectHistoriesAgree(p, a, c);
        HistoryRises(p, c);
        var h, k := History(s, p.leader, c), |History(s, p.leader, a)| - 1;
        assert h[k] == a && h[|anchors| - 1].round < h[k].round;
      }
    }
  }

  /** What is left of the history above the last anchor is exactly the cut walk. */
  lemma HistoryAboveAnchors(p: Params, anchors: seq<Certificate>, last: Round, a: Certificate)
    requires ValidWorld(p) && Direct(p, a) && last < a.round && last % 2 == 0
    requires anchors <= History(p.world.Values, p.leader, a)
    requires if anchors == [] then last == 0 else anchors[|anchors| - 1].round == last
    ensures History(p.world.Values, p.leader, a)
         == anchors + Leaders(p.world.Values, p.leader, last, a.round - 2, a) + [a]
  {
    hide Linked;
    hide Leaders;
    hide Supported;
    hide ClosedAbove;
    hide Unique;
    var s := p.world.Values;
    var h := History(s, p.leader, a);
    var newer := Leaders(s, p.leader, last, a.round - 2, a);
    var older := LeadersCut(s, p.leader, last, a.round - 2, a);
    LeadersRise(s, p.leader, last, a.round - 2, a);
    HistoryRises(p, a);
    assert h == older + (newer + [a]);
    SamePrefix(h, older, anchors, last);
  }

  lemma RisingRange(cs: seq<Certificate>, lo: int, hi: int)
    requires Rising(cs, lo, hi)
    ensures cs != [] ==> lo < hi
  {
    if cs != [] {
      assert lo < cs[0].round <= hi;
    }
  }

  /** In a rising sequence the elements up to `last` are one prefix. */
  lemma SamePrefix(h: seq<Certificate>, older: seq<Certificate>, anchors: seq<Certificate>, last: Round)
    requires Rising(h, 0, if h == [] then 0 else h[|h| - 1].round)
    requires older <= h && anchors <= h
    requires Rising(older, 0, last) && forall i :: |older| <= i < |h| ==> h[i].round > last
    requires if anchors == [] then last == 0 else anchors[|anchors| - 1].round == last
    ensures older == anchors
  {
    RisingRange(older, 0, last);
    if anchors != [] {
      var k := |anchors| - 1;
      assert h[k].round == last && k < |older|;
      var i := |older| - 1;
      assert older[i] == h[i] && h[i].round <= h[k].round;
      assert i <= k;
    }
  }

  // The walk of the node is the cut walk over everything that exists.

  lemma DeliveredIsWorld(p: Params, n: Node)
    requires Inv(p, n) && ValidWorld(p)
    ensures n.delivered <= p.world.Values && Certificates(n.engine.dag) <= n.delivered && Keyed(n.engine.dag)
  {
    forall c | c in n.delivered
      ensures c in p.world.Values
    {
      assert InWorld(p, c);
    }
  }

  /** A leader of the world that a delivered certificate links to is the one the DAG holds. */
  lemma LinkedLeaderInGraph(p: Params, n: Node, r: Round, current: Certificate, l: Certificate)
    requires Inv(p, n) && ValidWorld(p)
    requires current in n.delivered && r > n.engine.dag.last && r < current.round
    requires IsLeader(p.world.Values, p.leader, r, l) && Linked(p.world.Values, current, l)
    ensures InGraph(n.engine.dag, l)
  {
    InvFacts(p, n);
    LinkedInDag(p, n, p.world.Values, current, l);
    LinkedDescends(Certificates(n.engine.dag), current, l);
    assert l in Certificates(n.engine.dag) && Keyed(n.engine.dag);
  }

  lemma WalkStep(p: Params, n: Node, r: Round, current: Certificate)
    requires Inv(p, n) && ValidWorld(p)
    requires current in n.delivered && r >= n.engine.dag.last + 2 && r % 2 == 0 && r < current.round
    ensures if exists l :: IsLeader(p.world.Values, p.leader, r, l) && Linked(p.world.Values, current, l)
            then
              && p.leader in CertificatesAt(n.engine.dag, r)
              && var l := n.engine.dag.graph[r][p.leader];
                 && IsLeader(p.world.Values, p.leader, r, l) && Linked(p.world.Values, current, l)
                 && l in n.delivered
                 && LinkAnswer(n.engine.dag, l, current) == Some(true)
            else
              p.leader in CertificatesAt(n.engine.dag, r) ==>
                LinkAnswer(n.engine.dag, n.engine.dag.graph[r][p.leader], current) == Some(false)
  {
    var s := p.world.Values;
    InvFacts(p, n);
    DeliveredIsWorld(p, n);
    if p.leader in CertificatesAt(n.engine.dag, r) {
      var l := n.engine.dag.graph[r][p.leader];
      LeaderInGraph(p, n, r, current);
      LinkExact(p, n, s, l, current);
      assert IsLeader(s, p.leader, r, l);
    }
    if l :| IsLeader(s, p.leader, r, l) && Linked(s, current, l) {
      LinkedLeaderInGraph(p, n, r, current, l);
    }
  }

  lemma {:induction false} WalkIsLeaders(p: Params, n: Node, r: int, current: Certificate)
    requires Inv(p, n) && ValidWorld(p)
    requires current in n.delivered && r % 2 == 0 && r < current.round
    ensures WalkBack(n.engine.dag, p.leader, r, current) ==
              Some(Leaders(p.world.Values, p.leader, n.engine.dag.last, r, current))
    decreases r
  {
    hide Inv;
    hide LinkAnswer;
    hide Linked;
    var s, d := p.world.Values, n.engine.dag;
    if r >= d.last + 2 {
      WalkStep(p, n, r, current);
      if exists l :: IsLeader(s, p.leader, r, l) && Linked(s, current, l) {
        var l := d.graph[r][p.leader];
        LeadersStep(s, p.leader, d.last, r, current, l);
        WalkIsLeaders(p, n, r - 2, l);
      } else {
        LeadersSkip(s, p.leader, d.last, r, current);
        WalkIsLeaders(p, n, r - 2, current);
      }
    }
  }

  /** The leader that `update_dag` decides to commit is directly committable in the world. */
  lemma CommittableIsDirect(p: Params, d: DagState, known: map<Round, Committee>, c: Certificate)
    requires Keyed(d) && Certificates(d) <= p.world.Values
    requires forall r :: r in known ==> known[r] == p.committee(r)
    requires Committable(d, p.leader, known, c).Some?
    ensures Direct(p, Committable(d, p.leader, known, c).value)
  {
    var s := p.world.Values;
    var a := Committable(d, p.leader, known, c).value;
    assert a in Certificates(d);
    forall x | x in Including(d, c.round, a.id)
      ensures x in Supporters(s, a)
    {
      var y :| && y in CertificatesAt(d, c.round)
               && a.id in d.graph[c.round][y].parents && d.graph[c.round][y].author == x;
      assert d.graph[c.round][y] in Certificates(d);
    }
    p.committee(c.round).StakeOfMonotone(Including(d, c.round, a.id), Supporters(s, a));
  }

  lemma AnchorsEndAtLast(p: Params, n: Node)
    requires LedgerOk(p, n)
    ensures var anchors := Anchors(n.engine.log);
            if anchors == [] then n.engine.dag.last == 0 else anchors[|anchors| - 1].round == n.engine.dag.last
  {
    hide Tracks;
    hide Committed;
  }

  lemma CommitLeaderLog(e: Engine, gcRounds: nat, leader: Address, a: Certificate, answers: seq<Answer>)
    requires WellStored(e.stored) && WalkBack(e.dag, leader, a.round - 2, a).Some?
    ensures var anchors := WalkBack(e.dag, leader, a.round - 2, a).value + [a];
            CommitLeader(e, gcRounds, leader, a, answers).log == CommitAnchors(e, gcRounds, anchors, answers).engine.log
  {
    hide WalkBack;
    hide CommitAnchors;
  }

  lemma PartIsPrefix(xs: seq<Certificate>, ys: seq<Certificate>, k: nat)
    requires k <= |ys|
    ensures xs + ys[..k] <= xs + ys
  {
  }

  lemma CommitLeaderAgrees(p: Params, n: Node, a: Certificate, answers: seq<Answer>)
    requires Inv(p, n) && ValidWorld(p) && IsAnchor(n, a) && Direct(p, a)
    requires Agrees(p, Anchors(n.engine.log))
    ensures WellStored(n.engine.stored)
    ensures Agrees(p, Anchors(CommitLeader(n.engine, p.gcRounds, p.leader, a, answers).log))
  {
    hide Inv;
    hide ValidWorld;
    hide StorageOk;
    hide DagOk;
    hide LedgerOk;
    hide DeliveredOk;
    hide MemoryOk;
    hide CommitLeader;
    hide WalkBack;
    hide CommitAnchors;
    hide Leaders;
    hide Agrees;
    hide Direct;
    DirectRound(p, a);
    var anchors, last := Anchors(n.engine.log), n.engine.dag.last;
    InvFacts(p, n);
    AnchorsEndAtLast(p, n);
    WalkSucceeds(p, n, a.round - 2, a);
    WalkIsLeaders(p, n, a.round - 2, a);
    AnchorsBelowDirect(p, anchors, a);
    HistoryAboveAnchors(p, anchors, last, a);
    var newer := Leaders(p.world.Values, p.leader, last, a.round - 2, a) + [a];
    var k := CommitAnchorsKeeps(p, n, newer, answers);
    CommitLeaderLog(n.engine, p.gcRounds, p.leader, a, answers);
    PartIsPrefix(anchors, newer, k);
    AgreesBy(p, a, anchors + newer[..k]);
  }

  lemma AgreesBy(p: Params, c: Certificate, anchors: seq<Certificate>)
    requires Direct(p, c) && anchors <= History(p.world.Values, p.leader, c)
    ensures Agrees(p, anchors)
  {
  }

  lemma DirectRound(p: Params, c: Certificate)
    requires Direct(p, c)
    ensures c.round >= 2 && c.round % 2 == 0
  {
  }

  lemma DeliverAgrees(p: Params, n: Node, c: Certificate, known: map<Round, Committee>, answers: seq<Answer>)
    requires Inv(p, n) && ValidWorld(p) && Enabled(p, n, Deliver(c, known, answers))
    requires Agrees(p, Anchors(n.engine.log))
    ensures Agrees(p, Anchors(Next(p, n, Deliver(c, known, answers)).engine.log))
  {
    hide Inv;
    hide ValidWorld;
    hide Agrees;
    hide StorageOk;
    hide MemoryOk;
    hide DagOk;
    hide LedgerOk;
    hide DeliveredOk;
    hide Committable;
    hide CommitLeader;
    InsertKeeps(p, n, c);
    var n' := Node(n.engine.(dag := AfterInsert(n.engine.dag, c)), n.ever, n.delivered + {c});
    var a := Committable(n'.engine.dag, p.leader, known, c);
    InvFacts(p, n');
    if a.Some? {
      CommittableIsAnchor(p, n', known, c);
      DeliveredIsWorld(p, n');
      CommittableIsDirect(p, n'.engine.dag, known, c);
      CommitLeaderAgrees(p, n', a.value, answers);
    }
  }

  // Whole runs.

  lemma NextKeeps(p: Params, n: Node, event: Event)
    requires Inv(p, n)
    ensures Inv(p, Next(p, n, event))
  {
    hide Inv;
    if Enabled(p, n, event) {
      match event
      case Store(c, provided, aborted) => StoreKeeps(p, n, c, provided, aborted);
      case Deliver(c, known, answers) => DeliverKeeps(p, n, c, known, answers);
      case Restart => RestartKeeps(p, n);
    }
  }

  lemma {:induction false} RunKeeps(p: Params, run: seq<Event>)
    requires ValidParams(p)
    ensures Inv(p, After(p, run))
  {
    if run == [] {
      StartIsOk(p);
    } else {
      RunKeeps(p, run[..|run| - 1]);
      NextKeeps(p, After(p, run[..|run| - 1]), run[|run| - 1]);
    }
  }

  lemma {:induction false} RunAgrees(p: Params, run: seq<Event>)
    requires ValidWorld(p)
    ensures Agrees(p, Anchors(After(p, run).engine.log))
  {
    hide Inv;
    hide Agrees;
    hide ValidWorld;
    if run == [] {
      EmptyAgrees(p);
    } else {
      var n, event := After(p, run[..|run| - 1]), run[|run| - 1];
      RunAgrees(p, run[..|run| - 1]);
      WorldIsParams(p);
      RunKeeps(p, run[..|run| - 1]);
      if Enabled(p, n, event) && event.Deliver? {
        DeliverAgrees(p, n, event.certificate, event.known, event.answers);
      }
    }
  }

  lemma EmptyAgrees(p: Params)
    ensures Agrees(p, Anchors(After(p, []).engine.log))
  {
  }

  lemma WorldIsParams(p: Params)
    requires ValidWorld(p)
    ensures ValidParams(p)
  {
  }

  /** Directly committable histories are totally ordered by prefix. */
  lemma AnchorsComparable(p: Params, xs: seq<Certificate>, ys: seq<Certificate>)
    requires ValidWorld(p) && Agrees(p, xs) && Agrees(p, ys)
    ensures xs <= ys || ys <= xs
  {
    hide ValidWorld;
    hide Direct;
    hide History;
    if xs != [] && ys != [] {
      var s := p.world.Values;
      var c :| Direct(p, c) && xs <= History(s, p.leader, c);
      var d :| Direct(p, d) && ys <= History(s, p.leader, d);
      if c.round <= d.round {
        DirectHistoriesAgree(p, c, d);
      } else {
        DirectHistoriesAgree(p, d, c);
      }
    }
  }

  lemma {:induction false} IdealPrefix(p: Params, anchors: seq<Certificate>, k: nat)
    requires ValidParams(p) && k <= |anchors|
    ensures |IdealSubdags(p, anchors)| == |anchors|
    ensures IdealSubdags(p, anchors[..k]) == IdealSubdags(p, anchors)[..k]
    decreases |anchors|
  {
    if k == |anchors| {
      assert anchors[..k] == anchors;
      if anchors != [] {
        IdealPrefix(p, anchors[..|anchors| - 1], |anchors| - 1);
      }
    } else {
      var init := anchors[..|anchors| - 1];
      IdealPrefix(p, init, k);
      assert init[..k] == anchors[..k];
    }
  }

  /** Chunk independence: the ordered subdags of any run are a function of its anchors alone. */
  lemma LogIsIdeal(p: Params, run: seq<Event>)
    requires ValidParams(p)
    ensures Subdags(After(p, run).engine.log) == IdealSubdags(p, Anchors(After(p, run).engine.log))
  {
    RunKeeps(p, run);
    hide StorageOk;
    hide DagOk;
    hide LedgerOk;
    hide DeliveredOk;
    hide CausallyComplete;
    hide LogOk;
    hide After;
    hide IdealSubdags;
  }

  /** Agreement: of two runs over the same certificates, in whatever order they arrive, however the
      commits are chunked, wherever they stop and whenever the node restarts, one has committed a
      prefix of what the other has: the same anchors, each with the same certificates in the same order. */
  lemma RunsAgree(p: Params, run: seq<Event>, run': seq<Event>)
    requires ValidWorld(p)
    ensures var log, log' := After(p, run).engine.log, After(p, run').engine.log;
            || (Anchors(log) <= Anchors(log') && Subdags(log) <= Subdags(log'))
            || (Anchors(log') <= Anchors(log) && Subdags(log') <= Subdags(log))
  {
    hide ValidWorld;
    hide Agrees;
    hide After;
    hide IdealSubdags;
    var n, n' := After(p, run), After(p, run');
    var a, a' := Anchors(n.engine.log), Anchors(n'.engine.log);
    WorldIsParams(p);
    LogIsIdeal(p, run);
    LogIsIdeal(p, run');
    RunAgrees(p, run);
    RunAgrees(p, run');
    AnchorsComparable(p, a, a');
    if a <= a' {
      assert a == a'[..|a|];
      IdealPrefix(p, a', |a|);
    } else {
      assert a' == a[..|a'|];
      IdealPrefix(p, a, |a'|);
    }
  }
}
