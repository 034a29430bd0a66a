/** Whole runs of the node: certificates are stored and delivered to the DAG in any order that
    respects their parents, chunks of anchors are committed and may stop half way, garbage is
    collected, and the node may restart from its ledger at any time. */
module Nodes {
  import opened Types
  import opened Committees
  import opened Dags
  import opened Links
  import opened Dfs
  import opened Blocks
  import opened Memories
  import opened Engines

  /** `world` holds every certificate that exists, by ID; `committee` is the lookback committee of a round. */
  datatype Params = Params(
    gcRounds: nat,
    leader: Address,
    committee: Round -> Committee,
    world: map<Id, Certificate>)

  /** The engine, with two history variables that last until the next restart: the certificates ever
      stored and those ever delivered to the DAG. */
  datatype Node = Node(engine: Engine, ever: set<Certificate>, delivered: set<Certificate>)

  datatype Event =
    | Store(certificate: Certificate, provided: map<TransmissionId, Transmission>, aborted: set<TransmissionId>)
    | Deliver(certificate: Certificate, known: map<Round, Committee>, answers: seq<Answer>)
    | Restart

  ghost predicate ValidParams(p: Params) {
    WellStored(p.world)
  }

  /** `c` exists; round-1 certificates have no parents. */
  ghost predicate InWorld(p: Params, c: Certificate) {
    c.id in p.world && p.world[c.id] == c && c.round >= 1 && (c.round == 1 ==> c.parents == [])
  }

  function Committed(log: seq<Block>): set<Certificate> {
    set b, c | b in log && c in b.certificates :: c
  }

  function LastRound(log: seq<Block>): Round {
    if log == [] then 0 else log[|log| - 1].anchor.round
  }

  function AllCertificates(blocks: seq<Block>): seq<Certificate> {
    if blocks == [] then [] else blocks[0].certificates + AllCertificates(blocks[1..])
  }

  /** The blocks that bootup reads back: the last `gcRounds / 2 + 1`, or all of them. */
  function Window(log: seq<Block>, gcRounds: nat): seq<Block> {
    log[Monus(|log|, gcRounds / 2 + 1)..]
  }

  /** The engine right after bootup has committed the window into an empty DAG. */
  function Rebooted(log: seq<Block>, gcRounds: nat): Engine {
    Engine(AfterCommits(EMPTY_DAG, AllCertificates(Window(log, gcRounds)), gcRounds),
           map[], Monus(LastRound(log), gcRounds), EMPTY_MEMORY, log)
  }

  /** Storage accepts the certificate (`insert_certificate`). */
  ghost predicate Accepts(p: Params, e: Engine, c: Certificate) {
    && InWorld(p, c)
    && c.round > e.gcRound
    && c.id !in e.stored
    && (forall id :: id in e.stored ==> e.stored[id].round != c.round || e.stored[id].author != c.author)
    && (PreviousRound(c) > e.gcRound ==> ParentsAccepted(e.stored, p.committee(c.round - 1), c))
  }

  /** The engine with a certificate and its transmissions stored. */
  function Stored(e: Engine, c: Certificate, provided: map<TransmissionId, Transmission>,
                  aborted: set<TransmissionId>): Engine
  {
    e.(stored := e.stored[c.id := c], memory := Inserted(e.memory, c, aborted, provided))
  }

  /** The parents of `c` were delivered or committed before it. */
  ghost predicate ParentsDelivered(p: Params, n: Node, c: Certificate) {
    PreviousRound(c) > n.engine.gcRound ==>
      forall id :: id in c.parents ==> id in p.world && p.world[id] in n.delivered + Committed(n.engine.log)
  }

  ghost predicate Enabled(p: Params, n: Node, event: Event) {
    match event
    case Store(c, provided, aborted) =>
      && Accepts(p, n.engine, c)
      && Supplied(n.engine.memory, c.transmissions, provided, aborted)
      && OnlyDeclared(c.transmissions, aborted)
    case Deliver(c, known, _) =>
      && c in n.ever
      && ParentsDelivered(p, n, c)
      && (forall r :: r in known ==> known[r] == p.committee(r))
      && WellStored(n.engine.stored)
    case Restart => true
  }

  /** The next state; an event that is not enabled has no effect. */
  ghost function Next(p: Params, n: Node, event: Event): Node {
    if !Enabled(p, n, event) then n else
      match event
      case Store(c, provided, aborted) =>
        n.(engine := Stored(n.engine, c, provided, aborted), ever := n.ever + {c})
      case Deliver(c, known, answers) =>
        n.(engine := UpdateDag(n.engine, p.gcRounds, p.leader, known, c, answers), delivered := n.delivered + {c})
      case Restart => Node(Rebooted(n.engine.log, p.gcRounds), {}, {})
  }

  /** The state after a run, from an empty ledger. */
  ghost function After(p: Params, run: seq<Event>): Node {
    if run == [] then Node(Rebooted([], p.gcRounds), {}, {})
    else Next(p, After(p, run[..|run| - 1]), run[|run| - 1])
  }

  // The invariant.

  ghost predicate StorageOk(p: Params, n: Node) {
    && (forall c :: c in n.ever ==> InWorld(p, c))
    && (forall id :: id in n.engine.stored ==>
          n.engine.stored[id].id == id && n.engine.stored[id] in n.ever && n.engine.stored[id].round > n.engine.gcRound)
    && (forall c :: c in n.ever && c.round > n.engine.gcRound ==> c.id in n.engine.stored)
    && Unique(n.ever)
    && ClosedAbove(n.ever, n.engine.gcRound, p.committee)
  }

  /** Every transmission in memory is held by stored certificates, and theirs are all recorded. */
  ghost predicate MemoryOk(n: Node) {
    RefCounted(n.engine.memory, n.engine.stored)
  }

  ghost predicate DagOk(n: Node) {
    && Keyed(n.engine.dag)
    && Certificates(n.engine.dag) <= n.delivered <= n.ever
    && (forall c :: c in n.delivered && c.round > n.engine.dag.last ==> InGraph(n.engine.dag, c))
  }

  ghost predicate LedgerOk(p: Params, n: Node) {
    && (forall c :: c in Committed(n.engine.log) ==> InWorld(p, c))
    && Tracks(n.engine.dag, Committed(n.engine.log), p.gcRounds)
    && n.engine.dag.last == LastRound(n.engine.log)
    && (n.engine.gcRound == 0 || n.engine.gcRound + p.gcRounds <= n.engine.dag.last)
  }

  ghost predicate IsCommitted(p: Params, committed: set<Certificate>, id: Id) {
    id in p.world && p.world[id] in committed
  }

  /** Every parent above the horizon of a committed certificate is committed. */
  ghost predicate CausallyComplete(p: Params, committed: set<Certificate>, last: Round) {
    forall c, id {:trigger id in c.parents, IsCommitted(p, committed, id)} ::
      c in committed && id in c.parents && PreviousRound(c) + p.gcRounds > last ==> IsCommitted(p, committed, id)
  }

  /** Commits a block. */
  function WithBlock(p: Params, n: Node, b: Block): Node {
    n.(engine := n.engine.(dag := AfterCommits(n.engine.dag, b.certificates, p.gcRounds), log := n.engine.log + [b]))
  }

  ghost predicate DeliveredOk(p: Params, n: Node) {
    forall c {:trigger ParentsDelivered(p, n, c)} :: c in n.delivered ==> ParentsDelivered(p, n, c)
  }

  ghost predicate BlockOk(b: Block) {
    && b.anchor in b.certificates
    && b.anchor.round % 2 == 0
    && (forall c :: c in b.certificates ==> c.round <= b.anchor.round && multiset(b.certificates)[c] == 1)
    && DistinctKeys(b.transmissions)
  }

  /** Two blocks, the older one first, share no certificate, transaction or solution, and are two rounds apart. */
  ghost predicate Apart(b: Block, b': Block) {
    && b.anchor.round + 2 <= b'.anchor.round
    && (forall c :: c in b.certificates ==> c !in b'.certificates)
    && KeysOf(b.transmissions) !! KeysOf(b'.transmissions)
  }

  ghost predicate LogOk(log: seq<Block>) {
    && (forall i {:trigger BlockOk(log[i])} :: 0 <= i < |log| ==> BlockOk(log[i]))
    && (forall i, j {:trigger Apart(log[i], log[j])} :: 0 <= i < j < |log| ==> Apart(log[i], log[j]))
  }

  // The log as a function of its anchors.

  function Anchors(log: seq<Block>): seq<Certificate> {
    seq(|log|, i requires 0 <= i < |log| => log[i].anchor)
  }

  function Subdags(log: seq<Block>): seq<seq<Certificate>> {
    seq(|log|, i requires 0 <= i < |log| => log[i].certificates)
  }

  function IdsIn(subdags: seq<seq<Certificate>>): set<Id> {
    set s, c | s in subdags && c in s :: c.id
  }

  /** A traversal with nothing collected and every committed certificate remembered. */
  function IdealView(p: Params, committed: set<Id>, last: Round): View {
    View(DagState(map[], map[], last), p.world, committed, p.gcRounds)
  }

  ghost function IdealSubdag(p: Params, committed: set<Id>, last: Round, anchor: Certificate): seq<Certificate>
    requires ValidParams(p)
  {
    match OrderDag(IdealView(p, committed, last), anchor)
    case None => []
    case Some(subdag) => Flatten(subdag, anchor.round)
  }

  /** The subdags that committing these anchors in order must produce, whatever was delivered when. */
  ghost function IdealSubdags(p: Params, anchors: seq<Certificate>): seq<seq<Certificate>>
    requires ValidParams(p)
    decreases |anchors|
  {
    if anchors == [] then [] else
      var init, anchor := anchors[..|anchors| - 1], anchors[|anchors| - 1];
      var prior := IdealSubdags(p, init);
      prior + [IdealSubdag(p, IdsIn(prior), if init == [] then 0 else init[|init| - 1].round, anchor)]
  }

  ghost predicate Inv(p: Params, n: Node) {
    && ValidParams(p)
    && StorageOk(p, n)
    && MemoryOk(n)
    && DagOk(n)
    && LedgerOk(p, n)
    && CausallyComplete(p, Committed(n.engine.log), n.engine.dag.last)
    && DeliveredOk(p, n)
    && LogOk(n.engine.log)
    && Subdags(n.engine.log) == IdealSubdags(p, Anchors(n.engine.log))
  }
}
