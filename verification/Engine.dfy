/** The commit engine of `node/bft/src/bft.rs` as functions of its state: inserting a certificate,
    deciding that a leader is committable, walking back to older linked leaders, and committing
    them oldest first. */
module Engines {
  import opened Types
  import opened Committees
  import opened Dags
  import opened Links
  import opened Dfs
  import opened Blocks
  import opened Memories

  datatype Block = Block(anchor: Certificate, certificates: seq<Certificate>, transmissions: seq<TransmissionId>)

  /** The DAG, the certificates of storage with its garbage collection round and its transmissions, and
      the ledger. */
  datatype Engine = Engine(
    dag: DagState,
    stored: map<Id, Certificate>,
    gcRound: Round,
    memory: Memory,
    log: seq<Block>)

  /** What the surroundings contribute to committing one anchor: which ledger reads fail, and whether
      consensus accepts the block. */
  datatype Answer = Answer(
    unreadableCertificates: set<Id>,
    unreadableTransmissions: set<TransmissionId>,
    accepted: bool)

  function LedgerIds(log: seq<Block>): set<Id> {
    set b, c | b in log && c in b.certificates :: c.id
  }

  function LedgerKeys(log: seq<Block>): set<Key> {
    set b, k | b in log && k in KeysOf(b.transmissions) :: k
  }

  function ViewOf(e: Engine, gcRounds: nat, unreadable: set<Id>): View {
    View(e.dag, e.stored, LedgerIds(e.log) - unreadable, gcRounds)
  }

  /** The traversal skips a parent exactly when it was committed recently, or is in a block and the ledger can tell. */
  lemma SkippedExactly(e: Engine, gcRounds: nat, unreadable: set<Id>, r: Round, id: Id)
    ensures Resolve(ViewOf(e, gcRounds, unreadable), r, id).Skip? <==>
              || (r in e.dag.recent && id in e.dag.recent[r])
              || (id !in unreadable && exists b, c :: b in e.log && c in b.certificates && c.id == id)
  {
    assert id in LedgerIds(e.log) <==> exists b, c :: b in e.log && c in b.certificates && c.id == id;
  }

  function SourcesOf(e: Engine, answer: Answer): Sources {
    Sources(LedgerKeys(e.log), answer.unreadableTransmissions, e.memory.transmissions.Keys)
  }

  /** Commits one anchor; `None` when an error or a refusal leaves the engine unchanged. */
  ghost function CommitAnchor(e: Engine, gcRounds: nat, anchor: Certificate, answer: Answer): Option<Engine>
    requires WellStored(e.stored)
  {
    match OrderDag(ViewOf(e, gcRounds, answer.unreadableCertificates), anchor)
    case None => None
    case Some(subdag) =>
      var certificates := Flatten(subdag, anchor.round);
      match Gather(SourcesOf(e, answer), Declared(certificates), [])
      case None => None
      case Some(transmissions) =>
        if !AnchorRoundIs(subdag, anchor.round) || !answer.accepted then None
        else Some(e.(dag := AfterCommits(e.dag, certificates, gcRounds),
                     log := e.log + [Block(anchor, certificates, transmissions)]))
  }

  datatype Outcome = Outcome(engine: Engine, finished: bool)

  /** Commits the anchors in order until one fails. */
  ghost function CommitAnchors(e: Engine, gcRounds: nat, anchors: seq<Certificate>, answers: seq<Answer>): Outcome
    requires WellStored(e.stored)
    decreases |anchors|
  {
    if anchors == [] then Outcome(e, true)
    else if answers == [] then Outcome(e, false)
    else
      match CommitAnchor(e, gcRounds, anchors[0], answers[0])
      case None => Outcome(e, false)
      case Some(e') => CommitAnchors(e', gcRounds, anchors[1..], answers[1..])
  }

  /** The leaders at rounds `r`, `r - 2`, ... above the last committed round that are linked, each to
      the next newer one, oldest first; `None` when a link cannot be decided. */
  ghost function WalkBack(d: DagState, leader: Address, r: int, current: Certificate): Option<seq<Certificate>>
    decreases r
  {
    if r < d.last + 2 then Some([])
    else if leader !in CertificatesAt(d, r) then WalkBack(d, leader, r - 2, current)
    else
      var previous := d.graph[r][leader];
      match LinkAnswer(d, previous, current)
      case None => None
      case Some(false) => WalkBack(d, leader, r - 2, current)
      case Some(true) =>
        match WalkBack(d, leader, r - 2, previous)
        case None => None
        case Some(older) => Some(older + [previous])
  }

  /** Removes the certificates at or below the new garbage collection round, and what only they held. */
  function CollectGarbage(e: Engine, gcRounds: nat, round: Round): Engine {
    var next := Monus(round, gcRounds);
    if next <= e.gcRound then e
    else
      var gone := set id | id in e.stored && e.stored[id].round <= next;
      e.(stored := e.stored - gone, gcRound := next, memory := Released(e.memory, gone))
  }

  /** `commit_leader_certificate` */
  ghost function CommitLeader(e: Engine, gcRounds: nat, leader: Address, anchor: Certificate, answers: seq<Answer>)
    : Engine
    requires WellStored(e.stored)
  {
    match WalkBack(e.dag, leader, anchor.round - 2, anchor)
    case None => e
    case Some(older) =>
      var p := CommitAnchors(e, gcRounds, older + [anchor], answers);
      if p.finished then CollectGarbage(p.engine, gcRounds, anchor.round) else p.engine
  }

  /** The authors of round `r` of the DAG who included the certificate `id`. */
  ghost function Including(d: DagState, r: Round, id: Id): set<Address> {
    set a | a in CertificatesAt(d, r) && id in d.graph[r][a].parents :: d.graph[r][a].author
  }

  /** The leader certificate that `update_dag` decides to commit after inserting `c`, if any.
      `known` holds the committees that the ledger can return. */
  ghost function Committable(d: DagState, leader: Address, known: map<Round, Committee>, c: Certificate)
    : Option<Certificate>
  {
    var r := PreviousRound(c);
    if r % 2 != 0 || r < 2 || r <= d.last then None
    else if r !in known || leader !in CertificatesAt(d, r) || c.round !in d.graph || c.round !in known then None
    else
      var a := d.graph[r][leader];
      if known[c.round].HasAvailability(Including(d, c.round, a.id)) then Some(a) else None
  }

  /** `update_dag` */
  ghost function UpdateDag(e: Engine, gcRounds: nat, leader: Address, known: map<Round, Committee>,
                           c: Certificate, answers: seq<Answer>): Engine
    requires WellStored(e.stored)
  {
    var e' := e.(dag := AfterInsert(e.dag, c));
    match Committable(e'.dag, leader, known, c)
    case None => e'
    case Some(anchor) => CommitLeader(e', gcRounds, leader, anchor, answers)
  }
}
