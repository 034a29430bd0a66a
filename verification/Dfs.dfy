/** `order_dag_with_dfs` of `node/bft/src/bft.rs`: the traversal as a function of what it can see,
    the loop that performs it, and what it collects. */
module Dfs {
  import opened Types
  import opened Dags

  /** Everything the traversal looks at. `ledger` holds the IDs the ledger reports as present. */
  datatype View = View(dag: DagState, stored: map<Id, Certificate>, ledger: set<Id>, gcRounds: nat)

  datatype Lookup = Skip | Missing | Found(certificate: Certificate)

  datatype Frontier = Frontier(buffer: seq<Certificate>, ordered: set<Id>)

  type Subdag = map<Round, seq<Certificate>>

  ghost predicate WellStored(stored: map<Id, Certificate>) {
    forall id :: id in stored ==> stored[id].id == id
  }

  ghost function FindById(m: map<Address, Certificate>, id: Id): Option<Certificate> {
    if a :| a in m && m[a].id == id then Some(m[a]) else None
  }

  /** What happens to the parent `id` of a certificate whose previous round is `r`. */
  ghost function Resolve(v: View, r: Round, id: Id): Lookup {
    if IsRecentlyCommitted(v.dag, r, id) || id in v.ledger then Skip
    else
      match FindById(CertificatesAt(v.dag, r), id)
      case Some(c) => Found(c)
      case None => if id in v.stored then Found(v.stored[id]) else Missing
  }

  /** A lookup in full: skipped exactly when committed recently or in the ledger, and otherwise found in the DAG,
      or failing that in storage. */
  lemma ResolveExactly(v: View, r: Round, id: Id, c: Certificate)
    requires IdsDetermine(Certificates(v.dag))
    ensures Resolve(v, r, id).Skip? <==> (r in v.dag.recent && id in v.dag.recent[r]) || id in v.ledger
    ensures Resolve(v, r, id) == Found(c) <==>
              && !(r in v.dag.recent && id in v.dag.recent[r]) && id !in v.ledger
              && (|| (r in v.dag.graph && c in v.dag.graph[r].Values && c.id == id)
                  || ((r in v.dag.graph ==> forall d :: d in v.dag.graph[r].Values ==> d.id != id)
                      && id in v.stored && v.stored[id] == c))
  {
    var m := CertificatesAt(v.dag, r);
    if c in m.Values && c.id == id {
      FindByIdIsUnique(v.dag, r, id, Some(c));
    }
    assert forall a :: a in m ==> m[a] in m.Values;
  }

  /** The parents of `c` are above the garbage collection horizon. */
  predicate Open(v: View, c: Certificate) {
    PreviousRound(c) + v.gcRounds > v.dag.last
  }

  ghost function KnownIds(v: View): set<Id> {
    v.stored.Keys + set c | c in Certificates(v.dag) :: c.id
  }

  lemma FoundIsKnown(v: View, r: Round, id: Id)
    requires WellStored(v.stored)
    requires Resolve(v, r, id).Found?
    ensures Resolve(v, r, id).certificate.id == id && id in KnownIds(v)
  {
    if FindById(CertificatesAt(v.dag, r), id).Some? {
      var a :| a in CertificatesAt(v.dag, r) && Resolve(v, r, id).certificate == v.dag.graph[r][a];
      assert v.dag.graph[r][a] in Certificates(v.dag);
    }
  }

  /** Pushes the parents `ids` that are still to be visited, last one first. */
  ghost function Expand(v: View, r: Round, ids: seq<Id>, buffer: seq<Certificate>, ordered: set<Id>)
    : (f: Option<Frontier>)
    requires WellStored(v.stored)
    ensures f.Some? ==> ordered <= f.value.ordered <= ordered + KnownIds(v)
    ensures f.Some? && f.value.ordered == ordered ==> f.value.buffer == buffer
    decreases |ids|
  {
    if ids == [] then Some(Frontier(buffer, ordered)) else
      var id, rest := ids[|ids| - 1], ids[..|ids| - 1];
      if id in ordered then Expand(v, r, rest, buffer, ordered) else
        match Resolve(v, r, id)
        case Skip => Expand(v, r, rest, buffer, ordered)
        case Missing => None
        case Found(c) =>
          FoundIsKnown(v, r, id);
          Expand(v, r, rest, buffer + [c], ordered + {id})
  }

  /** The certificates popped from the buffer, in order; `None` when a parent is missing. */
  ghost function Traverse(v: View, buffer: seq<Certificate>, ordered: set<Id>, visits: seq<Certificate>)
    : Option<seq<Certificate>>
    requires WellStored(v.stored)
    decreases KnownIds(v) - ordered, |buffer|
  {
    if buffer == [] then Some(visits) else
      var c, rest := buffer[|buffer| - 1], buffer[..|buffer| - 1];
      if !Open(v, c) then Traverse(v, rest, ordered, visits + [c]) else
        match Expand(v, PreviousRound(c), c.parents, rest, ordered)
        case None => None
        case Some(f) =>
          assert KnownIds(v) - f.ordered <= KnownIds(v) - ordered;
          assert KnownIds(v) - f.ordered == KnownIds(v) - ordered ==> f.ordered == ordered;
          Traverse(v, f.buffer, f.ordered, visits + [c])
  }

  ghost function Visits(v: View, leader: Certificate): Option<seq<Certificate>>
    requires WellStored(v.stored)
  {
    Traverse(v, [leader], {}, [])
  }

  /** `commit.entry(round).or_default().insert(c)` on a map of insertion-ordered sets */
  function Grouped(m: Subdag, c: Certificate): Subdag {
    var bucket := if c.round in m then m[c.round] else [];
    m[c.round := if c in bucket then bucket else bucket + [c]]
  }

  function GroupByRound(visits: seq<Certificate>): Subdag {
    if visits == [] then map[]
    else Grouped(GroupByRound(visits[..|visits| - 1]), visits[|visits| - 1])
  }

  /** `commit.values().flatten()`: the buckets of rounds 0 to `hi`, oldest round first */
  function Flatten(m: Subdag, hi: Round): seq<Certificate> {
    (if hi == 0 then [] else Flatten(m, hi - 1)) + (if hi in m then m[hi] else [])
  }

  /** The anchor round of a subdag is its highest round. */
  predicate AnchorRoundIs(subdag: Subdag, r: Round) {
    r in subdag && forall x :: x in subdag ==> x <= r
  }

  ghost function OrderDag(v: View, leader: Certificate): Option<Subdag>
    requires WellStored(v.stored)
  {
    match Visits(v, leader)
    case None => None
    case Some(visits) => Some(Within(GroupByRound(visits), v.gcRounds, v.dag.last))
  }

  /** The inner loop: pushes the parents of a popped certificate. */
  method PushParents(dag: Dag, stored: map<Id, Certificate>, ledger: set<Id>, ghost gcRounds: nat,
                     previousRound: Round, parents: seq<Id>, stack: seq<Certificate>, ordered: set<Id>)
    returns (frontier: Option<Frontier>)
    requires WellStored(stored)
    requires IdsDetermine(Certificates(dag.Value()))
    ensures frontier == Expand(View(dag.Value(), stored, ledger, gcRounds), previousRound, parents, stack, ordered)
  {
    ghost var v := View(dag.Value(), stored, ledger, gcRounds);
    var buffer, alreadyOrdered := stack, ordered;
    var i := |parents|;
    assert parents[..i] == parents;
    while i > 0
      invariant 0 <= i <= |parents|
      invariant Expand(v, previousRound, parents, stack, ordered) ==
          Expand(v, previousRound, parents[..i], buffer, alreadyOrdered)
    {
      i := i - 1;
      var id := parents[i];
      assert parents[..i + 1][..i] == parents[..i];
      if id in alreadyOrdered {
        continue;
      }
      if IsRecentlyCommitted(dag.Value(), previousRound, id) {
        continue;
      }
      if id in ledger {
        continue;
      }
      var previous := dag.FindInRound(previousRound, id);
      FindByIdIsUnique(dag.Value(), previousRound, id, previous);
      if previous.None? {
        if id !in stored {
          return None;
        }
        previous := Some(stored[id]);
      }
      alreadyOrdered := alreadyOrdered + {previous.value.id};
      buffer := buffer + [previous.value];
    }
    return Some(Frontier(buffer, alreadyOrdered));
  }

  method OrderDagWithDfs(dag: Dag, stored: map<Id, Certificate>, ledger: set<Id>, gcRounds: nat, leader: Certificate)
    returns (subdag: Option<Subdag>)
    requires WellStored(stored)
    requires IdsDetermine(Certificates(dag.Value()))
    ensures subdag == OrderDag(View(dag.Value(), stored, ledger, gcRounds), leader)
  {
    ghost var v := View(dag.Value(), stored, ledger, gcRounds);
    ghost var visits := [];
    var commit: Subdag := map[];
    var alreadyOrdered: set<Id> := {};
    var buffer := [leader];
    while buffer != []
      invariant commit == GroupByRound(visits)
      invariant Visits(v, leader) == Traverse(v, buffer, alreadyOrdered, visits)
      decreases KnownIds(v) - alreadyOrdered, |buffer|
    {
      var certificate := buffer[|buffer| - 1];
      ghost var before := visits;
      buffer := buffer[..|buffer| - 1];
      commit := Grouped(commit, certificate);
      visits := visits + [certificate];
      assert visits[..|visits| - 1] == before;
      var previousRound := PreviousRound(certificate);
      if previousRound + gcRounds <= dag.lastCommittedRound {
        continue;
      }
      var frontier := PushParents(dag, stored, ledger, gcRounds, previousRound, certificate.parents, buffer,
          alreadyOrdered);
      if frontier.None? {
        return None;
      }
      assert KnownIds(v) - frontier.value.ordered <= KnownIds(v) - alreadyOrdered;
      assert KnownIds(v) - frontier.value.ordered == KnownIds(v) - alreadyOrdered ==>
          frontier.value.ordered == alreadyOrdered;
      buffer, alreadyOrdered := frontier.value.buffer, frontier.value.ordered;
    }
    return Some(Within(commit, gcRounds, dag.lastCommittedRound));
  }

  lemma FindByIdIsUnique(d: DagState, r: Round, id: Id, found: Option<Certificate>)
    requires IdsDetermine(Certificates(d))
    requires found.None? <==> forall a :: a in CertificatesAt(d, r) ==> CertificatesAt(d, r)[a].id != id
    requires found.Some? ==> found.value.id == id && found.value in CertificatesAt(d, r).Values
    ensures found == FindById(CertificatesAt(d, r), id)
  {
    var m := CertificatesAt(d, r);
    if found.Some? {
      var b :| b in m && m[b] == found.value;
      var a :| a in m && m[a].id == id && FindById(m, id) == Some(m[a]);
      assert d.graph[r][a] in Certificates(d) && d.graph[r][b] in Certificates(d);
    }
  }
}
