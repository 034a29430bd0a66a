/** Paths between certificates: `is_linked` of `node/bft/src/bft.rs`, and the quorum-intersection
    argument that makes every later certificate reach a supported anchor. */
module Links {
  import opened Types
  import opened Committees
  import opened Dags

  /** One step down: `d` is a certificate of `s` that `c` declares as a parent, one round lower. */
  ghost predicate Step(s: set<Certificate>, c: Certificate, d: Certificate) {
    d in s && d.id in c.parents && d.round + 1 == c.round
  }

  /** There is a path of certificates of `s`, one round per step, from `hi` down to `lo`. */
  ghost predicate Linked(s: set<Certificate>, hi: Certificate, lo: Certificate)
    decreases hi.round
  {
    hi == lo || exists m :: Step(s, hi, m) && Linked(s, m, lo)
  }

  lemma {:induction false} LinkedDescends(s: set<Certificate>, hi: Certificate, lo: Certificate)
    requires Linked(s, hi, lo)
    ensures hi == lo || (lo.round < hi.round && lo in s)
    decreases hi.round
  {
    if hi != lo {
      var m :| Step(s, hi, m) && Linked(s, m, lo);
      LinkedDescends(s, m, lo);
    }
  }

  lemma {:induction false} LinkedExtends(s: set<Certificate>, hi: Certificate, x: Certificate, y: Certificate)
    requires Linked(s, hi, x)
    requires Step(s, x, y)
    ensures Linked(s, hi, y)
    decreases hi.round
  {
    if hi == x {
      assert Linked(s, y, y);
    } else {
      var m :| Step(s, hi, m) && Linked(s, m, x);
      LinkedExtends(s, m, x, y);
    }
  }

  lemma {:induction false} LinkedLastStep(s: set<Certificate>, hi: Certificate, y: Certificate) returns (x: Certificate)
    requires Linked(s, hi, y)
    requires hi != y
    ensures Linked(s, hi, x) && Step(s, x, y)
    decreases hi.round
  {
    var m :| Step(s, hi, m) && Linked(s, m, y);
    if m == y {
      x := hi;
    } else {
      x := LinkedLastStep(s, m, y);
    }
  }

  /** The answer `is_linked` must give: an error exactly when the DAG has lost a round in between,
      and otherwise whether a path of DAG certificates joins the two. */
  ghost function LinkAnswer(d: DagState, previous: Certificate, current: Certificate): Option<bool> {
    if forall r: Round :: previous.round <= r < current.round ==> r in d.graph
    then Some(Linked(Certificates(d), current, previous))
    else None
  }

  /** The certificates reached at one round give those reached at the round below. */
  lemma TraversalDescends(d: DagState, current: Certificate, round: Round, above: set<Certificate>,
                          below: set<Certificate>)
    requires Keyed(d) && round in d.graph && round < current.round
    requires forall x: Certificate :: x in above <==> x.round == round + 1 && Linked(Certificates(d), current, x)
    requires forall x: Certificate :: x in below <==>
        x in d.graph[round].Values && exists c :: c in above && x.id in c.parents
    ensures forall x: Certificate :: x in below <==> x.round == round && Linked(Certificates(d), current, x)
  {
    var s := Certificates(d);
    forall x: Certificate
      ensures x in below <==> x.round == round && Linked(s, current, x)
    {
      assert x in d.graph[round].Values <==> x in s && x.round == round;
      if x in below {
        var c :| c in above && x.id in c.parents;
        LinkedExtends(s, current, c, x);
      }
      if x.round == round && Linked(s, current, x) {
        var c := LinkedLastStep(s, current, x);
        assert c in above;
      }
    }
  }

  method IsLinked(dag: Dag, previous: Certificate, current: Certificate) returns (linked: Option<bool>)
    requires Keyed(dag.Value())
    ensures linked == LinkAnswer(dag.Value(), previous, current)
    ensures linked.None? <==> exists r: Round :: previous.round <= r < current.round && r !in dag.graph
    ensures linked.Some? ==> (linked.value <==> Linked(Certificates(dag.Value()), current, previous))
  {
    hide Linked;
    hide Certificates;
    hide Keyed;
    ghost var s := Certificates(dag.Value());
    var traversal := {current};
    var round := current.round;
    OnlyItselfAtRound(s, current);
    while round > previous.round
      invariant round <= current.round
      invariant previous.round <= round || round == current.round
      invariant forall r: Round :: round <= r < current.round ==> r in dag.graph
      invariant forall x: Certificate :: x in traversal <==> x.round == round && Linked(s, current, x)
    {
      round := round - 1;
      if round !in dag.graph {
        return None;
      }
      var certificates := dag.graph[round].Values;
      ghost var above := traversal;
      traversal := set p | p in certificates && exists c :: c in traversal && p.id in c.parents;
      TraversalDescends(dag.Value(), current, round, above, traversal);
    }
    if Linked(s, current, previous) {
      LinkedDescends(s, current, previous);
    }
    return Some(previous in traversal);
  }

  lemma OnlyItselfAtRound(s: set<Certificate>, c: Certificate)
    ensures forall x: Certificate :: x == c <==> x.round == c.round && Linked(s, c, x)
  {
    forall x: Certificate | x.round == c.round && Linked(s, c, x)
      ensures x == c
    {
      LinkedDescends(s, c, x);
    }
  }

  /** At most one certificate per author and round. */
  ghost predicate Unique(s: set<Certificate>) {
    forall c, d :: c in s && d in s && c.round == d.round && c.author == d.author ==> c == d
  }

  ghost function AuthorsOf(s: set<Certificate>): set<Address> {
    set c | c in s :: c.author
  }

  ghost function ParentsIn(s: set<Certificate>, c: Certificate): set<Certificate> {
    set d | d in s && Step(s, c, d)
  }

  ghost predicate HasParent(s: set<Certificate>, c: Certificate, id: Id) {
    exists d :: Step(s, c, d) && d.id == id
  }

  /** All parents of `c` are in `s`, and they come from a quorum of the previous round. */
  ghost predicate Rooted(s: set<Certificate>, c: Certificate, committee: Round -> Committee) {
    && c.round > 0
    && (forall id :: id in c.parents ==> HasParent(s, c, id))
    && committee(c.round - 1).HasQuorum(AuthorsOf(ParentsIn(s, c)))
  }

  lemma RootedHasParent(s: set<Certificate>, c: Certificate, committee: Round -> Committee) returns (d: Certificate)
    requires Rooted(s, c, committee)
    ensures Step(s, c, d)
  {
    var quorum := AuthorsOf(ParentsIn(s, c));
    committee(c.round - 1).QuorumIsNotEmpty(quorum);
    var author :| author in quorum;
    d :| d in ParentsIn(s, c) && d.author == author;
  }

  /** The certificates above `floor + 1` are rooted. */
  ghost predicate ClosedAbove(s: set<Certificate>, floor: Round, committee: Round -> Committee) {
    forall c {:trigger Rooted(s, c, committee)} :: c in s && c.round > floor + 1 ==> Rooted(s, c, committee)
  }

  /** The check storage makes on the parents of `c`: all stored, from the previous round, by a quorum of authors. */
  ghost predicate ParentsAccepted(stored: map<Id, Certificate>, previous: Committee, c: Certificate) {
    && (forall id :: id in c.parents ==> id in stored && stored[id].round + 1 == c.round)
    && previous.HasQuorum(set id | id in c.parents && id in stored :: stored[id].author)
  }

  /** The authors of the next round who included `a`. */
  ghost function Supporters(s: set<Certificate>, a: Certificate): set<Address> {
    set c | c in s && c.round == a.round + 1 && a.id in c.parents :: c.author
  }

  ghost predicate Supported(s: set<Certificate>, a: Certificate, committee: Round -> Committee) {
    committee(a.round + 1).HasAvailability(Supporters(s, a))
  }

  lemma SupportedMonotone(s: set<Certificate>, t: set<Certificate>, a: Certificate, committee: Round -> Committee)
    requires s <= t && Supported(s, a, committee)
    ensures Supported(t, a, committee)
  {
    assert Supporters(s, a) <= Supporters(t, a);
    committee(a.round + 1).StakeOfMonotone(Supporters(s, a), Supporters(t, a));
  }

  /** Anchor inclusion: once `a` has availability-threshold support one round up, every certificate
      two or more rounds up has a path to it. */
  lemma {:induction false} AnchorInclusion(s: set<Certificate>, floor: Round, committee: Round -> Committee,
                                           a: Certificate, c: Certificate)
    requires ClosedAbove(s, floor, committee)
    requires Unique(s)
    requires a in s && floor <= a.round
    requires Supported(s, a, committee)
    requires c in s && c.round >= a.round + 2
    ensures Linked(s, c, a)
    decreases c.round
  {
    assert Rooted(s, c, committee);
    if c.round == a.round + 2 {
      var quorum := AuthorsOf(ParentsIn(s, c));
      committee(a.round + 1).QuorumIntersection(quorum, Supporters(s, a));
      var shared :| shared in quorum * Supporters(s, a);
      var p :| p in ParentsIn(s, c) && p.author == shared;
      assert Step(s, p, a) && Linked(s, a, a);
    } else {
      var p := RootedHasParent(s, c, committee);
      AnchorInclusion(s, floor, committee, a, p);
    }
  }
}
