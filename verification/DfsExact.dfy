/** What the traversal of `order_dag_with_dfs` collects: exactly the certificates reachable from the
    leader through uncommitted parents above the garbage collection horizon, each once. */
module DfsExactness {
  import opened Types
  import opened Dags
  import opened Dfs

  /** The traversal may step from `c` to its parent `d`. */
  ghost predicate Edge(v: View, c: Certificate, d: Certificate) {
    Open(v, c) && d.id in c.parents && Resolve(v, PreviousRound(c), d.id) == Found(d)
  }

  ghost predicate Reaches(v: View, c: Certificate, d: Certificate)
    decreases c.round
  {
    c == d || exists m: Certificate :: m.round < c.round && Edge(v, c, m) && Reaches(v, m, d)
  }

  /** Within `s`, every parent the traversal looks up is either skipped or found, again in `s`,
      under its own ID and one round lower. */
  ghost predicate Resolvable(v: View, s: set<Certificate>) {
    forall c, id :: c in s && Open(v, c) && id in c.parents ==>
                      ResolvesIn(v, s, c.round, Resolve(v, PreviousRound(c), id), id)
  }

  ghost predicate ResolvesIn(v: View, s: set<Certificate>, round: Round, l: Lookup, id: Id) {
    l.Skip? || (l.Found? && l.certificate.id == id && l.certificate in s && l.certificate.round + 1 == round)
  }

  ghost predicate Sound(v: View, s: set<Certificate>) {
    WellStored(v.stored) && IdsDetermine(s) && Resolvable(v, s)
  }

  ghost predicate HasId(m: multiset<Certificate>, id: Id) {
    exists c :: c in m && c.id == id
  }

  /** What the traversal keeps: the seen certificates are distinct, reachable, and recorded as ordered. */
  ghost predicate Progress(v: View, s: set<Certificate>, leader: Certificate, seen: multiset<Certificate>,
                           ordered: set<Id>)
  {
    && leader in seen
    && (forall c :: c in seen ==> seen[c] == 1 && IsSeen(v, s, leader, ordered, c))
    && (forall id :: id in ordered ==> HasId(seen, id))
  }

  ghost predicate IsSeen(v: View, s: set<Certificate>, leader: Certificate, ordered: set<Id>, c: Certificate) {
    c in s && Reaches(v, leader, c) && (c != leader ==> c.id in ordered && c.round < leader.round)
  }

  /** Every edge out of a visited certificate leads to an ordered one. */
  ghost predicate Explored(v: View, visits: multiset<Certificate>, ordered: set<Id>) {
    forall c, d :: c in visits && Edge(v, c, d) ==> d.id in ordered
  }

  lemma {:induction false} ReachesExtends(v: View, a: Certificate, c: Certificate, d: Certificate)
    requires Reaches(v, a, c)
    requires Edge(v, c, d) && d.round < c.round
    ensures Reaches(v, a, d)
    decreases a.round
  {
    if a == c {
      assert Reaches(v, d, d);
    } else {
      var m: Certificate :| m.round < a.round && Edge(v, a, m) && Reaches(v, m, c);
      ReachesExtends(v, m, c, d);
    }
  }

  lemma {:induction false} ExpandProgress(v: View, s: set<Certificate>, leader: Certificate, c: Certificate,
                                          visits: multiset<Certificate>, ids: seq<Id>,
                                          buffer: seq<Certificate>, ordered: set<Id>)
    requires Sound(v, s)
    requires Progress(v, s, leader, visits + multiset(buffer), ordered)
    requires c in visits && Open(v, c)
    requires forall id :: id in ids ==> id in c.parents
    ensures Expand(v, PreviousRound(c), ids, buffer, ordered).Some?
    ensures var f := Expand(v, PreviousRound(c), ids, buffer, ordered).value;
            && Progress(v, s, leader, visits + multiset(f.buffer), f.ordered)
            && ordered <= f.ordered
            && forall id :: id in ids && Resolve(v, PreviousRound(c), id).Found? ==> id in f.ordered
    decreases |ids|
  {
    hide Progress;
    hide Reaches;
    hide Resolvable;
    hide Resolve;
    hide KnownIds;
    if ids != [] {
      var r := PreviousRound(c);
      var id, rest := ids[|ids| - 1], ids[..|ids| - 1];
      var l := Resolve(v, r, id);
      assert id in ids && c in visits + multiset(buffer);
      SeenParentResolves(v, s, leader, visits + multiset(buffer), ordered, c, id);
      if id in ordered || l.Skip? {
        ExpandProgress(v, s, leader, c, visits, rest, buffer, ordered);
      } else {
        var d := l.certificate;
        PushProgress(v, s, leader, c, visits + multiset(buffer), d, ordered);
        assert visits + multiset(buffer + [d]) == visits + multiset(buffer) + multiset{d};
        ExpandProgress(v, s, leader, c, visits, rest, buffer + [d], ordered + {id});
      }
      assert forall x :: x in ids ==> x == id || x in rest;
    }
  }

  lemma SeenParentResolves(v: View, s: set<Certificate>, leader: Certificate, seen: multiset<Certificate>,
                           ordered: set<Id>, c: Certificate, id: Id)
    requires Sound(v, s) && Progress(v, s, leader, seen, ordered)
    requires c in seen && Open(v, c) && id in c.parents
    ensures c in s && ResolvesIn(v, s, c.round, Resolve(v, PreviousRound(c), id), id)
  {
    hide Reaches;
    assert IsSeen(v, s, leader, ordered, c);
  }

  lemma PushHasIds(seen: multiset<Certificate>, ordered: set<Id>, d: Certificate)
    requires forall id :: id in ordered ==> HasId(seen, id)
    ensures forall id :: id in ordered + {d.id} ==> HasId(seen + multiset{d}, id)
  {
    forall id | id in ordered + {d.id}
      ensures HasId(seen + multiset{d}, id)
    {
      if id == d.id {
        assert d in seen + multiset{d};
      } else {
        assert HasId(seen, id);
        var x :| x in seen && x.id == id;
        assert x in seen + multiset{d};
      }
    }
  }

  lemma PushProgress(v: View, s: set<Certificate>, leader: Certificate, c: Certificate,
                     seen: multiset<Certificate>, d: Certificate, ordered: set<Id>)
    requires Progress(v, s, leader, seen, ordered)
    requires c in seen && Edge(v, c, d) && d.round + 1 == c.round && d in s
    requires d.id !in ordered
    ensures Progress(v, s, leader, seen + multiset{d}, ordered + {d.id})
  {
    hide Reaches;
    hide Edge;
    hide HasId;
    assert IsSeen(v, s, leader, ordered, c);
    ReachesExtends(v, leader, c, d);
    PushHasIds(seen, ordered, d);
    var seen', ordered' := seen + multiset{d}, ordered + {d.id};
    assert IsSeen(v, s, leader, ordered', d);
    assert d in seen ==> IsSeen(v, s, leader, ordered, d);
    forall x | x in seen'
      ensures seen'[x] == 1 && IsSeen(v, s, leader, ordered', x)
    {
      if x != d {
        assert IsSeen(v, s, leader, ordered, x);
      }
    }
  }

  ghost predicate Done(v: View, s: set<Certificate>, leader: Certificate, visits: seq<Certificate>) {
    exists o :: Progress(v, s, leader, multiset(visits), o) && Explored(v, multiset(visits), o)
  }

  lemma VisitExplores(v: View, visits: seq<Certificate>, c: Certificate, ordered: set<Id>, ordered': set<Id>)
    requires Explored(v, multiset(visits), ordered)
    requires ordered <= ordered'
    requires Open(v, c) ==> forall id :: id in c.parents && Resolve(v, PreviousRound(c), id).Found? ==> id in ordered'
    ensures Explored(v, multiset(visits + [c]), ordered')
  {
    forall x, d | x in multiset(visits + [c]) && Edge(v, x, d)
      ensures d.id in ordered'
    {
      if x != c {
        assert x in multiset(visits);
      }
    }
  }

  lemma VisitProgress(v: View, s: set<Certificate>, leader: Certificate, c: Certificate,
                      rest: seq<Certificate>, ordered: set<Id>, visits: seq<Certificate>)
    requires Sound(v, s)
    requires Progress(v, s, leader, multiset(visits + [c]) + multiset(rest), ordered)
    requires Explored(v, multiset(visits), ordered)
    requires Open(v, c)
    ensures Expand(v, PreviousRound(c), c.parents, rest, ordered).Some?
    ensures var f := Expand(v, PreviousRound(c), c.parents, rest, ordered).value;
            && Progress(v, s, leader, multiset(visits + [c]) + multiset(f.buffer), f.ordered)
            && Explored(v, multiset(visits + [c]), f.ordered)
  {
    assert c in multiset(visits + [c]);
    ExpandProgress(v, s, leader, c, multiset(visits + [c]), c.parents, rest, ordered);
    VisitExplores(v, visits, c, ordered, Expand(v, PreviousRound(c), c.parents, rest, ordered).value.ordered);
  }

  lemma TraverseUnfolds(v: View, buffer: seq<Certificate>, ordered: set<Id>, visits: seq<Certificate>, f: Frontier)
    requires WellStored(v.stored)
    requires buffer != [] && Open(v, buffer[|buffer| - 1])
    requires var c, rest := buffer[|buffer| - 1], buffer[..|buffer| - 1];
             Expand(v, PreviousRound(c), c.parents, rest, ordered) == Some(f)
    ensures Traverse(v, buffer, ordered, visits) == Traverse(v, f.buffer, f.ordered, visits + [buffer[|buffer| - 1]])
    ensures (KnownIds(v) - f.ordered < KnownIds(v) - ordered) || (f.ordered == ordered && |f.buffer| < |buffer|)
  {
    if f.ordered != ordered {
      var id :| id in f.ordered && id !in ordered;
      assert id in KnownIds(v) - ordered && id !in KnownIds(v) - f.ordered;
    }
  }

  lemma {:induction false} TraverseProgress(v: View, s: set<Certificate>, leader: Certificate,
                                            buffer: seq<Certificate>, ordered: set<Id>, visits: seq<Certificate>)
    requires Sound(v, s)
    requires Progress(v, s, leader, multiset(visits) + multiset(buffer), ordered)
    requires Explored(v, multiset(visits), ordered)
    ensures Traverse(v, buffer, ordered, visits).Some?
    ensures Done(v, s, leader, Traverse(v, buffer, ordered, visits).value)
    decreases KnownIds(v) - ordered, |buffer|
  {
    if buffer == [] {
      assert multiset(visits) + multiset(buffer) == multiset(visits);
      assert Traverse(v, buffer, ordered, visits) == Some(visits);
    } else {
      var c, rest := buffer[|buffer| - 1], buffer[..|buffer| - 1];
      assert multiset(visits + [c]) + multiset(rest) == multiset(visits) + multiset(buffer) by {
        assert buffer == rest + [c];
      }
      if !Open(v, c) {
        VisitExplores(v, visits, c, ordered, ordered);
        TraverseProgress(v, s, leader, rest, ordered, visits + [c]);
      } else {
        VisitProgress(v, s, leader, c, rest, ordered, visits);
        var f := Expand(v, PreviousRound(c), c.parents, rest, ordered).value;
        TraverseUnfolds(v, buffer, ordered, visits, f);
        TraverseProgress(v, s, leader, f.buffer, f.ordered, visits + [c]);
      }
    }
  }

  lemma {:induction false} ClosedContainsReachable(v: View, s: set<Certificate>, out: multiset<Certificate>,
                                                   ordered: set<Id>,
                                                   leader: Certificate, c: Certificate, d: Certificate)
    requires Sound(v, s)
    requires Progress(v, s, leader, out, ordered) && Explored(v, out, ordered)
    requires c in out && Reaches(v, c, d)
    ensures d in out
    decreases c.round
  {
    if c != d {
      var m: Certificate :| m.round < c.round && Edge(v, c, m) && Reaches(v, m, d);
      assert HasId(out, m.id);
      var x :| x in out && x.id == m.id;
      assert ResolvesIn(v, s, c.round, Resolve(v, PreviousRound(c), m.id), m.id);
      assert x == m;
      ClosedContainsReachable(v, s, out, ordered, leader, m, d);
    }
  }

  /** The traversal succeeds and visits each reachable certificate exactly once, and nothing else. */
  lemma DfsExact(v: View, s: set<Certificate>, leader: Certificate)
    requires Sound(v, s) && leader in s
    ensures Visits(v, leader).Some?
    ensures var visits := Visits(v, leader).value;
            && (forall d :: d in visits <==> Reaches(v, leader, d))
            && (forall d :: d in visits ==> multiset(visits)[d] == 1 && d in s)
            && (forall d :: d in visits && d != leader ==> d.round < leader.round)
  {
    assert multiset([]) + multiset([leader]) == multiset{leader};
    assert Reaches(v, leader, leader);
    TraverseProgress(v, s, leader, [leader], {}, []);
    var out := Visits(v, leader).value;
    var o :| Progress(v, s, leader, multiset(out), o) && Explored(v, multiset(out), o);
    forall d
      ensures d in out <==> Reaches(v, leader, d)
    {
      assert d in out <==> d in multiset(out);
      if Reaches(v, leader, d) {
        ClosedContainsReachable(v, s, multiset(out), o, leader, leader, d);
      }
    }
    assert forall d :: d in out <==> d in multiset(out);
  }

  lemma {:induction false} ReachesLastStep(v: View, a: Certificate, d: Certificate) returns (c: Certificate)
    requires Reaches(v, a, d) && a != d
    ensures Reaches(v, a, c) && Edge(v, c, d) && d.round < c.round
    decreases a.round
  {
    var m: Certificate :| m.round < a.round && Edge(v, a, m) && Reaches(v, m, d);
    if m == d {
      c := a;
    } else {
      c := ReachesLastStep(v, m, d);
    }
  }

  /** A bucket holds certificates of its own round, each once, and is not empty. */
  ghost predicate WellGrouped(m: Subdag) {
    && (forall r :: r in m ==> m[r] != [])
    && (forall r, c :: r in m && c in m[r] ==> c.round == r && multiset(m[r])[c] == 1)
  }

  predicate InSubdag(m: Subdag, c: Certificate) {
    c.round in m && c in m[c.round]
  }

  lemma {:induction false} GroupByRoundContains(visits: seq<Certificate>)
    ensures WellGrouped(GroupByRound(visits))
    ensures forall c :: InSubdag(GroupByRound(visits), c) <==> c in visits
  {
    if visits != [] {
      var init, x := visits[..|visits| - 1], visits[|visits| - 1];
      assert visits == init + [x];
      GroupByRoundContains(init);
      var m, m' := GroupByRound(init), GroupByRound(visits);
      assert forall c :: c in visits <==> c in init || c == x;
      forall c
        ensures InSubdag(m', c) <==> InSubdag(m, c) || c == x
      {
        if c.round == x.round && c.round in m {
          assert c in m[c.round] + [x] <==> c in m[c.round] || c == x;
        }
      }
      forall r: Round, c: Certificate | r in m' && c in m'[r]
        ensures c.round == r && multiset(m'[r])[c] == 1
      {
        if r == x.round && r in m && x !in m[r] {
          assert multiset(m'[r]) == multiset(m[r]) + multiset{x};
        }
      }
    }
  }

  lemma BucketCounts(m: Subdag, hi: Round, c: Certificate)
    requires WellGrouped(m)
    ensures multiset(if hi in m then m[hi] else [])[c] == if c.round == hi && InSubdag(m, c) then 1 else 0
  {
    var bucket := if hi in m then m[hi] else [];
    if c in bucket {
      assert multiset(bucket)[c] == 1;
    }
  }

  lemma FlattenUnfolds(m: Subdag, hi: Round)
    ensures multiset(Flatten(m, hi)) ==
              multiset(if hi == 0 then [] else Flatten(m, hi - 1)) + multiset(if hi in m then m[hi] else [])
  {
  }

  lemma {:induction false} FlattenCounts(m: Subdag, hi: Round, c: Certificate)
    requires WellGrouped(m)
    ensures multiset(Flatten(m, hi))[c] == if c.round <= hi && InSubdag(m, c) then 1 else 0
  {
    hide WellGrouped;
    hide Flatten;
    FlattenUnfolds(m, hi);
    BucketCounts(m, hi, c);
    if hi > 0 {
      FlattenCounts(m, hi - 1, c);
    }
  }

  lemma FlattenContains(m: Subdag, hi: Round)
    requires WellGrouped(m)
    ensures forall c :: c in Flatten(m, hi) <==> c.round <= hi && InSubdag(m, c)
    ensures forall c :: c in Flatten(m, hi) ==> multiset(Flatten(m, hi))[c] == 1
  {
    forall c
      ensures multiset(Flatten(m, hi))[c] == if c.round <= hi && InSubdag(m, c) then 1 else 0
    {
      FlattenCounts(m, hi, c);
    }
    assert forall c :: c in Flatten(m, hi) <==> c in multiset(Flatten(m, hi));
  }

  /** A reachable certificate other than the leader sits one round below another reachable one, above the horizon. */
  lemma ReachableHasChild(v: View, s: set<Certificate>, leader: Certificate, d: Certificate) returns (c: Certificate)
    requires Sound(v, s) && leader in s
    requires Reaches(v, leader, d) && d != leader
    ensures Reaches(v, leader, c) && c.round == d.round + 1
    ensures d.round < leader.round && d.round + v.gcRounds > v.dag.last
  {
    DfsExact(v, s, leader);
    c := ReachesLastStep(v, leader, d);
    assert c in Visits(v, leader).value;
    assert ResolvesIn(v, s, c.round, Resolve(v, PreviousRound(c), d.id), d.id);
  }

  lemma {:induction false} UniformBucket(bucket: seq<Certificate>, x: Certificate)
    requires forall c :: c in bucket ==> c == x
    ensures multiset(bucket)[x] == |bucket|
  {
    if bucket != [] {
      assert bucket == [bucket[0]] + bucket[1..];
      assert bucket[0] in bucket && forall c :: c in bucket[1..] ==> c in bucket;
      UniformBucket(bucket[1..], x);
    }
  }

  /** Below the leader there is a reachable certificate at every round down to a reachable one. */
  lemma {:induction false} ReachableAtRound(v: View, s: set<Certificate>, leader: Certificate, d: Certificate,
                                            r: Round) returns (c: Certificate)
    requires Sound(v, s) && leader in s
    requires Reaches(v, leader, d) && d.round <= r <= leader.round
    ensures Reaches(v, leader, c) && c.round == r
    decreases r - d.round
  {
    c := d;
    if d.round < r {
      var up := ReachableHasChild(v, s, leader, d);
      c := ReachableAtRound(v, s, leader, up, r);
    }
  }

  /** The rounds of the subdag are contiguous and end at `hi`. */
  ghost predicate Contiguous(subdag: Subdag, hi: Round) {
    && AnchorRoundIs(subdag, hi)
    && forall q, r :: q in subdag && q <= r <= hi ==> r in subdag
  }

  lemma SubdagRounds(v: View, s: set<Certificate>, leader: Certificate, subdag: Subdag)
    requires Sound(v, s) && leader in s && leader.round > v.dag.last
    requires WellGrouped(subdag)
    requires forall d :: InSubdag(subdag, d) <==> Reaches(v, leader, d)
    ensures Contiguous(subdag, leader.round)
    ensures forall r :: r in subdag ==> r + v.gcRounds > v.dag.last
  {
    assert InSubdag(subdag, leader);
    hide Sound;
    hide Reaches;
    forall q | q in subdag
      ensures q <= leader.round && q + v.gcRounds > v.dag.last
      ensures forall r :: q <= r <= leader.round ==> r in subdag
    {
      var d := subdag[q][0];
      assert InSubdag(subdag, d);
      if d != leader {
        var _ := ReachableHasChild(v, s, leader, d);
        forall r | q <= r <= leader.round
          ensures r in subdag
        {
          var c := ReachableAtRound(v, s, leader, d, r);
          assert InSubdag(subdag, c);
        }
      }
    }
  }

  /** The subdag of a leader above the last committed round: exactly the reachable certificates, each
      once and under its own round; rounds are contiguous, the leader is alone at the top, and the
      final `retain` removes nothing. */
  lemma SubdagExact(v: View, s: set<Certificate>, leader: Certificate)
    requires Sound(v, s) && leader in s && leader.round > v.dag.last
    ensures Visits(v, leader).Some? && OrderDag(v, leader) == Some(GroupByRound(Visits(v, leader).value))
    ensures var subdag := OrderDag(v, leader).value;
            && WellGrouped(subdag)
            && (forall d :: InSubdag(subdag, d) <==> Reaches(v, leader, d))
            && Contiguous(subdag, leader.round)
            && subdag[leader.round] == [leader]
  {
    DfsExact(v, s, leader);
    var visits := Visits(v, leader).value;
    var subdag := GroupByRound(visits);
    GroupByRoundContains(visits);
    SubdagRounds(v, s, leader, subdag);
    assert Within(subdag, v.gcRounds, v.dag.last) == subdag;
    assert Reaches(v, leader, leader) && InSubdag(subdag, leader);
    forall c | c in subdag[leader.round]
      ensures c == leader
    {
      assert InSubdag(subdag, c);
    }
    UniformBucket(subdag[leader.round], leader);
  }

  /** The final `retain`, for any leader: of the rounds visited, exactly those above the horizon are kept, whole. */
  lemma RetainExactly(v: View, leader: Certificate, r: Round)
    requires WellStored(v.stored)
    ensures OrderDag(v, leader).Some? <==> Visits(v, leader).Some?
    ensures OrderDag(v, leader).Some? ==>
              var visited, kept := GroupByRound(Visits(v, leader).value), OrderDag(v, leader).value;
              && (r in kept <==> r in visited && r + v.gcRounds > v.dag.last)
              && (r in kept ==> kept[r] == visited[r])
  {
    hide Visits;
    hide GroupByRound;
  }

  /** Two views with the same horizon resolve every parent of `s` alike. */
  ghost predicate Agree(v: View, w: View, s: set<Certificate>) {
    && v.dag.last == w.dag.last && v.gcRounds == w.gcRounds
    && forall c, id :: c in s && Open(v, c) && id in c.parents ==>
                         Resolve(v, PreviousRound(c), id) == Resolve(w, PreviousRound(c), id)
  }

  lemma {:induction false} ExpandAgrees(v: View, w: View, s: set<Certificate>, c: Certificate,
                                        ids: seq<Id>, buffer: seq<Certificate>, ordered: set<Id>)
    requires Sound(v, s) && WellStored(w.stored) && Agree(v, w, s)
    requires c in s && Open(v, c) && forall id :: id in ids ==> id in c.parents
    requires forall x :: x in buffer ==> x in s
    ensures Expand(v, PreviousRound(c), ids, buffer, ordered) == Expand(w, PreviousRound(c), ids, buffer, ordered)
    ensures Expand(v, PreviousRound(c), ids, buffer, ordered).Some?
    ensures forall x :: x in Expand(v, PreviousRound(c), ids, buffer, ordered).value.buffer ==> x in s
    decreases |ids|
  {
    if ids != [] {
      var id, rest := ids[|ids| - 1], ids[..|ids| - 1];
      var l := Resolve(v, PreviousRound(c), id);
      assert ResolvesIn(v, s, c.round, l, id);
      if id in ordered || l.Skip? {
        ExpandAgrees(v, w, s, c, rest, buffer, ordered);
      } else {
        ExpandAgrees(v, w, s, c, rest, buffer + [l.certificate], ordered + {id});
      }
    }
  }

  lemma {:induction false} TraverseAgrees(v: View, w: View, s: set<Certificate>,
                                          buffer: seq<Certificate>, ordered: set<Id>, visits: seq<Certificate>)
    requires Sound(v, s) && WellStored(w.stored) && Agree(v, w, s)
    requires forall x :: x in buffer ==> x in s
    ensures Traverse(v, buffer, ordered, visits) == Traverse(w, buffer, ordered, visits)
    decreases KnownIds(v) - ordered, |buffer|
  {
    if buffer != [] {
      var c, rest := buffer[|buffer| - 1], buffer[..|buffer| - 1];
      if !Open(v, c) {
        TraverseAgrees(v, w, s, rest, ordered, visits + [c]);
      } else {
        ExpandAgrees(v, w, s, c, c.parents, rest, ordered);
        var f := Expand(v, PreviousRound(c), c.parents, rest, ordered).value;
        TraverseUnfolds(v, buffer, ordered, visits, f);
        TraverseUnfolds(w, buffer, ordered, visits, f);
        TraverseAgrees(v, w, s, f.buffer, f.ordered, visits + [c]);
      }
    }
  }

  /** Views that agree on the parents of `s` order the same subdag, in the same order. */
  lemma OrderDagAgrees(v: View, w: View, s: set<Certificate>, leader: Certificate)
    requires Sound(v, s) && WellStored(w.stored) && Agree(v, w, s)
    requires leader in s
    ensures OrderDag(v, leader) == OrderDag(w, leader)
  {
    TraverseAgrees(v, w, s, [leader], {}, []);
  }
}
