/** The in-memory DAG of `node/bft/src/helpers/dag.rs`: its state as a value, the two operations
    that change it, and the class that performs them in place. */
module Dags {
  import opened Types

  datatype DagState = DagState(
    graph: map<Round, map<Address, Certificate>>,
    recent: map<Round, set<Id>>,
    last: Round)

  const EMPTY_DAG := DagState(map[], map[], 0)

  predicate IsRecentlyCommitted(d: DagState, r: Round, id: Id) {
    r in d.recent && id in d.recent[r]
  }

  function CertificatesAt(d: DagState, r: Round): map<Address, Certificate> {
    if r in d.graph then d.graph[r] else map[]
  }

  predicate InGraph(d: DagState, c: Certificate) {
    c.round in d.graph && c.author in d.graph[c.round] && d.graph[c.round][c.author] == c
  }

  ghost function Certificates(d: DagState): set<Certificate> {
    set r, a | r in d.graph && a in d.graph[r] :: d.graph[r][a]
  }

  /** Every certificate sits under its own round and author. */
  ghost predicate Keyed(d: DagState) {
    forall r, a :: r in d.graph && a in d.graph[r] ==>
                     d.graph[r][a].round == r && d.graph[r][a].author == a
  }

  function AfterInsert(d: DagState, c: Certificate): DagState {
    if IsRecentlyCommitted(d, c.round, c.id) then d
    else d.(graph := d.graph[c.round := CertificatesAt(d, c.round)[c.author := c]])
  }

  /** The entries whose round is within `gcRounds` of the last committed round. */
  function Within<T>(m: map<Round, T>, gcRounds: nat, last: Round): map<Round, T> {
    map r | r in m && r + gcRounds > last :: m[r]
  }

  /** Removes the author's certificates at or below `round`, and the rounds this empties. */
  function WithoutAuthor(graph: map<Round, map<Address, Certificate>>, author: Address, round: Round)
    : map<Round, map<Address, Certificate>>
  {
    map r | r in graph && (r > round || graph[r] - {author} != map[]) ::
      if r > round then graph[r] else graph[r] - {author}
  }

  function AfterCommit(d: DagState, c: Certificate, gcRounds: nat): DagState {
    var ids := if c.round in d.recent then d.recent[c.round] else {};
    var recent := d.recent[c.round := ids + {c.id}];
    var last := Max(d.last, c.round);
    DagState(WithoutAuthor(Within(d.graph, gcRounds, last), c.author, c.round), Within(recent, gcRounds, last), last)
  }

  function AfterCommits(d: DagState, cs: seq<Certificate>, gcRounds: nat): DagState
    decreases |cs|
  {
    if cs == [] then d else AfterCommits(AfterCommit(d, cs[0], gcRounds), cs[1..], gcRounds)
  }

  ghost predicate CommittedAt(committed: set<Certificate>, r: Round, id: Id) {
    exists c :: c in committed && c.round == r && c.id == id
  }

  /** The two counters of the DAG describe exactly the committed certificates: `last` is the highest
      committed round and the recent IDs are those committed within `gcRounds` of it. */
  ghost predicate Tracks(d: DagState, committed: set<Certificate>, gcRounds: nat) {
    && (forall c :: c in committed ==> c.round <= d.last)
    && (d.last == 0 || exists c :: c in committed && c.round == d.last)
    && (forall r :: r in d.recent ==> d.recent[r] != {})
    && (forall r: Round, id :: IsRecentlyCommitted(d, r, id) <==>
                          r + gcRounds > d.last && CommittedAt(committed, r, id))
  }

  lemma CommitTracks(d: DagState, committed: set<Certificate>, c: Certificate, gcRounds: nat)
    requires Tracks(d, committed, gcRounds)
    ensures Tracks(AfterCommit(d, c, gcRounds), committed + {c}, gcRounds)
  {
    var d' := AfterCommit(d, c, gcRounds);
    var all := committed + {c};
    forall r: Round, id: Id
      ensures IsRecentlyCommitted(d', r, id) <==> r + gcRounds > d'.last && CommittedAt(all, r, id)
    {
      assert CommittedAt(all, r, id) <==> CommittedAt(committed, r, id) || (c.round == r && c.id == id) by {
        if CommittedAt(committed, r, id) {
          var x :| x in committed && x.round == r && x.id == id;
          assert x in all;
        }
        assert c in all;
      }
      assert IsRecentlyCommitted(d, r, id) <==> r + gcRounds > d.last && CommittedAt(committed, r, id);
    }
    if d'.last == c.round {
      assert c in all;
    } else if d.last != 0 {
      var x :| x in committed && x.round == d.last;
      assert x in all;
    }
  }

  /** In whatever order certificates are committed, the counters end up describing their set. */
  lemma {:induction false} CommitAllTracks(d: DagState, committed: set<Certificate>, cs: seq<Certificate>,
                                           gcRounds: nat)
    requires Tracks(d, committed, gcRounds)
    ensures Tracks(AfterCommits(d, cs, gcRounds), committed + Elements(cs), gcRounds)
    decreases |cs|
  {
    if cs == [] {
      assert committed + Elements(cs) == committed;
    } else {
      CommitTracks(d, committed, cs[0], gcRounds);
      CommitAllTracks(AfterCommit(d, cs[0], gcRounds), committed + {cs[0]}, cs[1..], gcRounds);
      assert committed + {cs[0]} + Elements(cs[1..]) == committed + Elements(cs) by {
        assert cs == [cs[0]] + cs[1..];
      }
    }
  }

  /** Committing certificates up to and including `top` makes its round the last committed one. */
  lemma CommitsUpTo(d: DagState, committed: set<Certificate>, cs: seq<Certificate>, gcRounds: nat, top: Certificate)
    requires Tracks(d, committed, gcRounds)
    requires top in cs && top.round > d.last && forall c :: c in cs ==> c.round <= top.round
    ensures Tracks(AfterCommits(d, cs, gcRounds), committed + Elements(cs), gcRounds)
    ensures AfterCommits(d, cs, gcRounds).last == top.round
  {
    CommitAllTracks(d, committed, cs, gcRounds);
    assert top in committed + Elements(cs);
  }

  /** The committed set determines both counters. */
  lemma TracksDetermines(d: DagState, e: DagState, committed: set<Certificate>, gcRounds: nat)
    requires Tracks(d, committed, gcRounds) && Tracks(e, committed, gcRounds)
    ensures d.last == e.last && d.recent == e.recent
  {
    assert d.last == e.last;
    forall r
      ensures r in d.recent <==> r in e.recent
      ensures r in d.recent ==> d.recent[r] == e.recent[r]
    {
      assert forall id :: IsRecentlyCommitted(d, r, id) <==> IsRecentlyCommitted(e, r, id);
      if r in d.recent {
        var id :| id in d.recent[r];
        assert IsRecentlyCommitted(d, r, id);
        assert forall x :: x in d.recent[r] <==> IsRecentlyCommitted(d, r, x);
        assert forall x :: x in e.recent[r] <==> IsRecentlyCommitted(e, r, x);
      }
      if r in e.recent {
        var id :| id in e.recent[r];
        assert IsRecentlyCommitted(e, r, id);
      }
    }
  }

  /** Committing never adds to the graph, and never touches a round above every committed round. */
  lemma CommitPrunes(d: DagState, c: Certificate, gcRounds: nat)
    requires Keyed(d)
    ensures Keyed(AfterCommit(d, c, gcRounds))
    ensures Certificates(AfterCommit(d, c, gcRounds)) <= Certificates(d)
    ensures forall x :: InGraph(d, x) && x.round > AfterCommit(d, c, gcRounds).last ==>
        InGraph(AfterCommit(d, c, gcRounds), x)
    ensures d.last <= AfterCommit(d, c, gcRounds).last && c.round <= AfterCommit(d, c, gcRounds).last
  {
  }

  lemma {:induction false} CommitAllPrunes(d: DagState, cs: seq<Certificate>, gcRounds: nat)
    requires Keyed(d)
    ensures Keyed(AfterCommits(d, cs, gcRounds))
    ensures Certificates(AfterCommits(d, cs, gcRounds)) <= Certificates(d)
    ensures d.last <= AfterCommits(d, cs, gcRounds).last
    ensures forall x :: InGraph(d, x) && x.round > AfterCommits(d, cs, gcRounds).last ==>
        InGraph(AfterCommits(d, cs, gcRounds), x)
    decreases |cs|
  {
    if cs != [] {
      CommitPrunes(d, cs[0], gcRounds);
      CommitAllPrunes(AfterCommit(d, cs[0], gcRounds), cs[1..], gcRounds);
    }
  }

  lemma InsertKeepsGraph(d: DagState, c: Certificate)
    requires Keyed(d)
    ensures Keyed(AfterInsert(d, c))
    ensures Certificates(AfterInsert(d, c)) <= Certificates(d) + {c}
    ensures forall x :: InGraph(d, x) && (x.round != c.round || x.author != c.author) ==> InGraph(AfterInsert(d, c), x)
    ensures !IsRecentlyCommitted(d, c.round, c.id) ==> InGraph(AfterInsert(d, c), c)
    ensures AfterInsert(d, c).last == d.last && AfterInsert(d, c).recent == d.recent
  {
    var d' := AfterInsert(d, c);
    forall x | x in Certificates(d')
      ensures x in Certificates(d) + {c}
    {
      var r, a :| r in d'.graph && a in d'.graph[r] && d'.graph[r][a] == x;
      if x != c {
        assert r in d.graph && a in d.graph[r] && d.graph[r][a] == x;
      }
    }
  }

  /** What an insert leaves: nothing changes for a recently committed certificate; otherwise it takes the slot of
      its round and author. */
  lemma InsertExactly(d: DagState, c: Certificate, x: Certificate)
    requires Keyed(d)
    ensures InGraph(AfterInsert(d, c), x) <==>
              if c.round in d.recent && c.id in d.recent[c.round] then InGraph(d, x)
              else x == c || (InGraph(d, x) && !(x.round == c.round && x.author == c.author))
  {
  }

  /** What a commit leaves: the certificates within `gcRounds` of the new last committed round, except those that
      the author has at or below the committed round. */
  lemma CommitExactly(d: DagState, c: Certificate, gcRounds: nat, x: Certificate)
    requires Keyed(d)
    ensures InGraph(AfterCommit(d, c, gcRounds), x) <==>
              && InGraph(d, x)
              && x.round + gcRounds > Max(d.last, c.round)
              && !(x.author == c.author && x.round <= c.round)
  {
    if InGraph(d, x) && x.author != c.author {
      assert x.author in d.graph[x.round] - {c.author};
    }
  }

  ghost predicate NoEmptyRound(d: DagState) {
    forall r :: r in d.graph ==> d.graph[r] != map[]
  }

  /** A commit leaves no emptied round behind, and neither operation makes one. */
  lemma RoundsStayFilled(d: DagState, c: Certificate, gcRounds: nat)
    ensures forall r :: r in AfterCommit(d, c, gcRounds).graph && r <= c.round ==>
                          AfterCommit(d, c, gcRounds).graph[r] != map[]
    ensures NoEmptyRound(d) ==> NoEmptyRound(AfterCommit(d, c, gcRounds)) && NoEmptyRound(AfterInsert(d, c))
  {
    var m := CertificatesAt(d, c.round)[c.author := c];
    assert c.author in m;
  }

  /** The same for any sequence of commits, in any order. */
  lemma {:induction false} CommitAllExactly(d: DagState, cs: seq<Certificate>, gcRounds: nat, x: Certificate)
    requires Keyed(d)
    ensures InGraph(AfterCommits(d, cs, gcRounds), x) <==>
              && InGraph(d, x)
              && (cs != [] ==> x.round + gcRounds > AfterCommits(d, cs, gcRounds).last)
              && (forall c :: c in cs ==> !(x.author == c.author && x.round <= c.round))
    ensures NoEmptyRound(d) ==> NoEmptyRound(AfterCommits(d, cs, gcRounds))
    decreases |cs|
  {
    hide AfterCommit;
    hide InGraph;
    hide NoEmptyRound;
    if cs != [] {
      var d' := AfterCommit(d, cs[0], gcRounds);
      CommitPrunes(d, cs[0], gcRounds);
      CommitExactly(d, cs[0], gcRounds, x);
      RoundsStayFilled(d, cs[0], gcRounds);
      CommitLast(d, cs[0], gcRounds);
      CommitAllPrunes(d', cs[1..], gcRounds);
      CommitAllExactly(d', cs[1..], gcRounds, x);
      assert forall c :: c in cs <==> c == cs[0] || c in cs[1..];
    }
  }

  lemma CommitLast(d: DagState, c: Certificate, gcRounds: nat)
    ensures AfterCommit(d, c, gcRounds).last == Max(d.last, c.round)
  {
  }

  class Dag {
    var graph: map<Round, map<Address, Certificate>>
    var recentCommittedIds: map<Round, set<Id>>
    var lastCommittedRound: Round

    function Value(): DagState
      reads this
    {
      DagState(graph, recentCommittedIds, lastCommittedRound)
    }

    constructor ()
      ensures Value() == EMPTY_DAG
    {
      graph, recentCommittedIds, lastCommittedRound := map[], map[], 0;
    }

    method Insert(c: Certificate)
      modifies this
      ensures Value() == AfterInsert(old(Value()), c)
      ensures Keyed(old(Value())) ==> forall x :: InGraph(Value(), x) <==>
                if c.round in old(recentCommittedIds) && c.id in old(recentCommittedIds)[c.round]
                then InGraph(old(Value()), x)
                else x == c || (InGraph(old(Value()), x) && !(x.round == c.round && x.author == c.author))
    {
      if Keyed(Value()) {
        forall x { InsertExactly(Value(), c, x); }
      }
      if !IsRecentlyCommitted(Value(), c.round, c.id) {
        graph := graph[c.round := CertificatesAt(Value(), c.round)[c.author := c]];
      }
    }

    method Commit(c: Certificate, gcRounds: nat)
      modifies this
      ensures Value() == AfterCommit(old(Value()), c, gcRounds)
      ensures Keyed(old(Value())) ==> forall x :: InGraph(Value(), x) <==>
                && InGraph(old(Value()), x)
                && x.round + gcRounds > lastCommittedRound
                && !(x.author == c.author && x.round <= c.round)
    {
      if Keyed(Value()) {
        forall x { CommitExactly(Value(), c, gcRounds, x); }
      }
      // Updates.
      var ids := if c.round in recentCommittedIds then recentCommittedIds[c.round] else {};
      recentCommittedIds := recentCommittedIds[c.round := ids + {c.id}];
      lastCommittedRound := Max(lastCommittedRound, c.round);
      // Garbage collection.
      recentCommittedIds := Within(recentCommittedIds, gcRounds, lastCommittedRound);
      graph := Within(graph, gcRounds, lastCommittedRound);
      graph := WithoutAuthor(graph, c.author, c.round);
    }

    /** `get_certificate_for_round_with_id` */
    method FindInRound(r: Round, id: Id) returns (found: Option<Certificate>)
      ensures found.None? <==> forall a :: a in CertificatesAt(Value(), r) ==> CertificatesAt(Value(), r)[a].id != id
      ensures found.Some? ==> found.value.id == id && found.value in CertificatesAt(Value(), r).Values
    {
      var certificates := CertificatesAt(Value(), r);
      if a :| a in certificates && certificates[a].id == id {
        found := Some(certificates[a]);
      } else {
        found := None;
      }
    }
  }
}
