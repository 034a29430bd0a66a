/** The order in which `order_dag_with_dfs` collects certificates: left to right on every level, as its
    comment on `.rev()` promises, stated without the traversal. */
module DfsOrder {
  import opened Types
  import opened Dfs
  import opened DfsExactness

  /** The certificates of one round, in order. */
  function AtRound(s: seq<Certificate>, r: Round): seq<Certificate> {
    if s == [] then []
    else AtRound(s[..|s| - 1], r) + if s[|s| - 1].round == r then [s[|s| - 1]] else []
  }

  function IdsOf(s: seq<Certificate>): set<Id> {
    set c | c in s :: c.id
  }

  /** The parents among `ids` that the traversal would follow and that are not in `seen`, in declared order. */
  ghost function NewParents(v: View, r: Round, ids: seq<Id>, seen: set<Id>): seq<Certificate> {
    if ids == [] then []
    else
      var id := ids[|ids| - 1];
      NewParents(v, r, ids[..|ids| - 1], seen) + Followed(Resolve(v, r, id), id in seen)
  }

  function Followed(l: Lookup, seen: bool): seq<Certificate> {
    if l.Found? && !seen then [l.certificate] else []
  }

  /** The level below: the parents of each certificate of a level, from left to right, each at its first
      occurrence. */
  ghost function LevelBelow(v: View, level: seq<Certificate>): seq<Certificate> {
    if level == [] then []
    else
      var c, left := level[|level| - 1], LevelBelow(v, level[..|level| - 1]);
      left + if Open(v, c) then NewParents(v, PreviousRound(c), c.parents, IdsOf(left)) else []
  }

  /** The level of round `r` and all levels below it, lowest first. */
  ghost function LevelsUpTo(v: View, level: seq<Certificate>, r: Round): seq<Certificate>
    decreases r
  {
    (if r == 0 then [] else LevelsUpTo(v, LevelBelow(v, level), r - 1)) + level
  }

  lemma AtRoundSnoc(s: seq<Certificate>, c: Certificate, r: Round)
    ensures AtRound(s + [c], r) == AtRound(s, r) + if c.round == r then [c] else []
  {
    assert (s + [c])[..|s|] == s;
  }

  lemma {:induction false} AtRoundAppend(s: seq<Certificate>, t: seq<Certificate>, r: Round)
    ensures AtRound(s + t, r) == AtRound(s, r) + AtRound(t, r)
    decreases |t|
  {
    hide AtRound;
    if t == [] {
      NothingAt(r);
      assert s + t == s && AtRound(s, r) + [] == AtRound(s, r);
    } else {
      var init, c := t[..|t| - 1], t[|t| - 1];
      assert t == init + [c] && s + t == s + init + [c];
      AtRoundAppend(s, init, r);
      AtRoundSnoc(s + init, c, r);
      AtRoundSnoc(init, c, r);
      var end := if c.round == r then [c] else [];
      assert AtRound(s, r) + AtRound(init, r) + end == AtRound(s, r) + (AtRound(init, r) + end);
    }
  }

  lemma NothingAt(r: Round)
    ensures AtRound([], r) == []
  {
  }

  lemma {:induction false} AtRoundAll(s: seq<Certificate>, r: Round)
    requires forall c :: c in s ==> c.round == r
    ensures AtRound(s, r) == s
  {
    if s != [] {
      AtRoundAll(s[..|s| - 1], r);
    }
  }

  lemma {:induction false} AtRoundOther(s: seq<Certificate>, r: Round)
    requires forall c :: c in s ==> c.round != r
    ensures AtRound(s, r) == []
  {
    if s != [] {
      AtRoundOther(s[..|s| - 1], r);
    }
  }

  lemma {:induction false} AtRoundContains(s: seq<Certificate>, r: Round)
    ensures forall c :: c in AtRound(s, r) <==> c in s && c.round == r
  {
    if s != [] {
      AtRoundContains(s[..|s| - 1], r);
      assert s == s[..|s| - 1] + [s[|s| - 1]];
    }
  }

  lemma {:induction false} ReversedContains(s: seq<Certificate>)
    ensures forall c :: c in Reversed(s) <==> c in s
  {
    if s != [] {
      ReversedContains(s[..|s| - 1]);
      assert s == s[..|s| - 1] + [s[|s| - 1]];
    }
  }

  // Expanding one certificate.

  lemma ParentResolvable(v: View, s: set<Certificate>, c: Certificate, id: Id)
    requires Sound(v, s) && c in s && Open(v, c) && id in c.parents
    ensures WellStored(v.stored) && ResolvesIn(v, s, c.round, Resolve(v, PreviousRound(c), id), id)
  {
  }

  lemma ExpandUnfolds(v: View, r: Round, ids: seq<Id>, buffer: seq<Certificate>, ordered: set<Id>)
    requires WellStored(v.stored) && ids != [] && !Resolve(v, r, ids[|ids| - 1]).Missing?
    ensures var id, rest := ids[|ids| - 1], ids[..|ids| - 1];
            var added := Followed(Resolve(v, r, id), id in ordered);
            Expand(v, r, ids, buffer, ordered) ==
              Expand(v, r, rest, buffer + added, if added == [] then ordered else ordered + {id})
  {
    assert buffer + [] == buffer;
  }

  /** Only the IDs that are declared matter. */
  lemma {:induction false} NewParentsAgree(v: View, r: Round, ids: seq<Id>, seen: set<Id>, seen': set<Id>)
    requires forall id :: id in ids && Resolve(v, r, id).Found? ==> (id in seen <==> id in seen')
    ensures NewParents(v, r, ids, seen) == NewParents(v, r, ids, seen')
  {
    hide Resolve;
    if ids != [] {
      NewParentsAgree(v, r, ids[..|ids| - 1], seen, seen');
    }
  }

  lemma NewParentsSnoc(v: View, r: Round, ids: seq<Id>, seen: set<Id>)
    requires ids != []
    ensures var id, rest := ids[|ids| - 1], ids[..|ids| - 1];
            var added := Followed(Resolve(v, r, id), id in seen);
            && NewParents(v, r, ids, seen) == NewParents(v, r, rest, seen) + added
            && Reversed(NewParents(v, r, ids, seen)) == added + Reversed(NewParents(v, r, rest, seen))
  {
    var id, rest := ids[|ids| - 1], ids[..|ids| - 1];
    var l, before := Resolve(v, r, id), NewParents(v, r, rest, seen);
    hide Resolve;
    if l.Found? && id !in seen {
      ReversedSnoc(before, l.certificate);
    } else {
      assert before + [] == before && [] + Reversed(before) == Reversed(before);
    }
  }

  lemma RestIsDistinct(ids: seq<Id>)
    requires Distinct(ids) && ids != []
    ensures Distinct(ids[..|ids| - 1])
    ensures ids[|ids| - 1] !in ids[..|ids| - 1] && forall x :: x in ids[..|ids| - 1] ==> x in ids
  {
  }

  /** Expanding a certificate puts its new parents on the stack, the leftmost on top. */
  lemma {:induction false} ExpandPushes(v: View, s: set<Certificate>, c: Certificate, ids: seq<Id>,
                                        buffer: seq<Certificate>, ordered: set<Id>)
    requires Sound(v, s) && c in s && Open(v, c)
    requires forall id :: id in ids ==> id in c.parents
    requires Distinct(ids)
    ensures Expand(v, PreviousRound(c), ids, buffer, ordered).Some?
    ensures Expand(v, PreviousRound(c), ids, buffer, ordered).value.buffer ==
              buffer + Reversed(NewParents(v, PreviousRound(c), ids, ordered))
    decreases |ids|
  {
    hide Resolvable;
    hide IdsDetermine;
    hide Expand;
    hide Reversed;
    hide NewParents;
    hide Resolve;
    hide Distinct;
    var r := PreviousRound(c);
    if ids == [] {
      NothingToPush(v, r, buffer, ordered);
    } else {
      var id, rest := ids[|ids| - 1], ids[..|ids| - 1];
      ParentResolvable(v, s, c, id);
      RestIsDistinct(ids);
      NewParentsSnoc(v, r, ids, ordered);
      ExpandUnfolds(v, r, ids, buffer, ordered);
      var added := Followed(Resolve(v, r, id), id in ordered);
      var ordered' := if added == [] then ordered else ordered + {id};
      ExpandPushes(v, s, c, rest, buffer + added, ordered');
      NewParentsAgree(v, r, rest, ordered, ordered');
      assert buffer + added + Reversed(NewParents(v, r, rest, ordered)) ==
             buffer + (added + Reversed(NewParents(v, r, rest, ordered)));
    }
  }

  lemma NothingToPush(v: View, r: Round, buffer: seq<Certificate>, ordered: set<Id>)
    requires WellStored(v.stored)
    ensures Expand(v, r, [], buffer, ordered) == Some(Frontier(buffer, ordered))
    ensures buffer + Reversed(NewParents(v, r, [], ordered)) == buffer
  {
  }

  lemma {:induction false} NewParentsAreAt(v: View, s: set<Certificate>, c: Certificate, ids: seq<Id>, seen: set<Id>)
    requires Sound(v, s) && c in s && Open(v, c)
    requires forall id :: id in ids ==> id in c.parents
    ensures forall x :: x in NewParents(v, PreviousRound(c), ids, seen) ==> x in s && x.round + 1 == c.round
  {
    hide Resolve;
    if ids != [] {
      NewParentsAreAt(v, s, c, ids[..|ids| - 1], seen);
      ParentResolvable(v, s, c, ids[|ids| - 1]);
    }
  }

  // The whole traversal.

  /** Rounds never rise from the bottom of the stack to its top. */
  ghost predicate Descending(buffer: seq<Certificate>) {
    forall i, j :: 0 <= i < j < |buffer| ==> buffer[i].round >= buffer[j].round
  }

  lemma DescendingRest(buffer: seq<Certificate>)
    requires Descending(buffer) && buffer != []
    ensures Descending(buffer[..|buffer| - 1])
    ensures forall x :: x in buffer[..|buffer| - 1] ==> x.round >= buffer[|buffer| - 1].round
  {
  }

  lemma DescendingPush(rest: seq<Certificate>, added: seq<Certificate>, c: Certificate)
    requires Descending(rest) && forall x :: x in rest ==> x.round >= c.round
    requires forall x :: x in added ==> x.round + 1 == c.round
    ensures Descending(rest + added)
  {
    var b := rest + added;
    forall i, j | 0 <= i < j < |b|
      ensures b[i].round >= b[j].round
    {
      assert i < |rest| ==> b[i] in rest;
      assert i >= |rest| ==> b[i] in added;
      assert j >= |rest| ==> b[j] in added;
    }
  }

  /** The certificates of round `r` visited or waiting are the level below those of the next round visited. */
  ghost predicate LevelOk(v: View, visits: seq<Certificate>, buffer: seq<Certificate>, r: Round) {
    AtRound(visits, r) + Reversed(AtRound(buffer, r)) == LevelBelow(v, AtRound(visits, r + 1))
  }

  /** Visiting the top of the stack moves it from the front of its level to the visits. */
  lemma PopLevel(visits: seq<Certificate>, rest: seq<Certificate>, c: Certificate, r: Round)
    ensures AtRound(visits + [c], r) + Reversed(AtRound(rest, r)) ==
        AtRound(visits, r) + Reversed(AtRound(rest + [c], r))
  {
    hide AtRound;
    hide Reversed;
    AtRoundSnoc(rest, c, r);
    AtRoundSnoc(visits, c, r);
    var a, b := AtRound(visits, r), AtRound(rest, r);
    if c.round == r {
      ReversedSnoc(b, c);
      assert a + [c] + Reversed(b) == a + ([c] + Reversed(b));
    } else {
      assert a + [] == a && b + [] == b;
    }
  }

  /** The certificates seen at round `r` are the ordered ones. */
  lemma SeenIsOrdered(v: View, s: set<Certificate>, leader: Certificate, c: Certificate,
                      visits: seq<Certificate>, rest: seq<Certificate>, ordered: set<Id>, r: Round)
    requires Sound(v, s) && c in s && Open(v, c) && c.round == r + 1 <= leader.round
    requires Progress(v, s, leader, multiset(visits) + multiset(rest), ordered)
    requires AtRound(rest, r) == []
    ensures NewParents(v, r, c.parents, IdsOf(AtRound(visits, r))) == NewParents(v, r, c.parents, ordered)
  {
    var seen := multiset(visits) + multiset(rest);
    AtRoundContains(visits, r);
    AtRoundContains(rest, r);
    hide AtRound;
    hide Reaches;
    hide NewParents;
    hide Resolve;
    forall id | id in c.parents && Resolve(v, r, id).Found?
      ensures id in IdsOf(AtRound(visits, r)) <==> id in ordered
    {
      ParentResolvable(v, s, c, id);
      var d := Resolve(v, r, id).certificate;
      if id in ordered {
        assert HasId(seen, id);
        var x :| x in seen && x.id == id;
        assert IsSeen(v, s, leader, ordered, x);
        assert x == d;
        assert d in visits || d in rest;
      }
      if id in IdsOf(AtRound(visits, r)) {
        var x :| x in AtRound(visits, r) && x.id == id;
        assert x in seen && IsSeen(v, s, leader, ordered, x);
      }
    }
    NewParentsAgree(v, r, c.parents, IdsOf(AtRound(visits, r)), ordered);
  }

  /** Visiting a certificate of another round leaves the level of round `r` as it was. */
  lemma OtherVisit(v: View, visits: seq<Certificate>, rest: seq<Certificate>, c: Certificate, added: seq<Certificate>,
                   r: Round)
    requires LevelOk(v, visits, rest + [c], r) && c.round != r + 1
    requires forall x :: x in added ==> x.round + 1 == c.round
    ensures LevelOk(v, visits + [c], rest + Reversed(added), r)
  {
    hide AtRound;
    hide LevelBelow;
    hide Reversed;
    PopLevel(visits, rest, c, r);
    AtRoundSnoc(visits, c, r + 1);
    ReversedContains(added);
    AtRoundAppend(rest, Reversed(added), r);
    assert AtRound(visits, r + 1) + [] == AtRound(visits, r + 1);
    AtRoundOther(Reversed(added), r);
    assert AtRound(rest, r) + [] == AtRound(rest, r);
  }

  /** Visiting a certificate one round up extends the level of round `r` by its new parents. */
  lemma LevelVisit(v: View, visits: seq<Certificate>, rest: seq<Certificate>, c: Certificate, added: seq<Certificate>,
                   r: Round)
    requires LevelOk(v, visits, rest + [c], r) && c.round == r + 1 && AtRound(rest, r) == []
    requires added == if Open(v, c) then NewParents(v, r, c.parents, IdsOf(AtRound(visits, r))) else []
    requires forall x :: x in added ==> x.round == r
    ensures LevelOk(v, visits + [c], rest + Reversed(added), r)
  {
    PopLevel(visits, rest, c, r);
    AtRoundSnoc(visits, c, r);
    AtRoundSnoc(visits, c, r + 1);
    ReversedContains(added);
    AtRoundAppend(rest, Reversed(added), r);
    AtRoundAll(Reversed(added), r);
    ReversedTwice(added);
    var before, above := AtRound(visits, r), AtRound(visits, r + 1);
    hide AtRound;
    assert before + [] == before && [] + Reversed(added) == Reversed(added);
    assert (above + [c])[..|above|] == above;
    assert Reversed<Certificate>([]) == [];
    assert before == LevelBelow(v, above);
  }

  lemma LevelStep(v: View, s: set<Certificate>, leader: Certificate, visits: seq<Certificate>,
                  rest: seq<Certificate>, c: Certificate, ordered: set<Id>, r: Round)
    requires Sound(v, s) && c in s && Open(v, c) && c.round <= leader.round
    requires Progress(v, s, leader, multiset(visits) + multiset(rest + [c]), ordered)
    requires Descending(rest) && forall x :: x in rest ==> x.round >= c.round
    requires LevelOk(v, visits, rest + [c], r)
    ensures var added := NewParents(v, PreviousRound(c), c.parents, ordered);
            LevelOk(v, visits + [c], rest + Reversed(added), r) && Descending(rest + Reversed(added))
  {
    hide Sound;
    hide Progress;
    hide LevelOk;
    hide NewParents;
    hide Reversed;
    hide AtRound;
    hide Descending;
    var added := NewParents(v, PreviousRound(c), c.parents, ordered);
    NewParentsAreAt(v, s, c, c.parents, ordered);
    ReversedContains(added);
    if c.round == r + 1 {
      AtRoundOther(rest, r);
      AtRoundSnoc(rest, c, r);
      SeenIsOrdered(v, s, leader, c, visits, rest + [c], ordered, r);
      LevelVisit(v, visits, rest, c, added, r);
    } else {
      OtherVisit(v, visits, rest, c, added, r);
    }
    DescendingPush(rest, Reversed(added), c);
  }

  /** Every level is the level below the next one: the invariant of the whole traversal. */
  lemma {:induction false} TraverseLevels(v: View, s: set<Certificate>, leader: Certificate,
                                          buffer: seq<Certificate>, ordered: set<Id>,
                                          visits: seq<Certificate>, r: Round)
    requires Sound(v, s) && forall c :: c in s ==> Distinct(c.parents)
    requires Progress(v, s, leader, multiset(visits) + multiset(buffer), ordered)
    requires Descending(buffer) && LevelOk(v, visits, buffer, r)
    ensures Traverse(v, buffer, ordered, visits).Some?
    ensures var out := Traverse(v, buffer, ordered, visits).value;
            AtRound(out, r) == LevelBelow(v, AtRound(out, r + 1))
    decreases KnownIds(v) - ordered, |buffer|
  {
    hide Resolvable;
    hide KnownIds;
    hide AtRound;
    hide Reversed;
    hide LevelBelow;
    hide Reaches;
    hide Expand;
    hide Distinct;
    if buffer == [] {
      NothingWaiting(v, visits, r);
    } else {
      var c, rest := buffer[|buffer| - 1], buffer[..|buffer| - 1];
      assert buffer == rest + [c];
      TopIsSeen(v, s, leader, visits, rest, c, ordered);
      DescendingRest(buffer);
      if !Open(v, c) {
        ClosedStep(v, visits, rest, c, r);
        TraverseLevels(v, s, leader, rest, ordered, visits + [c], r);
      } else {
        LevelStep(v, s, leader, visits, rest, c, ordered, r);
        ExpandPushes(v, s, c, c.parents, rest, ordered);
        ExpandProgress(v, s, leader, c, multiset(visits + [c]), c.parents, rest, ordered);
        var f := Expand(v, PreviousRound(c), c.parents, rest, ordered).value;
        TraverseUnfolds(v, buffer, ordered, visits, f);
        TraverseLevels(v, s, leader, f.buffer, f.ordered, visits + [c], r);
      }
    }
  }

  lemma NothingWaiting(v: View, visits: seq<Certificate>, r: Round)
    requires LevelOk(v, visits, [], r)
    ensures AtRound(visits, r) == LevelBelow(v, AtRound(visits, r + 1))
  {
    assert AtRound([], r) == [] && AtRound(visits, r) + [] == AtRound(visits, r);
  }

  lemma TopIsSeen(v: View, s: set<Certificate>, leader: Certificate, visits: seq<Certificate>,
                  rest: seq<Certificate>, c: Certificate, ordered: set<Id>)
    requires Progress(v, s, leader, multiset(visits) + multiset(rest + [c]), ordered)
    ensures c in s && c.round <= leader.round
    ensures multiset(visits + [c]) + multiset(rest) == multiset(visits) + multiset(rest + [c])
    ensures c in multiset(visits + [c])
  {
    hide Reaches;
    assert c in multiset(visits) + multiset(rest + [c]);
  }

  /** A certificate below the horizon is visited without looking at its parents. */
  lemma ClosedStep(v: View, visits: seq<Certificate>, rest: seq<Certificate>, c: Certificate, r: Round)
    requires LevelOk(v, visits, rest + [c], r) && !Open(v, c)
    requires forall x :: x in rest ==> x.round >= c.round
    ensures LevelOk(v, visits + [c], rest, r)
  {
    hide LevelOk;
    assert Reversed<Certificate>([]) == [] && rest + [] == rest;
    if c.round == r + 1 {
      AtRoundOther(rest, r);
      LevelVisit(v, visits, rest, c, [], r);
    } else {
      OtherVisit(v, visits, rest, c, [], r);
    }
  }

  /** A bucket of the subdag is the visits of its round, in order. */
  lemma {:induction false} BucketIsLevel(visits: seq<Certificate>, r: Round)
    requires forall c :: c in visits ==> multiset(visits)[c] == 1
    ensures Bucket(GroupByRound(visits), r) == AtRound(visits, r)
  {
    if visits != [] {
      var init, c := visits[..|visits| - 1], visits[|visits| - 1];
      assert visits == init + [c];
      assert multiset(visits) == multiset(init) + multiset{c};
      assert c !in init by {
        assert multiset(visits)[c] == 1;
      }
      forall x | x in init
        ensures multiset(init)[x] == 1
      {
        assert x in visits;
      }
      BucketIsLevel(init, r);
      GroupByRoundContains(init);
      assert InSubdag(GroupByRound(init), c) <==> c in init;
    }
  }

  /** The certificates of a subdag at a round. */
  function Bucket(subdag: Subdag, r: Round): seq<Certificate> {
    if r in subdag then subdag[r] else []
  }

  /** Nothing is visited before the leader. */
  lemma StartLevel(v: View, s: set<Certificate>, leader: Certificate, r: Round)
    requires leader in s && r < leader.round
    ensures Progress(v, s, leader, multiset([]) + multiset([leader]), {})
    ensures Descending([leader]) && LevelOk(v, [], [leader], r)
  {
    assert multiset([]) + multiset([leader]) == multiset{leader};
    assert Reaches(v, leader, leader);
    assert [leader][..0] == [];
  }

  /** Left to right: on every level below the leader, the subdag holds the uncommitted parents of the level
      above in their declared order, from left to right, each at its first occurrence. */
  lemma SubdagIsLeftToRight(v: View, s: set<Certificate>, leader: Certificate, r: Round)
    requires Sound(v, s) && leader in s && leader.round > v.dag.last && r < leader.round
    requires forall c :: c in s ==> Distinct(c.parents)
    ensures OrderDag(v, leader).Some?
    ensures var subdag := OrderDag(v, leader).value;
            Bucket(subdag, r) == LevelBelow(v, Bucket(subdag, r + 1))
  {
    hide Resolvable;
    hide IdsDetermine;
    hide Distinct;
    hide Progress;
    hide LevelOk;
    hide LevelBelow;
    hide AtRound;
    hide GroupByRound;
    hide Reaches;
    hide Traverse;
    SubdagExact(v, s, leader);
    DfsExact(v, s, leader);
    var visits := Visits(v, leader).value;
    BucketIsLevel(visits, r);
    BucketIsLevel(visits, r + 1);
    StartLevel(v, s, leader, r);
    TraverseLevels(v, s, leader, [leader], {}, [], r);
  }

  /** The subdag up to a round is the level of that round with the levels below it. */
  lemma {:induction false} SubdagLevels(v: View, s: set<Certificate>, leader: Certificate, r: Round)
    requires Sound(v, s) && leader in s && leader.round > v.dag.last && r <= leader.round
    requires forall c :: c in s ==> Distinct(c.parents)
    ensures OrderDag(v, leader).Some?
    ensures var subdag := OrderDag(v, leader).value;
            Flatten(subdag, r) == LevelsUpTo(v, Bucket(subdag, r), r)
    decreases r
  {
    hide Sound;
    hide Distinct;
    hide OrderDag;
    hide LevelBelow;
    SubdagFound(v, s, leader);
    if r > 0 {
      SubdagLevels(v, s, leader, r - 1);
      SubdagIsLeftToRight(v, s, leader, r - 1);
    }
  }

  lemma SubdagFound(v: View, s: set<Certificate>, leader: Certificate)
    requires Sound(v, s) && leader in s && leader.round > v.dag.last
    ensures OrderDag(v, leader).Some? && Bucket(OrderDag(v, leader).value, leader.round) == [leader]
  {
    hide OrderDag;
    SubdagExact(v, s, leader);
  }

  /** The order of a whole block is fixed without the traversal. */
  lemma BlockOrder(v: View, s: set<Certificate>, leader: Certificate)
    requires Sound(v, s) && leader in s && leader.round > v.dag.last
    requires forall c :: c in s ==> Distinct(c.parents)
    ensures OrderDag(v, leader).Some?
    ensures Flatten(OrderDag(v, leader).value, leader.round) == LevelsUpTo(v, [leader], leader.round)
  {
    hide Sound;
    hide Distinct;
    hide OrderDag;
    SubdagLevels(v, s, leader, leader.round);
    SubdagFound(v, s, leader);
  }

  // Views that agree order alike.

  lemma {:induction false} NewParentsSame(v: View, w: View, s: set<Certificate>, c: Certificate, ids: seq<Id>,
                                          seen: set<Id>)
    requires Agree(v, w, s) && c in s && Open(v, c) && forall id :: id in ids ==> id in c.parents
    ensures NewParents(v, PreviousRound(c), ids, seen) == NewParents(w, PreviousRound(c), ids, seen)
  {
    hide Resolve;
    if ids != [] {
      NewParentsSame(v, w, s, c, ids[..|ids| - 1], seen);
    }
  }

  lemma {:induction false} LevelBelowSame(v: View, w: View, s: set<Certificate>, level: seq<Certificate>)
    requires Sound(v, s) && Agree(v, w, s) && forall c :: c in level ==> c in s
    ensures LevelBelow(v, level) == LevelBelow(w, level) && forall c :: c in LevelBelow(v, level) ==> c in s
  {
    hide Sound;
    hide NewParents;
    if level != [] {
      var c, left := level[|level| - 1], LevelBelow(v, level[..|level| - 1]);
      LevelBelowSame(v, w, s, level[..|level| - 1]);
      if Open(v, c) {
        NewParentsSame(v, w, s, c, c.parents, IdsOf(left));
        NewParentsAreAt(v, s, c, c.parents, IdsOf(left));
      }
    }
  }

  lemma {:induction false} LevelsUpToSame(v: View, w: View, s: set<Certificate>, level: seq<Certificate>, r: Round)
    requires Sound(v, s) && Agree(v, w, s) && forall c :: c in level ==> c in s
    ensures LevelsUpTo(v, level, r) == LevelsUpTo(w, level, r)
    decreases r
  {
    hide Sound;
    hide Agree;
    hide LevelBelow;
    if r > 0 {
      LevelBelowSame(v, w, s, level);
      LevelsUpToSame(v, w, s, LevelBelow(v, level), r - 1);
    }
  }
}
