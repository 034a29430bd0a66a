/** A failed ledger lookup can fork the ledger: one validator, three certificates, and two runs that differ
    in a single lookup. The same run repeats a transmission of a past round. */
module ForkWitness {
  import opened Types
  import opened Committees
  import opened Dags
  import opened Links
  import opened Dfs
  import opened DfsExactness
  import opened Blocks
  import opened Memories
  import opened Engines
  import opened Nodes
  import opened NodeRuns
  import opened Agreement
  import opened NoFork

  const LEADER := Address(0)
  const PAYMENT := Transaction(7, 0)
  const FIRST := Certificate(Id(1), 1, LEADER, [], [])
  const ANCHOR := Certificate(Id(2), 2, LEADER, [Id(1)], [PAYMENT])
  const SUPPORT := Certificate(Id(3), 3, LEADER, [Id(2)], [PAYMENT])
  const ALONE := Committee(map[LEADER := 1])
  const WORLD := map[Id(1) := FIRST, Id(2) := ANCHOR, Id(3) := SUPPORT]
  const PARAMS := Params(1, LEADER, r => ALONE, WORLD)
  const KNOWN := map[2 := ALONE, 3 := ALONE]

  /** The events up to the delivery that commits the anchor. */
  const ARRIVALS := [
    Store(FIRST, map[], {}), Deliver(FIRST, KNOWN, []),
    Store(ANCHOR, map[PAYMENT := TransactionData(7)], {}), Deliver(ANCHOR, KNOWN, []),
    Store(SUPPORT, map[], {})]

  /** The last event, with the transmissions whose lookup fails. */
  function Last(unreadable: set<TransmissionId>): Event {
    Deliver(SUPPORT, KNOWN, [Answer({}, unreadable, true)])
  }

  lemma AloneDecides()
    ensures ALONE.HasQuorum({LEADER}) && ALONE.HasAvailability({LEADER})
  {
    ALONE.StakeOfRemove({LEADER}, LEADER);
    assert {LEADER} - {LEADER} == {} && ALONE.stakes.Keys == {LEADER};
  }

  // The states of the run, for any memory.

  const DAG1 := DagState(map[1 := map[LEADER := FIRST]], map[], 0)
  const DAG2 := DagState(map[1 := map[LEADER := FIRST], 2 := map[LEADER := ANCHOR]], map[], 0)
  const DAG3 :=
    DagState(map[1 := map[LEADER := FIRST], 2 := map[LEADER := ANCHOR], 3 := map[LEADER := SUPPORT]], map[], 0)

  function State0(m: Memory): Node {
    Node(Engine(EMPTY_DAG, map[], 0, m, []), {}, {})
  }

  function State1(m: Memory): Node {
    Node(Engine(EMPTY_DAG, map[Id(1) := FIRST], 0, m, []), {FIRST}, {})
  }

  function State2(m: Memory): Node {
    Node(Engine(DAG1, map[Id(1) := FIRST], 0, m, []), {FIRST}, {FIRST})
  }

  function State3(m: Memory): Node {
    Node(Engine(DAG1, map[Id(1) := FIRST, Id(2) := ANCHOR], 0, m, []), {FIRST, ANCHOR}, {FIRST})
  }

  function State4(m: Memory): Node {
    Node(Engine(DAG2, map[Id(1) := FIRST, Id(2) := ANCHOR], 0, m, []), {FIRST, ANCHOR}, {FIRST, ANCHOR})
  }

  function State5(m: Memory): Node {
    Node(Engine(DAG2, WORLD, 0, m, []), {FIRST, ANCHOR, SUPPORT}, {FIRST, ANCHOR})
  }

  lemma StoreFirst(m: Memory)
    ensures Next(PARAMS, State0(m), ARRIVALS[0]) == State1(Inserted(m, FIRST, {}, map[]))
  {
    hide Inserted;
    assert map[][Id(1) := FIRST] == map[Id(1) := FIRST];
  }

  lemma DeliverFirst(m: Memory)
    ensures Next(PARAMS, State1(m), ARRIVALS[1]) == State2(m)
  {
    assert AfterInsert(EMPTY_DAG, FIRST) == DAG1;
  }

  lemma StoreAnchor(m: Memory)
    ensures Next(PARAMS, State2(m), ARRIVALS[2]) == State3(Inserted(m, ANCHOR, {}, map[PAYMENT := TransactionData(7)]))
  {
    hide Inserted;
    var stored := map[Id(1) := FIRST];
    ParentsByLeader(stored, ANCHOR, Id(1));
    assert stored[Id(2) := ANCHOR] == map[Id(1) := FIRST, Id(2) := ANCHOR];
    hide ParentsAccepted;
  }

  /** The leader's own certificate is parent enough. */
  lemma ParentsByLeader(stored: map<Id, Certificate>, c: Certificate, id: Id)
    requires c.parents == [id] && id in stored && stored[id].author == LEADER && stored[id].round + 1 == c.round
    ensures ParentsAccepted(stored, ALONE, c)
  {
    AloneDecides();
    assert (set x | x in c.parents && x in stored :: stored[x].author) == {LEADER} by {
      assert id in c.parents;
    }
  }

  lemma DeliverAnchor(m: Memory)
    ensures Next(PARAMS, State3(m), ARRIVALS[3]) == State4(m)
  {
    assert AfterInsert(DAG1, ANCHOR) == DAG2;
  }

  lemma StoreSupport(m: Memory)
    requires PAYMENT in m.transmissions
    ensures Next(PARAMS, State4(m), ARRIVALS[4]) == State5(Inserted(m, SUPPORT, {}, map[]))
  {
    hide Inserted;
    var stored := map[Id(1) := FIRST, Id(2) := ANCHOR];
    ParentsByLeader(stored, SUPPORT, Id(2));
    assert stored[Id(3) := SUPPORT] == WORLD;
    hide ParentsAccepted;
  }

  lemma AfterArrivals() returns (m: Memory)
    ensures After(PARAMS, ARRIVALS) == State5(m) && PAYMENT in m.transmissions
  {
    hide Next;
    hide Inserted;
    var run := ARRIVALS;
    assert run[..5] == run;
    assert forall k :: 0 <= k < 5 ==> run[..k + 1][..k] == run[..k] && run[..k + 1][k] == run[k];
    StartIsState0();
    StoreFirst(EMPTY_MEMORY);
    var m1 := Inserted(EMPTY_MEMORY, FIRST, {}, map[]);
    DeliverFirst(m1);
    StoreAnchor(m1);
    var m2 := Inserted(m1, ANCHOR, {}, map[PAYMENT := TransactionData(7)]);
    DeliverAnchor(m2);
    PaymentStays(m1);
    StoreSupport(m2);
    m := Inserted(m2, SUPPORT, {}, map[]);
    assert After(PARAMS, run[..1]) == State1(m1);
    assert After(PARAMS, run[..2]) == State2(m1);
    assert After(PARAMS, run[..3]) == State3(m2);
    assert After(PARAMS, run[..4]) == State4(m2);
  }

  lemma StartIsState0()
    ensures After(PARAMS, ARRIVALS[..0]) == State0(EMPTY_MEMORY)
  {
  }

  lemma PaymentStays(m: Memory)
    ensures var m2 := Inserted(m, ANCHOR, {}, map[PAYMENT := TransactionData(7)]);
            PAYMENT in m2.transmissions && PAYMENT in Inserted(m2, SUPPORT, {}, map[]).transmissions
  {
    assert PAYMENT in ANCHOR.transmissions;
  }

  // The last event commits the anchor.

  lemma FirstIsFound(v: View)
    requires v.dag == DAG3 && v.ledger == {}
    ensures Resolve(v, 1, Id(1)) == Found(FIRST)
  {
    var at := CertificatesAt(v.dag, 1);
    assert LEADER in at && at[LEADER].id == Id(1);
    var a :| a in at && at[a].id == Id(1) && FindById(at, Id(1)) == Some(at[a]);
  }

  lemma ParentsPushed(v: View)
    requires WellStored(v.stored) && v.dag == DAG3 && v.ledger == {}
    ensures Expand(v, 1, [Id(1)], [], {}) == Some(Frontier([FIRST], {Id(1)}))
    ensures Expand(v, 0, [], [], {Id(1)}) == Some(Frontier([], {Id(1)}))
  {
    hide Resolve;
    FirstIsFound(v);
    assert [Id(1)][..0] == [] && [] + [FIRST] == [FIRST] && {} + {Id(1)} == {Id(1)};
  }

  lemma VisitsOf(v: View)
    requires WellStored(v.stored) && v.dag == DAG3 && v.ledger == {} && v.gcRounds == 1
    ensures Visits(v, ANCHOR) == Some([ANCHOR, FIRST])
  {
    hide Expand;
    hide WellStored;
    hide Traverse;
    hide KnownIds;
    ParentsPushed(v);
    assert [ANCHOR][..0] == [] && [FIRST][..0] == [];
    assert [] + [ANCHOR] == [ANCHOR] && [ANCHOR] + [FIRST] == [ANCHOR, FIRST];
    TraverseUnfolds(v, [ANCHOR], {}, [], Frontier([FIRST], {Id(1)}));
    TraverseUnfolds(v, [FIRST], {Id(1)}, [ANCHOR], Frontier([], {Id(1)}));
    TraverseEnds(v, {Id(1)}, [ANCHOR, FIRST]);
  }

  lemma TraverseEnds(v: View, ordered: set<Id>, visits: seq<Certificate>)
    requires WellStored(v.stored)
    ensures Traverse(v, [], ordered, visits) == Some(visits)
  {
  }

  lemma GroupsOf()
    ensures var subdag := Within(GroupByRound([ANCHOR, FIRST]), 1, 0);
            Flatten(subdag, 2) == [FIRST, ANCHOR] && AnchorRoundIs(subdag, 2)
  {
    assert [ANCHOR, FIRST][..1] == [ANCHOR] && [ANCHOR][..0] == [];
    var subdag := Within(GroupByRound([ANCHOR, FIRST]), 1, 0);
    assert GroupByRound([ANCHOR]).Keys == {2} && GroupByRound([ANCHOR])[2] == [ANCHOR];
    assert subdag.Keys == {1, 2} && subdag[1] == [FIRST] && subdag[2] == [ANCHOR];
    assert Flatten(subdag, 0) == [] && Flatten(subdag, 1) == [FIRST];
  }

  lemma BlockOf(unreadable: set<TransmissionId>, available: set<TransmissionId>)
    requires PAYMENT in available
    ensures Gather(Sources({}, unreadable, available), Declared([FIRST, ANCHOR]), []) ==
              Some(if PAYMENT in unreadable then [] else [PAYMENT])
  {
    assert [FIRST, ANCHOR][1..] == [ANCHOR] && [ANCHOR][1..] == [];
    assert Declared([ANCHOR]) == [PAYMENT] && Declared([FIRST, ANCHOR]) == [PAYMENT];
    assert [PAYMENT][1..] == [] && [] + [PAYMENT] == [PAYMENT] && KeysOf([]) == {};
  }

  function Final(m: Memory): Engine {
    Engine(DAG3, WORLD, 0, m, [])
  }

  lemma AnchorCommits(m: Memory, unreadable: set<TransmissionId>)
    requires PAYMENT in m.transmissions
    ensures WellStored(WORLD)
    ensures var r := CommitAnchor(Final(m), 1, ANCHOR, Answer({}, unreadable, true));
            r.Some? && r.value.log == [Block(ANCHOR, [FIRST, ANCHOR], if PAYMENT in unreadable then [] else [PAYMENT])]
  {
    hide Visits;
    hide Flatten;
    hide GroupByRound;
    hide Gather;
    hide AfterCommits;
    hide Declared;
    var e, answer := Final(m), Answer({}, unreadable, true);
    assert LedgerIds([]) == {} && LedgerKeys([]) == {};
    VisitsOf(ViewOf(e, 1, {}));
    GroupsOf();
    BlockOf(unreadable, m.transmissions.Keys);
  }

  lemma AnchorIsCommittable()
    ensures Committable(DAG3, LEADER, KNOWN, SUPPORT) == Some(ANCHOR)
    ensures WalkBack(DAG3, LEADER, 0, ANCHOR) == Some([])
  {
    AloneDecides();
    assert Including(DAG3, 3, Id(2)) == {LEADER} by {
      assert Id(2) in SUPPORT.parents;
    }
  }

  lemma LastCommits(m: Memory, unreadable: set<TransmissionId>)
    requires PAYMENT in m.transmissions
    ensures Next(PARAMS, State5(m), Last(unreadable)).engine.log ==
              [Block(ANCHOR, [FIRST, ANCHOR], if PAYMENT in unreadable then [] else [PAYMENT])]
  {
    hide Committable;
    hide WalkBack;
    hide CommitAnchor;
    hide ParentsDelivered;
    var answers := [Answer({}, unreadable, true)];
    LastIsEnabled(m, unreadable);
    assert AfterInsert(DAG2, SUPPORT) == DAG3;
    AnchorIsCommittable();
    AnchorCommits(m, unreadable);
    assert [] + [ANCHOR] == [ANCHOR] && [ANCHOR][1..] == [] && answers[1..] == [];
    NextCommits(PARAMS, State5(m), Last(unreadable));
  }

  lemma LastIsEnabled(m: Memory, unreadable: set<TransmissionId>)
    ensures Enabled(PARAMS, State5(m), Last(unreadable))
  {
    assert SUPPORT.parents == [Id(2)] && PARAMS.world[Id(2)] == ANCHOR;
  }

  lemma WorldIsClosed()
    ensures ClosedAbove(WORLD.Values, 0, PARAMS.committee)
  {
    hide ParentsAccepted;
    hide Rooted;
    ParentsByLeader(WORLD, ANCHOR, Id(1));
    ParentsByLeader(WORLD, SUPPORT, Id(2));
    AcceptedIsRooted(WORLD, WORLD.Values, ANCHOR, PARAMS.committee);
    AcceptedIsRooted(WORLD, WORLD.Values, SUPPORT, PARAMS.committee);
  }

  lemma WorldIsValid()
    ensures ValidWorld(PARAMS)
  {
    WorldIsClosed();
    hide ClosedAbove;
  }

  /** One failed lookup forks the ledger: these two runs over the same certificates differ in nothing else. */
  lemma FailedReadForks()
    ensures ValidWorld(PARAMS)
    ensures var log := After(PARAMS, ARRIVALS + [Last({PAYMENT})]).engine.log;
            var log' := After(PARAMS, ARRIVALS + [Last({})]).engine.log;
            && log == [Block(ANCHOR, [FIRST, ANCHOR], [])]
            && log' == [Block(ANCHOR, [FIRST, ANCHOR], [PAYMENT])]
            && !Comparable(log, log')
  {
    hide After;
    hide Next;
    hide ValidWorld;
    WorldIsValid();
    var m := AfterArrivals();
    LastCommits(m, {PAYMENT});
    LastCommits(m, {});
    AfterGrows(PARAMS, ARRIVALS, Last({PAYMENT}));
    AfterGrows(PARAMS, ARRIVALS, Last({}));
    assert [Block(ANCHOR, [FIRST, ANCHOR], [])][0] != [Block(ANCHOR, [FIRST, ANCHOR], [PAYMENT])][0];
  }

  /** A certificate may declare a transmission of a past round again: storage has accepted two certificates, of
      rounds 2 and 3, that declare the same one. */
  lemma PastTransmissionIsAccepted()
    ensures var stored := After(PARAMS, ARRIVALS).engine.stored;
            Declares(stored, Id(2), PAYMENT) && Declares(stored, Id(3), PAYMENT) &&
            stored[Id(2)].round < stored[Id(3)].round
  {
    hide After;
    var _ := AfterArrivals();
    assert PAYMENT in ANCHOR.transmissions && PAYMENT in SUPPORT.transmissions;
  }
}
