/** Bootup stores the certificates of the window again, block by block: every one above the collection round is
    accepted, so storage ends up with exactly the committed certificates above it. */
module Resync {
  import opened Types
  import opened Dags
  import opened Links
  import opened Dfs
  import opened DfsExactness
  import opened Memories
  import opened Engines
  import opened Nodes
  import opened NodeProofs
  import opened NodeRuns
  import opened Bootup
  import opened Agreement
  import opened NoFork
  import opened Histories
  import opened Safety

  // Parents come first.

  ghost predicate Ascending(cs: seq<Certificate>) {
    forall i, j :: 0 <= i < j < |cs| ==> cs[i].round <= cs[j].round
  }

  /** A flattened subdag lists lower rounds first. */
  lemma {:induction false} FlattenAscends(m: Subdag, hi: Round)
    requires WellGrouped(m)
    ensures Ascending(Flatten(m, hi)) && forall c :: c in Flatten(m, hi) ==> c.round <= hi
  {
    if hi > 0 {
      FlattenAscends(m, hi - 1);
    }
    var low, top := if hi == 0 then [] else Flatten(m, hi - 1), if hi in m then m[hi] else [];
    assert forall c :: c in top ==> c.round == hi;
    forall i, j | 0 <= i < j < |low + top|
      ensures (low + top)[i].round <= (low + top)[j].round
    {
      assert i < |low| ==> low[i] in low;
      assert i >= |low| ==> (low + top)[i] in top;
      assert j >= |low| ==> (low + top)[j] in top;
    }
  }

  /** A committed block lists lower rounds first, and leaves the ledger causally complete. */
  lemma CommittedBlock(p: Params, before: seq<Block>, b: Block)
    requires CommittedOn(p, before, b)
    ensures Ascending(b.certificates)
    ensures CausallyComplete(p, Committed(before + [b]), b.anchor.round)
  {
    hide Inv;
    hide StorageOk;
    hide MemoryOk;
    hide DagOk;
    hide LedgerOk;
    hide DeliveredOk;
    hide OrderDag;
    hide Sound;
    hide Reaches;
    hide CommitAnchor;
    hide CausallyComplete;
    var n: Node, answer: Answer :| Commits(p, n, answer, b) && n.engine.log == before;
    InvFacts(p, n);
    var v := ViewOf(n.engine, p.gcRounds, answer.unreadableCertificates);
    BlockOf(n, p.gcRounds, answer, b);
    ViewIsSound(p, n, answer.unreadableCertificates);
    SubdagExact(v, n.ever, b.anchor);
    FlattenAscends(OrderDag(v, b.anchor).value, b.anchor.round);
    CommitAnchorKeeps(p, n, b.anchor, answer);
    InvIsComplete(p, n.(engine := CommitAnchor(n.engine, p.gcRounds, b.anchor, answer).value));
  }

  lemma InvIsComplete(p: Params, n: Node)
    requires Inv(p, n)
    ensures CausallyComplete(p, Committed(n.engine.log), n.engine.dag.last)
  {
  }

  ghost predicate Earlier(cs: seq<Certificate>, k: nat, id: Id) {
    exists j :: 0 <= j < k && j < |cs| && cs[j].id == id
  }

  /** Every parent above the floor comes before its child. */
  ghost predicate ParentsFirst(cs: seq<Certificate>, floor: Round) {
    forall k, id :: 0 <= k < |cs| && id in cs[k].parents && PreviousRound(cs[k]) > floor ==> Earlier(cs, k, id)
  }

  lemma {:induction false} AllCertificatesSnoc(blocks: seq<Block>, b: Block)
    ensures AllCertificates(blocks + [b]) == AllCertificates(blocks) + b.certificates
  {
    if blocks == [] {
      assert blocks + [b] == [b] && b.certificates + [] == b.certificates;
    } else {
      AllCertificatesSnoc(blocks[1..], b);
      assert (blocks + [b])[1..] == blocks[1..] + [b];
    }
  }

  /** The parent of a committed certificate, above the floor, is in the same block or an earlier one of the window. */
  lemma ParentInWindow(p: Params, log: seq<Block>, i: nat, c: Certificate, id: Id) returns (d: Certificate, j: nat)
    requires ValidWorld(p) && Accounted(p, log) && Spaced(log)
    requires forall x :: x in Committed(log) ==> InWorld(p, x)
    requires i < |log| && c in log[i].certificates && id in c.parents
    requires PreviousRound(c) > Monus(LastRound(log), p.gcRounds)
    ensures d.id == id && d.round + 1 == c.round
    ensures Monus(|log|, p.gcRounds / 2 + 1) <= j <= i && d in log[j].certificates
  {
    hide Accounted;
    hide ValidWorld;
    hide Spaced;
    RoundsRise(log, i, |log| - 1);
    d, j := ParentWithin(p, log, i, c, id);
    assert log[i] in log && c in Committed(log);
    ParentOfWorld(p, c, id);
    RecentBlockInWindow(log, p.gcRounds, d, j);
  }

  /** The parent is committed no later than its child. */
  lemma ParentWithin(p: Params, log: seq<Block>, i: nat, c: Certificate, id: Id) returns (d: Certificate, j: nat)
    requires Accounted(p, log) && i < |log| && c in log[i].certificates && id in c.parents
    requires PreviousRound(c) + p.gcRounds > log[i].anchor.round
    ensures id in p.world && d == p.world[id] && j <= i && d in log[j].certificates
  {
    hide CommittedOn;
    CommittedBlock(p, log[..i], log[i]);
    assert log[..i] + [log[i]] == log[..i + 1];
    assert log[i] in log[..i + 1];
    assert c in Committed(log[..i + 1]);
    assert IsCommitted(p, Committed(log[..i + 1]), id);
    d := p.world[id];
    var b :| b in log[..i + 1] && d in b.certificates;
    j :| 0 <= j < |log[..i + 1]| && log[..i + 1][j] == b;
  }

  lemma ParentOfWorld(p: Params, c: Certificate, id: Id)
    requires ValidWorld(p) && InWorld(p, c) && c.round > 1 && id in c.parents && id in p.world
    ensures p.world[id].id == id && p.world[id].round + 1 == c.round
  {
    assert c in p.world.Values && Rooted(p.world.Values, c, p.committee);
    assert HasParent(p.world.Values, c, id);
    var x :| Step(p.world.Values, c, x) && x.id == id;
    assert InWorld(p, x);
  }

  lemma ParentsFirstGrows(cs: seq<Certificate>, bs: seq<Certificate>, floor: Round)
    requires ParentsFirst(cs, floor) && Ascending(bs)
    requires forall c, id :: c in bs && id in c.parents && PreviousRound(c) > floor ==> HasEarlier(cs, bs, c, id)
    ensures ParentsFirst(cs + bs, floor)
  {
    var all := cs + bs;
    forall k, id | 0 <= k < |all| && id in all[k].parents && PreviousRound(all[k]) > floor
      ensures Earlier(all, k, id)
    {
      if k < |cs| {
        assert Earlier(cs, k, id);
        var j :| 0 <= j < k && cs[j].id == id;
        assert all[j] == cs[j];
      } else {
        assert all[k] in bs && HasEarlier(cs, bs, all[k], id);
        var d: Certificate :| d.id == id && d.round + 1 == all[k].round && (d in cs || d in bs);
        if d in cs {
          var j :| 0 <= j < |cs| && cs[j] == d;
          assert all[j] == d;
        } else {
          var j :| 0 <= j < |bs| && bs[j] == d;
          assert all[|cs| + j] == d && bs[k - |cs|] == all[k];
        }
      }
    }
  }

  ghost predicate HasEarlier(cs: seq<Certificate>, bs: seq<Certificate>, c: Certificate, id: Id) {
    exists d: Certificate :: d.id == id && d.round + 1 == c.round && (d in cs || d in bs)
  }

  lemma {:induction false} WindowParentsFirst(p: Params, log: seq<Block>, start: nat, end: nat)
    requires ValidWorld(p) && Accounted(p, log) && Spaced(log)
    requires forall x :: x in Committed(log) ==> InWorld(p, x)
    requires start == Monus(|log|, p.gcRounds / 2 + 1) <= end <= |log|
    ensures ParentsFirst(AllCertificates(log[start..end]), Monus(LastRound(log), p.gcRounds))
    decreases end
  {
    hide ValidWorld;
    hide Accounted;
    hide Spaced;
    hide ParentsFirst;
    hide HasEarlier;
    hide AllCertificates;
    hide Ascending;
    var floor := Monus(LastRound(log), p.gcRounds);
    if end == start {
      NothingFirst(floor);
      assert log[start..end] == [];
    } else {
      var before, b := log[start..end - 1], log[end - 1];
      WindowParentsFirst(p, log, start, end - 1);
      assert log[start..end] == before + [b];
      AllCertificatesSnoc(before, b);
      BlockAscends(p, log, end - 1);
      forall c, id | c in b.certificates && id in c.parents && PreviousRound(c) > floor
        ensures HasEarlier(AllCertificates(before), b.certificates, c, id)
      {
        var d, j := ParentInWindow(p, log, end - 1, c, id);
        ParentIsEarlier(log, start, end, c, d, j);
      }
      ParentsFirstGrows(AllCertificates(before), b.certificates, floor);
    }
  }

  lemma NothingFirst(floor: Round)
    ensures ParentsFirst(AllCertificates([]), floor)
  {
  }

  lemma BlockAscends(p: Params, log: seq<Block>, i: nat)
    requires Accounted(p, log) && i < |log|
    ensures Ascending(log[i].certificates)
  {
    hide CommittedOn;
    CommittedBlock(p, log[..i], log[i]);
  }

  lemma ParentIsEarlier(log: seq<Block>, start: nat, end: nat, c: Certificate, d: Certificate, j: nat)
    requires start <= j < end <= |log| && d in log[j].certificates && d.round + 1 == c.round
    ensures HasEarlier(AllCertificates(log[start..end - 1]), log[end - 1].certificates, c, d.id)
  {
    var before := log[start..end - 1];
    if j < end - 1 {
      AllCertificatesElements(before);
      assert before[j - start] in before && d in Committed(before);
      assert d in Elements(AllCertificates(before));
    }
  }

  // Storing them again.

  /** The state after more events. */
  ghost function Steps(p: Params, n: Node, events: seq<Event>): Node {
    if events == [] then n else Next(p, Steps(p, n, events[..|events| - 1]), events[|events| - 1])
  }

  lemma {:induction false} AfterSteps(p: Params, run: seq<Event>, events: seq<Event>)
    ensures After(p, run + events) == Steps(p, After(p, run), events)
    decreases |events|
  {
    hide Next;
    hide After;
    if events == [] {
      assert run + events == run;
    } else {
      var init, event := events[..|events| - 1], events[|events| - 1];
      AfterSteps(p, run, init);
      assert run + events == run + init + [event];
      AfterGrows(p, run + init, event);
    }
  }

  /** The events store these certificates, in order. */
  ghost predicate Stores(events: seq<Event>, cs: seq<Certificate>) {
    |events| == |cs| && forall k :: 0 <= k < |cs| ==> events[k].Store? && events[k].certificate == cs[k]
  }

  /** Event `k` comes with the transmissions of its certificate. */
  ghost predicate SuppliedAt(p: Params, n: Node, events: seq<Event>, k: nat)
    requires k < |events| && events[k].Store?
  {
    var e := events[k];
    && Supplied(Steps(p, n, events[..k]).engine.memory, e.certificate.transmissions, e.provided, e.aborted)
    && OnlyDeclared(e.certificate.transmissions, e.aborted)
  }

  /** The stored certificates are those of `cs` above the floor, and nothing else has changed. */
  ghost predicate HoldsExactly(n: Node, n': Node, cs: seq<Certificate>) {
    && n'.engine.gcRound == n.engine.gcRound && n'.engine.dag == n.engine.dag && n'.engine.log == n.engine.log
    && WellStored(n'.engine.stored)
    && forall c :: c in n'.engine.stored.Values <==> c in cs && c.round > n.engine.gcRound
  }

  lemma StoredAreParents(p: Params, n: Node, n': Node, cs: seq<Certificate>, c: Certificate, id: Id)
    requires ValidWorld(p) && HoldsExactly(n, n', cs) && InWorld(p, c) && id in c.parents
    requires PreviousRound(c) > n.engine.gcRound
    requires forall x :: x in cs ==> InWorld(p, x)
    requires exists d :: d in cs && d.id == id
    ensures id in n'.engine.stored && n'.engine.stored[id].round + 1 == c.round
    ensures id in p.world && n'.engine.stored[id] == p.world[id]
  {
    var d :| d in cs && d.id == id;
    assert InWorld(p, d);
    ParentOfWorld(p, c, id);
    assert d in n'.engine.stored.Values;
    var x :| x in n'.engine.stored && n'.engine.stored[x] == d;
  }

  /** With its parents stored, a certificate of the world has a quorum of parents. */
  lemma WorldParentsAccepted(p: Params, stored: map<Id, Certificate>, c: Certificate)
    requires ValidWorld(p) && InWorld(p, c) && c.round > 1
    requires forall id :: id in c.parents ==> id in stored && id in p.world && stored[id] == p.world[id]
    requires forall id :: id in c.parents ==> stored[id].round + 1 == c.round
    ensures ParentsAccepted(stored, p.committee(c.round - 1), c)
  {
    var s := p.world.Values;
    assert c in s && Rooted(s, c, p.committee);
    var authors := set id | id in c.parents && id in stored :: stored[id].author;
    forall a | a in AuthorsOf(ParentsIn(s, c))
      ensures a in authors
    {
      var d :| d in ParentsIn(s, c) && d.author == a;
      assert InWorld(p, d);
      assert stored[d.id] == d;
    }
    p.committee(c.round - 1).StakeOfMonotone(AuthorsOf(ParentsIn(s, c)), authors);
  }

  /** A certificate whose parents are stored, and which is not, is accepted. */
  lemma NextIsAccepted(p: Params, n: Node, n': Node, cs: seq<Certificate>, c: Certificate)
    requires ValidWorld(p) && HoldsExactly(n, n', cs) && InWorld(p, c)
    requires forall x :: x in cs ==> InWorld(p, x)
    requires c !in cs && c.round > n.engine.gcRound
    requires PreviousRound(c) > n.engine.gcRound ==> forall id :: id in c.parents ==> exists d :: d in cs && d.id == id
    ensures Accepts(p, n'.engine, c)
  {
    var stored := n'.engine.stored;
    forall id | id in stored
      ensures id != c.id && (stored[id].round != c.round || stored[id].author != c.author)
    {
      assert stored[id] in stored.Values;
      assert InWorld(p, stored[id]);
      assert stored[id] in p.world.Values && c in p.world.Values;
    }
    if PreviousRound(c) > n'.engine.gcRound {
      forall id | id in c.parents
        ensures id in stored && id in p.world && stored[id] == p.world[id] && stored[id].round + 1 == c.round
      {
        StoredAreParents(p, n, n', cs, c, id);
      }
      WorldParentsAccepted(p, stored, c);
    }
  }

  /** Storing one more certificate. */
  lemma HoldsOneMore(p: Params, n: Node, n': Node, cs: seq<Certificate>, event: Event)
    requires HoldsExactly(n, n', cs) && event.Store?
    requires var c := event.certificate;
             && (c in cs || c.round <= n.engine.gcRound ==> !Accepts(p, n'.engine, c))
             && (c !in cs && c.round > n.engine.gcRound ==> Enabled(p, n', event))
    ensures HoldsExactly(n, Next(p, n', event), cs + [event.certificate])
  {
    hide Accepts;
    hide Inserted;
    hide Supplied;
    hide OnlyDeclared;
    var c := event.certificate;
    var n2 := Next(p, n', event);
    assert forall x :: x in cs + [c] <==> x in cs || x == c;
    if c !in cs && c.round > n.engine.gcRound {
      ValuesGrow(p, n', c);
    }
  }

  lemma ValuesGrow(p: Params, n: Node, c: Certificate)
    requires Accepts(p, n.engine, c)
    ensures forall x :: x in n.engine.stored[c.id := c].Values <==> x in n.engine.stored.Values || x == c
  {
    var stored, all := n.engine.stored, n.engine.stored[c.id := c];
    forall x | x in stored.Values
      ensures x in all.Values
    {
      var id :| id in stored && stored[id] == x;
      assert id != c.id && all[id] == x;
    }
    assert all[c.id] in all.Values;
  }

  lemma EarlierIsIn(cs: seq<Certificate>, k: nat, floor: Round)
    requires ParentsFirst(cs, floor) && k < |cs| && PreviousRound(cs[k]) > floor
    ensures forall id :: id in cs[k].parents ==> exists d :: d in cs[..k] && d.id == id
  {
    forall id | id in cs[k].parents
      ensures exists d :: d in cs[..k] && d.id == id
    {
      assert Earlier(cs, k, id);
      var j :| 0 <= j < k && cs[j].id == id;
      assert cs[..k][j] == cs[j];
    }
  }

  lemma StepsUnfold(p: Params, n: Node, events: seq<Event>, k: nat)
    requires k <= |events|
    ensures Steps(p, n, events[..k]) ==
              if k == 0 then n else Next(p, Steps(p, n, events[..k - 1]), events[k - 1])
  {
    hide Next;
    if k > 0 {
      assert events[..k][..k - 1] == events[..k - 1];
    }
  }

  lemma NothingHeld(n: Node)
    requires n.engine.stored == map[]
    ensures HoldsExactly(n, n, [])
  {
  }

  /** Storing certificates of the world, parents first and with their transmissions, stores every one above the
      floor. */
  lemma {:induction false} StoringHolds(p: Params, n: Node, events: seq<Event>, cs: seq<Certificate>, k: nat)
    requires ValidWorld(p) && n.engine.stored == map[] && Stores(events, cs) && k <= |cs|
    requires forall x :: x in cs ==> InWorld(p, x)
    requires ParentsFirst(cs, n.engine.gcRound)
    requires forall i: nat :: i < k && cs[i].round > n.engine.gcRound ==> SuppliedAt(p, n, events, i)
    ensures HoldsExactly(n, Steps(p, n, events[..k]), cs[..k])
    decreases k
  {
    hide ValidWorld;
    hide Next;
    hide ParentsFirst;
    hide Supplied;
    hide OnlyDeclared;
    hide InWorld;
    hide HoldsExactly;
    hide Accepts;
    hide Steps;
    StepsUnfold(p, n, events, k);
    if k == 0 {
      assert cs[..0] == [];
      NothingHeld(n);
    } else {
      StoringHolds(p, n, events, cs, k - 1);
      var n', before, event := Steps(p, n, events[..k - 1]), cs[..k - 1], events[k - 1];
      assert cs[..k] == before + [cs[k - 1]];
      var c := cs[k - 1];
      assert forall x :: x in before ==> x in cs;
      if c in before || c.round <= n.engine.gcRound {
        KnownIsRefused(p, n, n', before, c);
      } else {
        if PreviousRound(c) > n.engine.gcRound {
          EarlierIsIn(cs, k - 1, n.engine.gcRound);
        }
        NextIsAccepted(p, n, n', before, c);
        assert SuppliedAt(p, n, events, k - 1);
      }
      HoldsOneMore(p, n, n', before, event);
    }
  }

  lemma KnownIsRefused(p: Params, n: Node, n': Node, cs: seq<Certificate>, c: Certificate)
    requires HoldsExactly(n, n', cs) && (c in cs || c.round <= n.engine.gcRound)
    ensures !Accepts(p, n'.engine, c)
  {
    if c in cs && c.round > n.engine.gcRound {
      assert c in n'.engine.stored.Values;
      var id :| id in n'.engine.stored && n'.engine.stored[id] == c;
    }
  }

  // The converse.

  ghost predicate StoredAt(p: Params, n: Node, events: seq<Event>, c: Certificate, j: nat)
    requires j < |events| && events[j].Store?
  {
    events[j].certificate == c && Enabled(p, Steps(p, n, events[..j]), events[j])
  }

  /** A stored certificate was stored by one of the events. */
  lemma {:induction false} StoredByEvent(p: Params, n: Node, events: seq<Event>, c: Certificate, k: nat)
    returns (j: nat)
    requires n.engine.stored == map[] && k <= |events| && forall i :: 0 <= i < |events| ==> events[i].Store?
    requires c in Steps(p, n, events[..k]).engine.stored.Values
    ensures j < k && StoredAt(p, n, events, c, j)
    decreases k
  {
    hide Accepts;
    hide Inserted;
    hide Supplied;
    hide OnlyDeclared;
    assert k > 0;
    var n' := Steps(p, n, events[..k - 1]);
    assert events[..k][..k - 1] == events[..k - 1];
    if c in n'.engine.stored.Values {
      j := StoredByEvent(p, n, events, c, k - 1);
    } else {
      j := k - 1;
    }
  }

  /** Whatever is stored, store events leave the rest alone. */
  lemma {:induction false} StoresKeep(p: Params, n: Node, events: seq<Event>)
    requires forall i :: 0 <= i < |events| ==> events[i].Store?
    ensures var e, e' := n.engine, Steps(p, n, events).engine;
            e'.gcRound == e.gcRound && e'.dag == e.dag && e'.log == e.log
  {
    hide Accepts;
    hide Inserted;
    hide Supplied;
    hide OnlyDeclared;
    if events != [] {
      StoresKeep(p, n, events[..|events| - 1]);
    }
  }

  lemma UnsuppliedIsMissing(p: Params, n: Node, events: seq<Event>, cs: seq<Certificate>, k: nat)
    requires n.engine.stored == map[] && Stores(events, cs) && Distinct(cs)
    requires k < |cs| && cs[k] in Steps(p, n, events).engine.stored.Values
    ensures SuppliedAt(p, n, events, k)
  {
    hide Steps;
    hide Accepts;
    hide Supplied;
    hide OnlyDeclared;
    assert events[..|events|] == events;
    var j := StoredByEvent(p, n, events, cs[k], |events|);
    assert cs[j] == cs[k];
  }

  lemma OnceEach(cs: seq<Certificate>)
    requires forall c :: c in cs ==> multiset(cs)[c] == 1
    ensures Distinct(cs)
  {
    forall i, j | 0 <= i < j < |cs|
      ensures cs[i] != cs[j]
    {
      if cs[i] == cs[j] {
        CountedTwice(cs, i, j);
      }
    }
  }

  lemma DistinctAppend(xs: seq<Certificate>, ys: seq<Certificate>)
    requires Distinct(xs) && Distinct(ys) && forall c :: c in xs ==> c !in ys
    ensures Distinct(xs + ys)
  {
    var all := xs + ys;
    forall i, j | 0 <= i < j < |all|
      ensures all[i] != all[j]
    {
      assert i < |xs| ==> all[i] in xs;
      assert j >= |xs| ==> all[j] in ys;
    }
  }

  lemma NotCommittedLater(log: seq<Block>, i: nat)
    requires LogOk(log) && i < |log|
    ensures forall c :: c in log[i].certificates ==> c !in AllCertificates(log[i + 1..])
  {
    var rest := log[i + 1..];
    AllCertificatesElements(rest);
    forall j | i < j < |log|
      ensures forall c :: c in log[i].certificates ==> c !in log[j].certificates
    {
      assert Apart(log[i], log[j]);
    }
    forall c | c in AllCertificates(rest)
      ensures c !in log[i].certificates
    {
      assert c in Elements(AllCertificates(rest)) && c in Committed(rest);
      var b :| b in rest && c in b.certificates;
      var k :| 0 <= k < |rest| && rest[k] == b;
      assert log[i + 1 + k] == b;
    }
  }

  /** No certificate is in two blocks, or twice in one. */
  lemma {:induction false} WindowDistinct(log: seq<Block>, start: nat)
    requires LogOk(log) && start <= |log|
    ensures Distinct(AllCertificates(log[start..]))
    decreases |log| - start
  {
    hide Distinct;
    if start == |log| {
      assert log[start..] == [];
      OnceEach([]);
    } else {
      var b := log[start];
      assert log[start..][1..] == log[start + 1..];
      WindowDistinct(log, start + 1);
      assert BlockOk(b);
      OnceEach(b.certificates);
      NotCommittedLater(log, start);
      DistinctAppend(b.certificates, AllCertificates(log[start + 1..]));
    }
  }

  // The whole bootup.

  function WindowCertificates(p: Params, log: seq<Block>): seq<Certificate> {
    AllCertificates(Window(log, p.gcRounds))
  }

  /** Storage holds exactly the committed certificates above the collection round. */
  ghost predicate Restored(e: Engine) {
    forall c :: c in e.stored.Values <==> c in Committed(e.log) && c.round > e.gcRound
  }

  /** The certificates of the window above the floor are the committed ones. */
  lemma WindowIsCommitted(p: Params, log: seq<Block>)
    requires LogOk(log) && forall c :: c in Committed(log) ==> InWorld(p, c)
    ensures var floor := Monus(LastRound(log), p.gcRounds);
            forall c :: c in WindowCertificates(p, log) && c.round > floor <==> c in Committed(log) && c.round > floor
    ensures forall c :: c in WindowCertificates(p, log) ==> InWorld(p, c)
  {
    hide InWorld;
    var window := Window(log, p.gcRounds);
    AllCertificatesElements(window);
    WindowIsInLog(log, p.gcRounds);
    LogIsSpaced(log);
    forall c
      ensures c in WindowCertificates(p, log) ==> c in Committed(log)
      ensures c in Committed(log) && c.round > Monus(LastRound(log), p.gcRounds) ==> c in WindowCertificates(p, log)
    {
      assert c in WindowCertificates(p, log) <==> c in Committed(window);
      if c in Committed(log) {
        RecentIsInWindow(log, p.gcRounds, c);
      }
    }
  }

  lemma WindowIsOrdered(p: Params, log: seq<Block>)
    requires ValidWorld(p) && Accounted(p, log) && LogOk(log)
    requires forall c :: c in Committed(log) ==> InWorld(p, c)
    ensures ParentsFirst(WindowCertificates(p, log), Monus(LastRound(log), p.gcRounds))
    ensures Distinct(WindowCertificates(p, log))
  {
    hide ValidWorld;
    hide Accounted;
    hide LogOk;
    hide InWorld;
    hide ParentsFirst;
    hide Distinct;
    hide AllCertificates;
    var start := Monus(|log|, p.gcRounds / 2 + 1);
    LogIsSpaced(log);
    WindowParentsFirst(p, log, start, |log|);
    assert log[start..|log|] == log[start..];
    WindowDistinct(log, start);
  }

  /** Every certificate above the floor comes with its transmissions. */
  ghost predicate AllSupplied(p: Params, n: Node, events: seq<Event>)
    requires forall k :: 0 <= k < |events| ==> events[k].Store?
  {
    forall k: nat :: k < |events| && events[k].certificate.round > n.engine.gcRound ==> SuppliedAt(p, n, events, k)
  }

  /** What storing the window needs to know about it. */
  ghost predicate WindowOk(p: Params, n: Node, cs: seq<Certificate>) {
    && n.engine.stored == map[]
    && (forall c :: c in cs ==> InWorld(p, c))
    && ParentsFirst(cs, n.engine.gcRound)
    && Distinct(cs)
    && (forall c :: c in cs && c.round > n.engine.gcRound <==>
        c in Committed(n.engine.log) && c.round > n.engine.gcRound)
  }

  lemma WindowIsOk(p: Params, log: seq<Block>, n: Node)
    requires ValidWorld(p) && Accounted(p, log) && LogOk(log)
    requires forall c :: c in Committed(log) ==> InWorld(p, c)
    requires n == Node(Rebooted(log, p.gcRounds), {}, {})
    ensures WindowOk(p, n, WindowCertificates(p, log))
  {
    hide ValidWorld;
    hide Accounted;
    hide LogOk;
    hide InWorld;
    hide ParentsFirst;
    hide Distinct;
    hide WindowCertificates;
    hide AfterCommits;
    hide Committed;
    WindowIsCommitted(p, log);
    WindowIsOrdered(p, log);
  }

  lemma SuppliedRestores(p: Params, n: Node, events: seq<Event>, cs: seq<Certificate>)
    requires ValidWorld(p) && WindowOk(p, n, cs) && Stores(events, cs) && AllSupplied(p, n, events)
    ensures Restored(Steps(p, n, events).engine)
  {
    hide ValidWorld;
    hide InWorld;
    hide Steps;
    hide ParentsFirst;
    hide SuppliedAt;
    hide Distinct;
    hide Committed;
    assert events[..|events|] == events && cs[..|cs|] == cs;
    StoringHolds(p, n, events, cs, |cs|);
  }

  lemma RestoredIsSupplied(p: Params, n: Node, events: seq<Event>, cs: seq<Certificate>)
    requires WindowOk(p, n, cs) && Stores(events, cs) && Restored(Steps(p, n, events).engine)
    ensures AllSupplied(p, n, events)
  {
    hide InWorld;
    hide Steps;
    hide ParentsFirst;
    hide SuppliedAt;
    hide Distinct;
    hide Committed;
    StoresKeep(p, n, events);
    forall k: nat | k < |events| && events[k].certificate.round > n.engine.gcRound
      ensures SuppliedAt(p, n, events, k)
    {
      assert cs[k] in cs;
      UnsuppliedIsMissing(p, n, events, cs, k);
    }
  }

  /** Restoring the window: after any run, restarting and storing the certificates of the window again, in block
      order, leaves storage with exactly the committed certificates above the collection round if and only if each
      of them comes with its transmissions; no other check ever refuses one. */
  lemma WindowIsRestoredExactly(p: Params, run: seq<Event>, events: seq<Event>)
    requires ValidWorld(p) && Stores(events, WindowCertificates(p, After(p, run).engine.log))
    ensures var n := After(p, run + [Restart]);
            var e := After(p, run + [Restart] + events).engine;
            && e.log == After(p, run).engine.log && e.dag == n.engine.dag
            && e.gcRound == n.engine.gcRound == Monus(LastRound(e.log), p.gcRounds)
            && (Restored(e) <==> AllSupplied(p, n, events))
  {
    hide ValidWorld;
    hide After;
    hide Inv;
    hide Accounted;
    hide LogOk;
    hide InWorld;
    hide Steps;
    hide AllSupplied;
    hide Restored;
    hide WindowOk;
    hide WindowCertificates;
    hide AfterCommits;
    var log, n, cs := After(p, run).engine.log, After(p, run + [Restart]),
        WindowCertificates(p, After(p, run).engine.log);
    WorldIsParams(p);
    RunHistory(p, run);
    RunKeeps(p, run);
    InvLog(p, After(p, run));
    AfterGrows(p, run, Restart);
    AfterSteps(p, run + [Restart], events);
    StoresKeep(p, n, events);
    WindowIsOk(p, log, n);
    if AllSupplied(p, n, events) {
      SuppliedRestores(p, n, events, cs);
    }
    if Restored(Steps(p, n, events).engine) {
      RestoredIsSupplied(p, n, events, cs);
    }
  }

  lemma InvLog(p: Params, n: Node)
    requires Inv(p, n)
    ensures LogOk(n.engine.log) && forall c :: c in Committed(n.engine.log) ==> InWorld(p, c)
  {
  }

  /** What `sync_certificate_with_block` stores. */
  function SyncEvent(m: Memory, c: Certificate, source: BlockSource): Event {
    Store(c, SyncProvided(m, c.transmissions, source), SyncAborted(m, c.transmissions, source))
  }

  ghost predicate AllSyncable(m: Memory, source: BlockSource, c: Certificate) {
    forall t :: t in c.transmissions ==> Syncable(m, source, t)
  }

  /** Bootup itself: with what blocks and ledger return, the window is restored exactly when every transmission
      of its certificates is present or syncable when its turn comes. */
  lemma BootupRestoresExactly(p: Params, run: seq<Event>, events: seq<Event>, sources: seq<BlockSource>)
    requires ValidWorld(p) && Stores(events, WindowCertificates(p, After(p, run).engine.log))
    requires |sources| == |events|
    requires forall k: nat :: k < |events| ==>
               events[k] == SyncEvent(Steps(p, After(p, run + [Restart]), events[..k]).engine.memory,
                                      events[k].certificate, sources[k])
    ensures var n := After(p, run + [Restart]);
            var e := After(p, run + [Restart] + events).engine;
            Restored(e) <==>
              forall k: nat :: k < |events| && events[k].certificate.round > e.gcRound ==>
                                 AllSyncable(Steps(p, n, events[..k]).engine.memory, sources[k], events[k].certificate)
  {
    hide ValidWorld;
    hide After;
    hide Steps;
    hide Restored;
    hide Syncable;
    hide Supplied;
    hide OnlyDeclared;
    hide WindowCertificates;
    hide SyncProvided;
    hide SyncAborted;
    WindowIsRestoredExactly(p, run, events);
    var n := After(p, run + [Restart]);
    forall k: nat | k < |events|
      ensures SuppliedAt(p, n, events, k) <==>
                AllSyncable(Steps(p, n, events[..k]).engine.memory, sources[k], events[k].certificate)
    {
      SyncSuppliesExactly(Steps(p, n, events[..k]).engine.memory, events[k].certificate.transmissions, sources[k]);
    }
  }
}
