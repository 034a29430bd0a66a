/** The in-memory transmission store of `node/bft/storage-service/src/memory.rs`, and the reference
    counting that ties its entries to the stored certificates. */
module Memories {
  import opened Types

  datatype Entry = Entry(transmission: Transmission, certificates: set<Id>)

  datatype Memory = Memory(transmissions: map<TransmissionId, Entry>, aborted: map<TransmissionId, set<Id>>)

  const EMPTY_MEMORY := Memory(map[], map[])

  predicate Contains(m: Memory, t: TransmissionId) {
    t in m.transmissions || t in m.aborted
  }

  // `find_missing_transmissions`

  /** A declared transmission can be recorded: it is known, provided, or aborted. */
  predicate Provided(m: Memory, provided: map<TransmissionId, Transmission>, aborted: set<TransmissionId>,
                     t: TransmissionId)
  {
    t in m.transmissions || t in provided || t in aborted
  }

  ghost predicate Supplied(m: Memory, declared: seq<TransmissionId>, provided: map<TransmissionId, Transmission>,
                           aborted: set<TransmissionId>)
  {
    forall t :: t in declared ==> Provided(m, provided, aborted, t)
  }

  ghost predicate OnlyDeclared(declared: seq<TransmissionId>, aborted: set<TransmissionId>) {
    forall t :: t in aborted ==> t in declared
  }

  function MissingFrom(m: Memory, declared: seq<TransmissionId>, provided: map<TransmissionId, Transmission>)
    : map<TransmissionId, Transmission>
  {
    map t | t in provided && t in declared && t !in m.transmissions :: provided[t]
  }

  // `insert_transmissions` and `remove_transmissions`

  lemma MissingExactly(m: Memory, declared: seq<TransmissionId>, provided: map<TransmissionId, Transmission>)
    ensures var missing := MissingFrom(m, declared, provided);
            forall t :: (t in missing <==> t in declared && t in provided && t !in m.transmissions)
                     && (t in missing ==> missing[t] == provided[t])
  {
  }

  lemma MissingStep(m: Memory, declared: seq<TransmissionId>, provided: map<TransmissionId, Transmission>,
                    t: TransmissionId)
    ensures MissingFrom(m, declared + [t], provided) ==
              if t !in m.transmissions && t in provided then MissingFrom(m, declared, provided)[t := provided[t]]
              else MissingFrom(m, declared, provided)
  {
    assert forall x :: x in declared + [t] <==> x in declared || x == t;
    if t !in m.transmissions && t in provided {
      assert MissingFrom(m, declared + [t], provided) == MissingFrom(m, declared, provided)[t := provided[t]];
    } else {
      assert MissingFrom(m, declared + [t], provided) == MissingFrom(m, declared, provided);
    }
  }

  type Entries = map<TransmissionId, Entry>

  type AbortedIds = map<TransmissionId, set<Id>>

  /** The certificate is recorded for every declared transmission that is known or provided. */
  function HoldEntries(m: Entries, id: Id, declared: set<TransmissionId>, missing: map<TransmissionId, Transmission>)
    : Entries
  {
    map t | t in m.Keys + declared * missing.Keys ::
      if t !in m then Entry(missing[t], {id})
      else if t in declared then m[t].(certificates := m[t].certificates + {id})
      else m[t]
  }

  function HoldAborted(m: AbortedIds, id: Id, aborted: set<TransmissionId>): AbortedIds {
    map t | t in m.Keys + aborted ::
      if t !in aborted then m[t] else (if t in m then m[t] else {}) + {id}
  }

  /** The certificate is forgotten, with the entries it alone held. */
  function ReleaseEntries(m: Entries, id: Id, declared: set<TransmissionId>): Entries {
    map t | t in m && (t in declared ==> m[t].certificates - {id} != {}) ::
      if t in declared then m[t].(certificates := m[t].certificates - {id}) else m[t]
  }

  function ReleaseAborted(m: AbortedIds, id: Id, declared: set<TransmissionId>): AbortedIds {
    map t | t in m && (t in declared ==> m[t] - {id} != {}) :: if t in declared then m[t] - {id} else m[t]
  }

  function AfterInsertion(m: Memory, id: Id, declared: set<TransmissionId>, aborted: set<TransmissionId>,
                          missing: map<TransmissionId, Transmission>): Memory
  {
    Memory(HoldEntries(m.transmissions, id, declared, missing), HoldAborted(m.aborted, id, aborted))
  }

  function AfterRemoval(m: Memory, id: Id, declared: set<TransmissionId>): Memory {
    Memory(ReleaseEntries(m.transmissions, id, declared), ReleaseAborted(m.aborted, id, declared))
  }

  lemma HoldEntriesStep(m: Entries, id: Id, s: set<TransmissionId>, missing: map<TransmissionId, Transmission>,
                        t: TransmissionId)
    ensures HoldEntries(m, id, {}, missing) == m
    ensures var h := HoldEntries(m, id, s, missing);
            HoldEntries(m, id, s + {t}, missing) ==
              if t in h then h[t := h[t].(certificates := h[t].certificates + {id})]
              else if t in missing then h[t := Entry(missing[t], {id})]
              else h
  {
    var h, h' := HoldEntries(m, id, s, missing), HoldEntries(m, id, s + {t}, missing);
    if t in h {
      assert t in m ==> m[t].certificates + {id} + {id} == m[t].certificates + {id};
      assert {id} + {id} == {id};
      assert h' == h[t := h[t].(certificates := h[t].certificates + {id})];
    } else if t in missing {
      assert h' == h[t := Entry(missing[t], {id})];
    } else {
      assert h' == h;
    }
  }

  lemma HoldAbortedStep(m: AbortedIds, id: Id, s: set<TransmissionId>, t: TransmissionId)
    ensures HoldAborted(m, id, {}) == m
    ensures var h := HoldAborted(m, id, s);
            HoldAborted(m, id, s + {t}) == h[t := (if t in h then h[t] else {}) + {id}]
  {
    assert t in m ==> m[t] + {id} + {id} == m[t] + {id};
    assert {id} + {id} == {id} && {} + {id} == {id};
  }

  lemma ReleaseEntriesStep(m: Entries, id: Id, s: set<TransmissionId>, t: TransmissionId)
    ensures ReleaseEntries(m, id, {}) == m
    ensures var h := ReleaseEntries(m, id, s);
            ReleaseEntries(m, id, s + {t}) ==
              if t !in h then h
              else if h[t].certificates - {id} == {} then h - {t}
              else h[t := h[t].(certificates := h[t].certificates - {id})]
  {
    var h, h' := ReleaseEntries(m, id, s), ReleaseEntries(m, id, s + {t});
    if t !in h {
      assert h' == h;
    } else if h[t].certificates - {id} == {} {
      assert h' == h - {t};
    } else {
      assert m[t].certificates - {id} - {id} == m[t].certificates - {id};
      assert h' == h[t := h[t].(certificates := h[t].certificates - {id})];
    }
  }

  lemma ReleaseAbortedStep(m: AbortedIds, id: Id, s: set<TransmissionId>, t: TransmissionId)
    ensures ReleaseAborted(m, id, {}) == m
    ensures var h := ReleaseAborted(m, id, s);
            ReleaseAborted(m, id, s + {t}) ==
              if t !in h then h
              else if h[t] - {id} == {} then h - {t}
              else h[t := h[t] - {id}]
  {
    var h, h' := ReleaseAborted(m, id, s), ReleaseAborted(m, id, s + {t});
    if t !in h {
      assert h' == h;
    } else if h[t] - {id} == {} {
      assert h' == h - {t};
    } else {
      assert m[t] - {id} - {id} == m[t] - {id};
      assert h' == h[t := h[t] - {id}];
    }
  }

  lemma ElementsGrow(s: seq<TransmissionId>, i: nat)
    requires i < |s|
    ensures Elements(s[..i + 1]) == Elements(s[..i]) + {s[i]}
    ensures Elements(s[..0]) == {} && Elements(s[..|s|]) == Elements(s)
  {
    assert s[..i + 1] == s[..i] + [s[i]];
    assert s[..|s|] == s;
  }

  // `sync_certificate_with_block`: what it provides when it stores a certificate again

  /** The transmissions that block or ledger can return, and those they report as aborted. */
  datatype BlockSource = BlockSource(found: map<TransmissionId, Transmission>, aborted: set<TransmissionId>)

  function SyncProvided(m: Memory, declared: seq<TransmissionId>, source: BlockSource)
    : map<TransmissionId, Transmission>
  {
    map t | t in source.found && t in declared && !Contains(m, t) && !t.Ratification? :: source.found[t]
  }

  function SyncAborted(m: Memory, declared: seq<TransmissionId>, source: BlockSource): set<TransmissionId> {
    set t | t in declared && !Contains(m, t) && !t.Ratification? && t !in source.found && t in source.aborted
  }

  /** Syncing can record the transmission: it is present, or it is not recorded at all and found or aborted. */
  predicate Syncable(m: Memory, source: BlockSource, t: TransmissionId) {
    || t in m.transmissions
    || (t !in m.aborted && !t.Ratification? && (t in source.found || t in source.aborted))
  }

  /** What is provided is what was found, and only what was not found is aborted. */
  lemma SyncExactly(m: Memory, declared: seq<TransmissionId>, source: BlockSource, t: TransmissionId)
    ensures var provided := SyncProvided(m, declared, source);
            && (t in provided <==> && t in declared && t !in m.transmissions && t !in m.aborted
                                   && !t.Ratification? && t in source.found)
            && (t in provided ==> provided[t] == source.found[t])
    ensures t in SyncAborted(m, declared, source) <==>
              && t in declared && t !in m.transmissions && t !in m.aborted
              && !t.Ratification? && t !in source.found && t in source.aborted
  {
  }

  lemma SyncSuppliesExactly(m: Memory, declared: seq<TransmissionId>, source: BlockSource)
    ensures OnlyDeclared(declared, SyncAborted(m, declared, source))
    ensures Supplied(m, declared, SyncProvided(m, declared, source), SyncAborted(m, declared, source)) <==>
              forall t :: t in declared ==> Syncable(m, source, t)
  {
    forall t | t in declared
      ensures Provided(m, SyncProvided(m, declared, source), SyncAborted(m, declared, source), t) <==>
                Syncable(m, source, t)
    {
    }
  }

  /** A transmission that a block aborted is synced for one certificate only: once recorded as aborted it is
      neither provided nor aborted again, and the next certificate that declares it is refused. */
  lemma SecondAbortedIsRefused(m: Memory, c: Certificate, d: Certificate, t: TransmissionId, source: BlockSource)
    requires t in c.transmissions && t in d.transmissions
    requires t in SyncAborted(m, c.transmissions, source)
    ensures var m' := Inserted(m, c, SyncAborted(m, c.transmissions, source), SyncProvided(m, c.transmissions, source));
            forall later :: !Supplied(m', d.transmissions, SyncProvided(m', d.transmissions, later),
                                      SyncAborted(m', d.transmissions, later))
  {
    var provided, aborted := SyncProvided(m, c.transmissions, source), SyncAborted(m, c.transmissions, source);
    var m' := Inserted(m, c, aborted, provided);
    assert t !in MissingFrom(m, c.transmissions, provided);
    assert t !in m'.transmissions && t in m'.aborted;
    forall later
      ensures !Supplied(m', d.transmissions, SyncProvided(m', d.transmissions, later),
                        SyncAborted(m', d.transmissions, later))
    {
      SyncSuppliesExactly(m', d.transmissions, later);
      assert !Syncable(m', later, t);
    }
  }

  // Reference counting

  /** `id` is a stored certificate that declares `t`. */
  ghost predicate Declares(certificates: map<Id, Certificate>, id: Id, t: TransmissionId) {
    id in certificates && t in certificates[id].transmissions
  }

  /** Every entry is held by stored certificates that declare it, and by at least one. */
  ghost predicate NoLeak(m: Memory, certificates: map<Id, Certificate>) {
    && (forall t :: t in m.transmissions ==> m.transmissions[t].certificates != {})
    && (forall t, id :: t in m.transmissions && id in m.transmissions[t].certificates ==> Declares(certificates, id, t))
    && (forall t :: t in m.aborted ==> m.aborted[t] != {})
    && (forall t, id :: t in m.aborted && id in m.aborted[t] ==> Declares(certificates, id, t))
  }

  ghost predicate Recorded(m: Memory, id: Id, t: TransmissionId) {
    || (t in m.transmissions && id in m.transmissions[t].certificates)
    || (t in m.aborted && id in m.aborted[t])
  }

  /** Every transmission a stored certificate declares is recorded for it, as present or as aborted. */
  ghost predicate NoLoss(m: Memory, certificates: map<Id, Certificate>) {
    forall id, t :: Declares(certificates, id, t) ==> Recorded(m, id, t)
  }

  ghost predicate RefCounted(m: Memory, certificates: map<Id, Certificate>) {
    NoLeak(m, certificates) && NoLoss(m, certificates)
  }

  /** What memory records is exactly what stored certificates declare. */
  lemma RecordedIsDeclared(m: Memory, certificates: map<Id, Certificate>, t: TransmissionId)
    requires RefCounted(m, certificates)
    ensures Contains(m, t) <==> exists id :: Declares(certificates, id, t)
  {
    if t in m.transmissions {
      var id :| id in m.transmissions[t].certificates;
      assert Declares(certificates, id, t);
    } else if t in m.aborted {
      var id :| id in m.aborted[t];
      assert Declares(certificates, id, t);
    }
    if id :| Declares(certificates, id, t) {
      assert Recorded(m, id, t);
    }
  }

  function Inserted(m: Memory, c: Certificate, aborted: set<TransmissionId>,
                    provided: map<TransmissionId, Transmission>): Memory
  {
    AfterInsertion(m, c.id, Elements(c.transmissions), aborted, MissingFrom(m, c.transmissions, provided))
  }

  /** Inserting in full: which transmissions are present and aborted, for which certificates, and with what data. */
  lemma InsertionExactly(m: Memory, c: Certificate, aborted: set<TransmissionId>,
                         provided: map<TransmissionId, Transmission>, t: TransmissionId, id: Id)
    ensures var m' := Inserted(m, c, aborted, provided);
            && (t in m'.transmissions <==> t in m.transmissions || (t in c.transmissions && t in provided))
            && (t in m'.transmissions ==>
                  && m'.transmissions[t].transmission ==
                       (if t in m.transmissions then m.transmissions[t].transmission else provided[t])
                  && (id in m'.transmissions[t].certificates <==>
                        || (t in m.transmissions && id in m.transmissions[t].certificates)
                        || (id == c.id && t in c.transmissions)))
            && (t in m'.aborted <==> t in m.aborted || t in aborted)
            && (t in m'.aborted ==> (id in m'.aborted[t] <==>
                                       (t in m.aborted && id in m.aborted[t]) || (id == c.id && t in aborted)))
  {
  }

  lemma InsertionRecords(m: Memory, c: Certificate, aborted: set<TransmissionId>,
                         provided: map<TransmissionId, Transmission>, t: TransmissionId)
    requires t in c.transmissions && Provided(m, provided, aborted, t)
    ensures Recorded(Inserted(m, c, aborted, provided), c.id, t)
  {
  }

  lemma InsertionKeepsRecords(m: Memory, c: Certificate, aborted: set<TransmissionId>,
                              provided: map<TransmissionId, Transmission>, id: Id, t: TransmissionId)
    requires Recorded(m, id, t)
    ensures Recorded(Inserted(m, c, aborted, provided), id, t)
  {
  }

  lemma InsertionLosesNothing(m: Memory, certificates: map<Id, Certificate>, c: Certificate,
                              aborted: set<TransmissionId>, provided: map<TransmissionId, Transmission>)
    requires NoLoss(m, certificates) && c.id !in certificates
    requires Supplied(m, c.transmissions, provided, aborted)
    ensures NoLoss(Inserted(m, c, aborted, provided), certificates[c.id := c])
  {
    hide Inserted;
    hide Recorded;
    forall id, t | Declares(certificates[c.id := c], id, t)
      ensures Recorded(Inserted(m, c, aborted, provided), id, t)
    {
      if id == c.id {
        InsertionRecords(m, c, aborted, provided, t);
      } else {
        assert Declares(certificates, id, t);
        InsertionKeepsRecords(m, c, aborted, provided, id, t);
      }
    }
  }

  /** `c` is recorded only for transmissions it declares or aborts; everything else was there before. */
  lemma InsertionHolds(m: Memory, c: Certificate, aborted: set<TransmissionId>,
                       provided: map<TransmissionId, Transmission>,
                       t: TransmissionId, id: Id)
    ensures var m' := Inserted(m, c, aborted, provided);
            && (t in m'.transmissions && id in m'.transmissions[t].certificates ==>
                  || (id == c.id && t in c.transmissions)
                  || (t in m.transmissions && id in m.transmissions[t].certificates))
            && (t in m'.aborted && id in m'.aborted[t] ==>
                  (id == c.id && t in aborted) || (t in m.aborted && id in m.aborted[t]))
  {
  }

  lemma InsertionNotEmpty(m: Memory, c: Certificate, aborted: set<TransmissionId>,
                          provided: map<TransmissionId, Transmission>,
                          t: TransmissionId)
    requires t in m.transmissions ==> m.transmissions[t].certificates != {}
    requires t in m.aborted ==> m.aborted[t] != {}
    ensures var m' := Inserted(m, c, aborted, provided);
            && (t in m'.transmissions ==> m'.transmissions[t].certificates != {})
            && (t in m'.aborted ==> m'.aborted[t] != {})
            && (t in aborted ==> t in m'.aborted && c.id in m'.aborted[t])
  {
  }

  lemma InsertionLeaksNothing(m: Memory, certificates: map<Id, Certificate>, c: Certificate,
                              aborted: set<TransmissionId>, provided: map<TransmissionId, Transmission>)
    requires NoLeak(m, certificates) && c.id !in certificates
    requires OnlyDeclared(c.transmissions, aborted)
    ensures NoLeak(Inserted(m, c, aborted, provided), certificates[c.id := c])
  {
    var m', all := Inserted(m, c, aborted, provided), certificates[c.id := c];
    hide Inserted;
    assert forall id, t :: Declares(certificates, id, t) ==> Declares(all, id, t);
    forall t, id
      ensures t in m'.transmissions && id in m'.transmissions[t].certificates ==> Declares(all, id, t)
      ensures t in m'.aborted && id in m'.aborted[t] ==> Declares(all, id, t)
    {
      InsertionHolds(m, c, aborted, provided, t, id);
    }
    forall t
      ensures t in m'.transmissions ==> m'.transmissions[t].certificates != {}
      ensures t in m'.aborted ==> m'.aborted[t] != {}
    {
      InsertionNotEmpty(m, c, aborted, provided, t);
    }
  }

  /** Inserting a certificate whose transmissions are all provided keeps every certificate's
      transmissions, and leaks nothing exactly when only declared transmissions are aborted. */
  lemma InsertionRefCounted(m: Memory, certificates: map<Id, Certificate>, c: Certificate,
                            aborted: set<TransmissionId>, provided: map<TransmissionId, Transmission>)
    requires RefCounted(m, certificates) && c.id !in certificates
    requires Supplied(m, c.transmissions, provided, aborted)
    ensures NoLoss(Inserted(m, c, aborted, provided), certificates[c.id := c])
    ensures NoLeak(Inserted(m, c, aborted, provided), certificates[c.id := c]) <==>
        OnlyDeclared(c.transmissions, aborted)
  {
    hide Inserted;
    hide NoLoss;
    var m', all := Inserted(m, c, aborted, provided), certificates[c.id := c];
    InsertionLosesNothing(m, certificates, c, aborted, provided);
    if NoLeak(m', all) {
      forall t | t in aborted
        ensures t in c.transmissions
      {
        InsertionNotEmpty(m, c, aborted, provided, t);
        assert Declares(all, c.id, t);
      }
    }
    if OnlyDeclared(c.transmissions, aborted) {
      InsertionLeaksNothing(m, certificates, c, aborted, provided);
    }
  }

  // Releasing several certificates at once

  function WithoutHolders(m: Entries, gone: set<Id>): Entries {
    map t | t in m && m[t].certificates - gone != {} :: m[t].(certificates := m[t].certificates - gone)
  }

  function WithoutAborting(m: AbortedIds, gone: set<Id>): AbortedIds {
    map t | t in m && m[t] - gone != {} :: m[t] - gone
  }

  /** The memory without the certificates `gone`, and without the entries they alone held. */
  function Released(m: Memory, gone: set<Id>): Memory {
    Memory(WithoutHolders(m.transmissions, gone), WithoutAborting(m.aborted, gone))
  }

  /** Releasing in full: an entry stays, with its data, exactly while some other certificate holds it. */
  lemma ReleasedExactly(m: Memory, gone: set<Id>, t: TransmissionId, id: Id)
    ensures var m' := Released(m, gone);
            && (t in m'.transmissions <==>
                  t in m.transmissions && exists x :: x in m.transmissions[t].certificates && x !in gone)
            && (t in m'.transmissions ==>
                  && m'.transmissions[t].transmission == m.transmissions[t].transmission
                  && (id in m'.transmissions[t].certificates <==>
                        id in m.transmissions[t].certificates && id !in gone))
            && (t in m'.aborted <==> t in m.aborted && exists x :: x in m.aborted[t] && x !in gone)
            && (t in m'.aborted ==> (id in m'.aborted[t] <==> id in m.aborted[t] && id !in gone))
  {
    if t in m.transmissions {
      if x :| x in m.transmissions[t].certificates && x !in gone {
        assert x in m.transmissions[t].certificates - gone;
      }
    }
    if t in m.aborted {
      if x :| x in m.aborted[t] && x !in gone {
        assert x in m.aborted[t] - gone;
      }
    }
  }

  lemma ReleasedNone(m: Memory, certificates: map<Id, Certificate>)
    requires NoLeak(m, certificates)
    ensures Released(m, {}) == m
  {
    assert forall t :: t in m.transmissions ==> m.transmissions[t].certificates - {} == m.transmissions[t].certificates;
    assert forall t :: t in m.aborted ==> m.aborted[t] - {} == m.aborted[t];
    assert WithoutHolders(m.transmissions, {}) == m.transmissions;
    assert WithoutAborting(m.aborted, {}) == m.aborted;
  }

  lemma ReleasedTwice(m: Memory, some: set<Id>, more: set<Id>)
    ensures Released(Released(m, some), more) == Released(m, some + more)
  {
    assert forall t :: t in m.transmissions ==>
        m.transmissions[t].certificates - some - more == m.transmissions[t].certificates - (some + more);
    assert forall t :: t in m.aborted ==> m.aborted[t] - some - more == m.aborted[t] - (some + more);
    assert WithoutHolders(WithoutHolders(m.transmissions, some), more) == WithoutHolders(m.transmissions, some + more);
    assert WithoutAborting(WithoutAborting(m.aborted, some), more) == WithoutAborting(m.aborted, some + more);
  }

  /** Removing one certificate releases exactly what it held: it held nothing it does not declare. */
  lemma RemovalReleases(m: Memory, certificates: map<Id, Certificate>, id: Id)
    requires NoLeak(m, certificates) && id in certificates
    ensures AfterRemoval(m, id, Elements(certificates[id].transmissions)) == Released(m, {id})
  {
    var declared := Elements(certificates[id].transmissions);
    forall t | t in m.transmissions && t !in declared
      ensures m.transmissions[t].certificates - {id} == m.transmissions[t].certificates
    {
      assert id in m.transmissions[t].certificates ==> Declares(certificates, id, t);
    }
    forall t | t in m.aborted && t !in declared
      ensures m.aborted[t] - {id} == m.aborted[t]
    {
      assert id in m.aborted[t] ==> Declares(certificates, id, t);
    }
    assert ReleaseEntries(m.transmissions, id, declared) == WithoutHolders(m.transmissions, {id});
    assert ReleaseAborted(m.aborted, id, declared) == WithoutAborting(m.aborted, {id});
  }

  /** Releasing certificates that are no longer stored keeps the counts of the others. */
  lemma ReleasedRefCounted(m: Memory, certificates: map<Id, Certificate>, gone: set<Id>)
    requires RefCounted(m, certificates)
    ensures RefCounted(Released(m, gone), certificates - gone)
  {
    var m', rest := Released(m, gone), certificates - gone;
    forall x, t | Declares(rest, x, t)
      ensures Recorded(m', x, t)
    {
      assert Declares(certificates, x, t) && Recorded(m, x, t);
      if t in m.transmissions && x in m.transmissions[t].certificates {
        assert x in m.transmissions[t].certificates - gone;
      } else {
        assert x in m.aborted[t] - gone;
      }
    }
    forall t, x | t in m'.transmissions && x in m'.transmissions[t].certificates
      ensures Declares(rest, x, t)
    {
      assert Declares(certificates, x, t);
    }
    forall t, x | t in m'.aborted && x in m'.aborted[t]
      ensures Declares(rest, x, t)
    {
      assert Declares(certificates, x, t);
    }
  }

  /** Removing a stored certificate releases its transmissions and no other certificate's. */
  lemma RemovalRefCounted(m: Memory, certificates: map<Id, Certificate>, id: Id)
    requires RefCounted(m, certificates) && id in certificates
    ensures RefCounted(AfterRemoval(m, id, Elements(certificates[id].transmissions)), certificates - {id})
  {
    RemovalReleases(m, certificates, id);
    ReleasedRefCounted(m, certificates, {id});
  }

  class MemoryService {
    var transmissions: map<TransmissionId, Entry>
    var abortedTransmissionIds: map<TransmissionId, set<Id>>

    function Value(): Memory
      reads this
    {
      Memory(transmissions, abortedTransmissionIds)
    }

    constructor ()
      ensures Value() == EMPTY_MEMORY
    {
      transmissions, abortedTransmissionIds := map[], map[];
    }

    /** Fails exactly when a declared transmission is neither known, provided nor aborted. */
    method FindMissingTransmissions(declared: seq<TransmissionId>, provided: map<TransmissionId, Transmission>,
                                    aborted: set<TransmissionId>)
      returns (missing: Option<map<TransmissionId, Transmission>>)
      requires Distinct(declared)
      ensures missing.Some? <==> Supplied(Value(), declared, provided, aborted)
      ensures missing.Some? <==>
                forall t :: t in declared ==> t in transmissions || t in provided || t in aborted
      ensures missing.Some? ==>
                forall t :: (t in missing.value <==> t in declared && t in provided && t !in transmissions)
                         && (t in missing.value ==> missing.value[t] == provided[t])
      ensures missing.Some? ==> missing.value == MissingFrom(Value(), declared, provided)
    {
      assert MissingFrom(Value(), [], provided) == map[];
      MissingExactly(Value(), declared, provided);
      hide MissingFrom;
      var rest := provided;
      var found: map<TransmissionId, Transmission> := map[];
      for i := 0 to |declared|
        invariant forall t :: t in provided && t !in declared[..i] ==> t in rest && rest[t] == provided[t]
        invariant forall t :: t in rest ==> t in provided
        invariant found == MissingFrom(Value(), declared[..i], provided)
        invariant forall t :: t in declared[..i] ==> Provided(Value(), provided, aborted, t)
      {
        var t := declared[i];
        assert declared[..i + 1] == declared[..i] + [t];
        MissingStep(Value(), declared[..i], provided, t);
        assert t !in declared[..i];
        if t !in transmissions {
          if t in rest {
            found := found[t := rest[t]];
            rest := rest - {t};
          } else if t !in aborted {
            assert t in declared && !Provided(Value(), provided, aborted, t);
            return None;
          }
        }
      }
      assert declared[..|declared|] == declared;
      return Some(found);
    }

    method InsertTransmissions(id: Id, declared: seq<TransmissionId>, aborted: set<TransmissionId>,
                               missing: map<TransmissionId, Transmission>)
      modifies this
      ensures Value() == AfterInsertion(old(Value()), id, Elements(declared), aborted, missing)
    {
      hide HoldEntries;
      hide HoldAborted;
      hide Elements;
      ghost var entries, abortedIds := transmissions, abortedTransmissionIds;
      HoldEntriesStep(entries, id, {}, missing, Ratification);
      assert declared[..0] == [] && Elements<TransmissionId>([]) == {} by { EmptyElements(); }
      for i := 0 to |declared|
        invariant abortedTransmissionIds == abortedIds
        invariant transmissions == HoldEntries(entries, id, Elements(declared[..i]), missing)
      {
        var t := declared[i];
        HoldEntriesStep(entries, id, Elements(declared[..i]), missing, t);
        ElementsGrow(declared, i);
        if t in transmissions {
          transmissions := transmissions[t := transmissions[t].(certificates := transmissions[t].certificates + {id})];
        } else if t in missing {
          transmissions := transmissions[t := Entry(missing[t], {id})];
        }
      }
      assert declared[..|declared|] == declared;
      HoldAbortedStep(abortedIds, id, {}, Ratification);
      var rest := aborted;
      assert aborted - rest == {};
      while rest != {}
        invariant rest <= aborted
        invariant transmissions == HoldEntries(entries, id, Elements(declared), missing)
        invariant abortedTransmissionIds == HoldAborted(abortedIds, id, aborted - rest)
        decreases rest
      {
        var t :| t in rest;
        HoldAbortedStep(abortedIds, id, aborted - rest, t);
        assert aborted - (rest - {t}) == aborted - rest + {t};
        var ids := if t in abortedTransmissionIds then abortedTransmissionIds[t] else {};
        abortedTransmissionIds := abortedTransmissionIds[t := ids + {id}];
        rest := rest - {t};
      }
      assert aborted - {} == aborted;
    }

    method RemoveTransmissions(id: Id, declared: seq<TransmissionId>)
      modifies this
      ensures Value() == AfterRemoval(old(Value()), id, Elements(declared))
    {
      hide ReleaseEntries;
      hide ReleaseAborted;
      hide Elements;
      ghost var entries, abortedIds := transmissions, abortedTransmissionIds;
      ReleaseEntriesStep(entries, id, {}, Ratification);
      ReleaseAbortedStep(abortedIds, id, {}, Ratification);
      assert declared[..0] == [] && Elements<TransmissionId>([]) == {} by { EmptyElements(); }
      for i := 0 to |declared|
        invariant transmissions == ReleaseEntries(entries, id, Elements(declared[..i]))
        invariant abortedTransmissionIds == ReleaseAborted(abortedIds, id, Elements(declared[..i]))
      {
        var t := declared[i];
        ReleaseEntriesStep(entries, id, Elements(declared[..i]), t);
        ReleaseAbortedStep(abortedIds, id, Elements(declared[..i]), t);
        ElementsGrow(declared, i);
        if t in transmissions {
          var left := transmissions[t].certificates - {id};
          transmissions :=
            if left == {} then transmissions - {t} else transmissions[t := transmissions[t].(certificates := left)];
        }
        if t in abortedTransmissionIds {
          var left := abortedTransmissionIds[t] - {id};
          abortedTransmissionIds :=
            if left == {} then abortedTransmissionIds - {t} else abortedTransmissionIds[t := left];
        }
      }
      assert declared[..|declared|] == declared;
    }
  }

  lemma EmptyElements()
    ensures Elements<TransmissionId>([]) == {}
  {
  }
}
