/** The transmissions of a block: the deduplicating loop of `commit_leader_certificate` in
    `node/bft/src/bft.rs`, and which declared transmissions it includes. */
module Blocks {
  import opened Types

  /** A transaction ID or a solution ID, without the checksum. */
  datatype Key = SolutionKey(id: nat) | TransactionKey(id: nat)

  function KeyOf(t: TransmissionId): Key
    requires !t.Ratification?
  {
    match t
    case Solution(id, _) => SolutionKey(id)
    case Transaction(id, _) => TransactionKey(id)
  }

  /** The same transaction, or the same solution, whatever the checksums. */
  predicate SameSubject(t: TransmissionId, u: TransmissionId) {
    || (t.Transaction? && u.Transaction? && t.transaction == u.transaction)
    || (t.Solution? && u.Solution? && t.solution == u.solution)
  }

  /** Keys identify transactions and solutions, and keep them apart. */
  lemma KeysAreSubjects(t: TransmissionId, u: TransmissionId)
    requires !t.Ratification? && !u.Ratification?
    ensures KeyOf(t) == KeyOf(u) <==> SameSubject(t, u)
  {
  }

  lemma KeysOfSubjects(t: TransmissionId, ts: seq<TransmissionId>)
    requires !t.Ratification?
    ensures KeyOf(t) in KeysOf(ts) <==> exists u :: u in ts && SameSubject(t, u)
  {
    hide KeyOf;
    forall u | u in ts && !u.Ratification?
      ensures KeyOf(t) == KeyOf(u) <==> SameSubject(t, u)
    {
      KeysAreSubjects(t, u);
    }
    if u :| u in ts && SameSubject(t, u) {
      assert KeyOf(u) in KeysOf(ts);
    }
  }

  /** What the loop reads: the keys in the ledger, the transmissions whose ledger lookup fails, and the
      transmissions that storage can return. */
  datatype Sources = Sources(ledger: set<Key>, unreadable: set<TransmissionId>, available: set<TransmissionId>)

  function KeysOf(ts: seq<TransmissionId>): set<Key> {
    set t | t in ts && !t.Ratification? :: KeyOf(t)
  }

  /** The ledger answers that it does not contain `t`. */
  predicate IsNew(s: Sources, t: TransmissionId) {
    !t.Ratification? && KeyOf(t) !in s.ledger && t !in s.unreadable
  }

  /** The loop over the declared transmissions, with the transmissions taken so far. */
  function Gather(s: Sources, declared: seq<TransmissionId>, taken: seq<TransmissionId>): Option<seq<TransmissionId>>
    decreases |declared|
  {
    if declared == [] then Some(taken) else
      var t := declared[0];
      if t.Ratification? then None
      else if KeyOf(t) in KeysOf(taken) || !IsNew(s, t) then Gather(s, declared[1..], taken)
      else if t !in s.available then None
      else Gather(s, declared[1..], taken + [t])
  }

  function Declared(certificates: seq<Certificate>): seq<TransmissionId> {
    if certificates == [] then [] else certificates[0].transmissions + Declared(certificates[1..])
  }

  /** The declarations of one certificate after another, each in its own order. */
  lemma {:induction false} DeclaredInOrder(certificates: seq<Certificate>, c: Certificate)
    ensures Declared([]) == [] && Declared(certificates + [c]) == Declared(certificates) + c.transmissions
  {
    if certificates == [] {
      assert certificates + [c] == [c] && [c][1..] == [];
    } else {
      DeclaredInOrder(certificates[1..], c);
      assert (certificates + [c])[1..] == certificates[1..] + [c];
    }
  }

  /** `t` is the first new declaration of its key. */
  ghost predicate FirstNew(s: Sources, declared: seq<TransmissionId>, t: TransmissionId) {
    exists i :: 0 <= i < |declared| && declared[i] == t && FirstNewAt(s, declared, i)
  }

  ghost predicate FirstNewAt(s: Sources, declared: seq<TransmissionId>, i: nat)
    requires i < |declared|
  {
    IsNew(s, declared[i]) && forall j :: 0 <= j < i && IsNew(s, declared[j]) ==>
        KeyOf(declared[j]) != KeyOf(declared[i])
  }

  ghost predicate DistinctKeys(ts: seq<TransmissionId>) {
    && (forall t :: t in ts ==> !t.Ratification?)
    && (forall i, j :: 0 <= i < j < |ts| ==> KeyOf(ts[i]) != KeyOf(ts[j]))
  }

  /** Shifting the window by one declaration. */
  lemma FirstNewTail(s: Sources, declared: seq<TransmissionId>, t: TransmissionId)
    requires declared != []
    ensures FirstNew(s, declared, t) <==>
              || (t == declared[0] && IsNew(s, t))
              || (FirstNew(s, declared[1..], t) && (IsNew(s, declared[0]) ==> KeyOf(declared[0]) != KeyOf(t)))
  {
    var tail := declared[1..];
    if FirstNew(s, declared, t) {
      var i :| 0 <= i < |declared| && declared[i] == t && FirstNewAt(s, declared, i);
      if i > 0 {
        assert tail[i - 1] == t;
        assert forall j :: 0 <= j < i - 1 ==> tail[j] == declared[j + 1];
        assert FirstNewAt(s, tail, i - 1);
      }
    }
    if t == declared[0] && IsNew(s, t) {
      assert FirstNewAt(s, declared, 0);
    }
    if FirstNew(s, tail, t) && (IsNew(s, declared[0]) ==> KeyOf(declared[0]) != KeyOf(t)) {
      var i :| 0 <= i < |tail| && tail[i] == t && FirstNewAt(s, tail, i);
      forall j | 0 <= j < i + 1 && IsNew(s, declared[j])
        ensures KeyOf(declared[j]) != KeyOf(t)
      {
        if j > 0 {
          assert tail[j - 1] == declared[j];
        }
      }
      assert FirstNewAt(s, declared, i + 1);
    }
  }

  lemma {:induction false} GatherExact(s: Sources, declared: seq<TransmissionId>, taken: seq<TransmissionId>)
    requires DistinctKeys(taken)
    requires Gather(s, declared, taken).Some?
    ensures DistinctKeys(Gather(s, declared, taken).value)
    ensures forall t :: t in Gather(s, declared, taken).value <==>
                          t in taken || (FirstNew(s, declared, t) && KeyOf(t) !in KeysOf(taken))
    decreases |declared|
  {
    if declared == [] {
    } else {
      var t := declared[0];
      var tail := declared[1..];
      forall x { FirstNewTail(s, declared, x); }
      if KeyOf(t) in KeysOf(taken) || !IsNew(s, t) {
        GatherExact(s, tail, taken);
      } else {
        var taken' := taken + [t];
        assert KeysOf(taken') == KeysOf(taken) + {KeyOf(t)} by {
          assert forall x :: x in taken' <==> x in taken || x == t;
        }
        assert DistinctKeys(taken') by {
          assert forall i :: 0 <= i < |taken| ==> taken[i] in taken && KeyOf(taken[i]) in KeysOf(taken);
        }
        GatherExact(s, tail, taken');
      }
    }
  }

  /** A transaction or solution of the ledger, whatever its checksum. */
  ghost predicate InLedger(ledger: set<TransmissionId>, t: TransmissionId) {
    exists u :: u in ledger && SameSubject(t, u)
  }

  /** Declaration `i` is new to the ledger, and its lookup succeeds. */
  ghost predicate NewAt(ledger: set<TransmissionId>, unreadable: set<TransmissionId>, declared: seq<TransmissionId>,
                        i: nat)
    requires i < |declared|
  {
    !declared[i].Ratification? && declared[i] !in unreadable && !InLedger(ledger, declared[i])
  }

  /** No new declaration before `i` is of the same transaction or solution. */
  ghost predicate FirstAt(ledger: set<TransmissionId>, unreadable: set<TransmissionId>, declared: seq<TransmissionId>,
                          i: nat)
    requires i < |declared|
  {
    NewAt(ledger, unreadable, declared, i) &&
    forall j :: 0 <= j < i && NewAt(ledger, unreadable, declared, j) ==> !SameSubject(declared[j], declared[i])
  }

  /** The block holds each new transaction and solution once, as first declared, in order, and nothing else. */
  ghost predicate HoldsNew(ledger: set<TransmissionId>, unreadable: set<TransmissionId>, declared: seq<TransmissionId>,
                           block: seq<TransmissionId>)
  {
    && Subsequence(block, declared)
    && (forall i, j :: 0 <= i < j < |block| ==> !SameSubject(block[i], block[j]))
    && (forall t :: t in block <==>
          exists i :: 0 <= i < |declared| && declared[i] == t && FirstAt(ledger, unreadable, declared, i))
  }

  function KeysIn(ledger: set<TransmissionId>): set<Key> {
    set t | t in ledger && !t.Ratification? :: KeyOf(t)
  }

  lemma LedgerKeysAreSubjects(ledger: set<TransmissionId>, t: TransmissionId)
    requires !t.Ratification?
    ensures KeyOf(t) in KeysIn(ledger) <==> InLedger(ledger, t)
  {
    hide KeyOf;
    forall u | u in ledger && !u.Ratification?
      ensures KeyOf(t) == KeyOf(u) <==> SameSubject(t, u)
    {
      KeysAreSubjects(t, u);
    }
    if u :| u in ledger && SameSubject(t, u) {
      assert KeyOf(u) in KeysIn(ledger);
    }
  }

  lemma NewAtExactly(s: Sources, ledger: set<TransmissionId>, declared: seq<TransmissionId>, i: nat)
    requires s.ledger == KeysIn(ledger) && i < |declared|
    ensures IsNew(s, declared[i]) <==> NewAt(ledger, s.unreadable, declared, i)
  {
    if !declared[i].Ratification? {
      LedgerKeysAreSubjects(ledger, declared[i]);
    }
  }

  lemma FirstAtExactly(s: Sources, ledger: set<TransmissionId>, declared: seq<TransmissionId>, i: nat)
    requires s.ledger == KeysIn(ledger) && i < |declared|
    ensures FirstNewAt(s, declared, i) <==> FirstAt(ledger, s.unreadable, declared, i)
  {
    hide NewAt;
    hide KeyOf;
    forall j: nat | j <= i
      ensures IsNew(s, declared[j]) <==> NewAt(ledger, s.unreadable, declared, j)
      ensures IsNew(s, declared[j]) && IsNew(s, declared[i]) ==>
                (KeyOf(declared[j]) == KeyOf(declared[i]) <==> SameSubject(declared[j], declared[i]))
    {
      NewAtExactly(s, ledger, declared, j);
      if IsNew(s, declared[j]) && IsNew(s, declared[i]) {
        KeysAreSubjects(declared[j], declared[i]);
      }
    }
  }

  lemma DistinctSubjects(block: seq<TransmissionId>)
    requires DistinctKeys(block)
    ensures forall i, j :: 0 <= i < j < |block| ==> !SameSubject(block[i], block[j])
  {
    hide KeyOf;
    forall i, j | 0 <= i < j < |block|
      ensures !SameSubject(block[i], block[j])
    {
      KeysAreSubjects(block[i], block[j]);
    }
  }

  /** A block includes each transaction and solution that is new to the ledger exactly once, as first declared in
      subdag order, and nothing of the ledger. */
  lemma BlockContents(s: Sources, ledger: set<TransmissionId>, declared: seq<TransmissionId>)
    requires s.ledger == KeysIn(ledger) && Gather(s, declared, []).Some?
    ensures HoldsNew(ledger, s.unreadable, declared, Gather(s, declared, []).value)
  {
    hide FirstNewAt;
    hide FirstAt;
    hide Gather;
    BlockKeys(s, declared);
    var block := Gather(s, declared, []).value;
    DistinctSubjects(block);
    forall i: nat | i < |declared|
      ensures FirstNewAt(s, declared, i) <==> FirstAt(ledger, s.unreadable, declared, i)
    {
      FirstAtExactly(s, ledger, declared, i);
    }
    forall t
      ensures t in block <==>
                exists i :: 0 <= i < |declared| && declared[i] == t && FirstAt(ledger, s.unreadable, declared, i)
    {
      assert t in block <==> FirstNew(s, declared, t);
    }
  }

  /** The same in terms of keys. */
  lemma BlockKeys(s: Sources, declared: seq<TransmissionId>)
    requires Gather(s, declared, []).Some?
    ensures var block := Gather(s, declared, []).value;
            && DistinctKeys(block)
            && (forall t :: t in block <==> FirstNew(s, declared, t))
            && Subsequence(block, declared)
            && KeysOf(block) !! s.ledger
  {
    GatherExact(s, declared, []);
    var added := GatherInOrder(s, declared, []);
    assert [] + added == added;
  }

  /** The transmissions are taken in the order of their declarations. */
  lemma {:induction false} GatherInOrder(s: Sources, declared: seq<TransmissionId>, taken: seq<TransmissionId>)
    returns (added: seq<TransmissionId>)
    requires Gather(s, declared, taken).Some?
    ensures Gather(s, declared, taken).value == taken + added
    ensures Subsequence(added, declared)
    decreases |declared|
  {
    added := [];
    if declared == [] {
      assert taken + added == taken;
    } else {
      var t, tail := declared[0], declared[1..];
      assert declared == [t] + tail;
      if KeyOf(t) in KeysOf(taken) || !IsNew(s, t) {
        added := GatherInOrder(s, tail, taken);
        SubsequenceGrows(added, tail, t);
      } else {
        var more := GatherInOrder(s, tail, taken + [t]);
        added := [t] + more;
        assert added[1..] == more;
        assert taken + added == taken + [t] + more;
      }
    }
  }

  /** Every key that some new declaration carries is in the block. */
  lemma NewKeyIsIncluded(s: Sources, declared: seq<TransmissionId>, i: nat)
    requires Gather(s, declared, []).Some?
    requires i < |declared| && IsNew(s, declared[i])
    ensures KeyOf(declared[i]) in KeysOf(Gather(s, declared, []).value)
  {
    if j :| 0 <= j < i && IsNew(s, declared[j]) && KeyOf(declared[j]) == KeyOf(declared[i]) {
      NewKeyIsIncluded(s, declared, j);
    } else {
      assert FirstNewAt(s, declared, i);
      GatherExact(s, declared, []);
      assert declared[i] in Gather(s, declared, []).value;
    }
  }

  /** Block building fails exactly when a ratification is declared or storage lacks a transmission to include. */
  lemma {:induction false} GatherSucceeds(s: Sources, declared: seq<TransmissionId>, taken: seq<TransmissionId>)
    ensures Gather(s, declared, taken).Some? <==>
              && Ratification !in declared
              && forall t :: FirstNew(s, declared, t) && KeyOf(t) !in KeysOf(taken) ==> t in s.available
    decreases |declared|
  {
    if declared != [] {
      var t, tail := declared[0], declared[1..];
      assert declared == [t] + tail;
      forall x { FirstNewTail(s, declared, x); }
      if !t.Ratification? {
        if KeyOf(t) in KeysOf(taken) || !IsNew(s, t) {
          GatherSucceeds(s, tail, taken);
        } else {
          assert KeysOf(taken + [t]) == KeysOf(taken) + {KeyOf(t)} by {
            assert forall x :: x in taken + [t] <==> x in taken || x == t;
          }
          GatherSucceeds(s, tail, taken + [t]);
        }
      }
    }
  }

  /** The transmissions that a block takes, whatever storage holds. */
  function Select(ledger: set<Key>, unreadable: set<TransmissionId>, declared: seq<TransmissionId>,
                  taken: seq<TransmissionId>): seq<TransmissionId>
    decreases |declared|
  {
    if declared == [] then taken
    else
      var t := declared[0];
      if t.Ratification? || KeyOf(t) in KeysOf(taken) || KeyOf(t) in ledger || t in unreadable
      then Select(ledger, unreadable, declared[1..], taken)
      else Select(ledger, unreadable, declared[1..], taken + [t])
  }

  lemma {:induction false} GatherSelects(s: Sources, declared: seq<TransmissionId>, taken: seq<TransmissionId>)
    requires Gather(s, declared, taken).Some?
    ensures Gather(s, declared, taken).value == Select(s.ledger, s.unreadable, declared, taken)
    decreases |declared|
  {
    if declared != [] {
      var t := declared[0];
      if KeyOf(t) in KeysOf(taken) || !IsNew(s, t) {
        GatherSelects(s, declared[1..], taken);
      } else {
        GatherSelects(s, declared[1..], taken + [t]);
      }
    }
  }

  lemma {:induction false} SelectSkips(ledger: set<Key>, unreadable: set<TransmissionId>, declared: seq<TransmissionId>,
                                       taken: seq<TransmissionId>)
    ensures var all := Select(ledger, unreadable, declared, taken);
            taken <= all && forall t :: t in all[|taken|..] ==> t !in unreadable
    decreases |declared|
  {
    if declared != [] {
      var t := declared[0];
      if t.Ratification? || KeyOf(t) in KeysOf(taken) || KeyOf(t) in ledger || t in unreadable {
        SelectSkips(ledger, unreadable, declared[1..], taken);
      } else {
        SelectSkips(ledger, unreadable, declared[1..], taken + [t]);
        var all := Select(ledger, unreadable, declared, taken);
        assert all[|taken|..] == [t] + all[|taken| + 1..];
      }
    }
  }

  lemma {:induction false} SelectReadable(ledger: set<Key>, unreadable: set<TransmissionId>,
                                          declared: seq<TransmissionId>,
                                          taken: seq<TransmissionId>)
    requires forall t :: t in Select(ledger, {}, declared, taken) && t !in taken ==> t !in unreadable
    ensures Select(ledger, unreadable, declared, taken) == Select(ledger, {}, declared, taken)
    decreases |declared|
  {
    if declared != [] {
      var t := declared[0];
      if t.Ratification? || KeyOf(t) in KeysOf(taken) || KeyOf(t) in ledger {
        SelectReadable(ledger, unreadable, declared[1..], taken);
      } else {
        SelectSkips(ledger, {}, declared[1..], taken + [t]);
        assert (taken + [t])[|taken|] == t && t !in taken;
        SelectReadable(ledger, unreadable, declared[1..], taken + [t]);
      }
    }
  }

  /** A block is what it would be with every lookup succeeding exactly when no transmission of that block
      has a failed lookup; failed lookups of anything else do no harm. */
  lemma FailedReadsMatterExactly(s: Sources, declared: seq<TransmissionId>)
    requires Gather(s, declared, []).Some?
    ensures Gather(s, declared, []).value == Select(s.ledger, {}, declared, []) <==>
              forall t :: t in Select(s.ledger, {}, declared, []) ==> t !in s.unreadable
  {
    var all, built := Select(s.ledger, {}, declared, []), Select(s.ledger, s.unreadable, declared, []);
    GatherSelects(s, declared, []);
    SelectSkips(s.ledger, s.unreadable, declared, []);
    assert built[0..] == built && all[0..] == all;
    if forall t :: t in all ==> t !in s.unreadable {
      SelectReadable(s.ledger, s.unreadable, declared, []);
    }
  }

  /** The nested loops of the source over certificates and their transmission IDs. */
  method GatherTransmissions(s: Sources, certificates: seq<Certificate>) returns (block: Option<seq<TransmissionId>>)
    ensures block == Gather(s, Declared(certificates), [])
    ensures block.Some? ==> forall ledger :: s.ledger == KeysIn(ledger) ==>
                              HoldsNew(ledger, s.unreadable, Declared(certificates), block.value)
  {
    forall ledger | s.ledger == KeysIn(ledger) && Gather(s, Declared(certificates), []).Some?
      ensures HoldsNew(ledger, s.unreadable, Declared(certificates), Gather(s, Declared(certificates), []).value)
    {
      BlockContents(s, ledger, Declared(certificates));
    }
    hide HoldsNew;
    hide KeysIn;
    var transmissions: seq<TransmissionId> := [];
    var seen: set<Key> := {};
    var i := 0;
    assert certificates[0..] == certificates;
    while i < |certificates|
      invariant 0 <= i <= |certificates|
      invariant seen == KeysOf(transmissions)
      invariant Gather(s, Declared(certificates), []) == Gather(s, Declared(certificates[i..]), transmissions)
    {
      var ids := certificates[i].transmissions;
      ghost var later := Declared(certificates[i + 1..]);
      assert Declared(certificates[i..]) == ids + later by {
        assert certificates[i..][1..] == certificates[i + 1..];
      }
      assert ids[0..] == ids;
      var k := 0;
      while k < |ids|
        invariant 0 <= k <= |ids|
        invariant seen == KeysOf(transmissions)
        invariant Gather(s, Declared(certificates), []) == Gather(s, ids[k..] + later, transmissions)
      {
        var t := ids[k];
        assert (ids[k..] + later)[1..] == ids[k + 1..] + later;
        k := k + 1;
        if t.Ratification? {
          return None;
        }
        if KeyOf(t) in seen || t in transmissions {
          assert t in transmissions ==> KeyOf(t) in KeysOf(transmissions);
          continue;
        }
        if KeyOf(t) in s.ledger || t in s.unreadable {
          continue;
        }
        if t !in s.available {
          return None;
        }
        assert KeysOf(transmissions + [t]) == KeysOf(transmissions) + {KeyOf(t)} by {
          assert forall x :: x in transmissions + [t] <==> x in transmissions || x == t;
        }
        seen := seen + {KeyOf(t)};
        transmissions := transmissions + [t];
      }
      assert ids[|ids|..] + later == later;
      i := i + 1;
    }
    return Some(transmissions);
  }
}
