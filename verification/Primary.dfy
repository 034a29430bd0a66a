/** Proposing one batch per round, across restarts: the propose lock of `propose_batch_lite` in
    `node/bft/src/primary.rs`, saved by `shut_down` and restored by `load_proposal_cache`. */
module Primaries {
  import opened Types
  import opened ReadyQueues
  import opened Drains
  import opened ProposalCaches

  /** The conditions that `propose_batch_lite` looks at besides its lock. */
  datatype Checks = Checks(
    tooSoon: bool,            // the previous certificate or proposal is too recent
    certified: bool,          // storage has our certificate for this round
    committeeKnown: bool,     // the lookback committees of this and the previous round are available
    connected: bool,          // the connected validators reach the quorum threshold
    previousQuorum: bool)     // the certificates of the previous round reach the quorum threshold

  /** A batch is built for the round, provided the queue drains without an error. */
  predicate MayPropose(lock: Round, round: Round, c: Checks) {
    && 0 < round && lock < round
    && !c.tooSoon && !c.certified && c.committeeKnown && c.connected
    && (round == 1 || c.previousQuorum)
  }

  /** How completing a built batch ends: not asked for, failed while signing, failed while storing or delivering
      the certificate, with the transmissions that storage or ledger have by then, or done. */
  datatype Completion = Skipped | SigningFailed | Failed(known: set<TransmissionId>) | Completed

  class Primary {
    var proposeLock: Round
    const ready: Ready

    constructor (ready: Ready)
      ensures proposeLock == 0 && this.ready == ready
    {
      proposeLock := 0;
      this.ready := ready;
    }

    /** Drains the queue exactly when every check passes, and moves the lock to the round exactly when the drain
        succeeds. The batch is then built, unless its header is refused, and completed when that is asked for. A
        refused header, or a completion that fails after signing, returns the batch to the queue except for what
        storage or ledger have by then. `completed` says that the batch was built and nothing asked for failed. */
    method ProposeBatchLite(round: Round, c: Checks, l: Limits, w: Surroundings, headerOk: bool, completion: Completion)
      returns (batch: Option<seq<Item>>, completed: bool)
      requires ready.Valid()
      modifies this, ready
      ensures ready.Valid()
      ensures MayPropose(old(proposeLock), round, c) <==>
                && round > 0 && round > old(proposeLock)
                && !c.tooSoon && !c.certified && c.committeeKnown && c.connected
                && (round > 1 ==> c.previousQuorum)
      ensures var d := Drain(l, w, old(ready.transmissions), [], 0);
              if !MayPropose(old(proposeLock), round, c) then
                && batch == None && !completed
                && proposeLock == old(proposeLock) && ready.transmissions == old(ready.transmissions)
              else if d.stop.Failed? then
                batch == None && !completed && proposeLock == old(proposeLock) && ready.transmissions == d.left
              else if !headerOk then
                && batch == None && !completed
                && proposeLock == round && Returned(d.left, ready.transmissions, d.batch, w.inStorage)
              else
                && batch == Some(d.batch) && completed == (completion.Skipped? || completion.Completed?)
                && proposeLock == round
                && if completion.Failed? then Returned(d.left, ready.transmissions, d.batch, completion.known)
                   else ready.transmissions == d.left
    {
      if round == 0 {
        return None, false;
      }
      if round < proposeLock {
        return None, false;
      }
      if c.tooSoon {
        return None, false;
      }
      if c.certified {
        return None, false;
      }
      if round == proposeLock {
        return None, false;
      }
      if !c.committeeKnown || !c.connected {
        return None, false;
      }
      if round != 1 && !c.previousQuorum {
        return None, false;
      }
      IndexedIsUnique(ready.transmissionIds, ready.transmissions, ready.offset);
      var items, _, drained := DrainWorker(l, w, ready);
      if !drained {
        return None, false;
      }
      proposeLock := round;
      ReinsertedBatch(l, w, old(ready.transmissions));
      if !headerOk {
        ReinsertTransmissions(w.inStorage, ready, items);
        return None, false;
      }
      batch, completed := Some(items), true;
      if completion != Skipped {
        completed := CompleteBatchLite(items, completion);
      }
    }

    /** `complete_batch_lite`: a failed signature loses the batch; a failure to store or deliver the certificate
        returns what storage and ledger do not have. */
    method CompleteBatchLite(items: seq<Item>, completion: Completion) returns (ok: bool)
      requires ready.Valid() && UniqueIds(ready.transmissions + items)
      modifies ready
      ensures ready.Valid() && ok == !(completion.SigningFailed? || completion.Failed?)
      ensures if completion.Failed?
              then Returned(old(ready.transmissions), ready.transmissions, items, completion.known)
              else ready.transmissions == old(ready.transmissions)
    {
      if completion.SigningFailed? {
        return false;
      }
      if completion.Failed? {
        ReinsertTransmissions(completion.known, ready, items);
        return false;
      }
      return true;
    }
  }

  // Runs

  /** The primary with its cache file. `built` records the rounds for which a batch was built. */
  datatype State = State(
    running: bool,
    lock: Round,
    proposal: Option<Proposal>,
    signed: SignedProposals,
    file: Option<Stream>,
    built: seq<Round>)

  datatype Event =
    | Propose(round: Round, checks: Checks, drained: bool, headerOk: bool)
    | Sign(address: Address, entry: Signed)
    | FastForward
    | ShutDown(order: seq<Address>, pending: seq<Certificate>)
    | Crash
    | Boot(bounds: Bounds, signer: Address)

  const START := State(false, 0, None, map[], None, [])

  function CacheOf(s: State, pending: seq<Certificate>): ProposalCache {
    ProposalCache(if s.proposal.Some? then s.proposal.value.header.round else s.lock, s.proposal, s.signed, pending)
  }

  /** Storing the cache succeeds: its lengths fit. `order` is the iteration order of the hash map. */
  ghost predicate CanSave(s: State, order: seq<Address>, pending: seq<Certificate>) {
    Writable(CacheOf(s, pending)) && IsOrderOf(order, s.signed) && forall a :: a in order ==> a in s.signed
  }

  /** What `load_proposal_cache` finds: no file, an unusable file, or a cache for this signer. */
  datatype Loaded = NoFile | Unusable | Cache(cache: ProposalCache)

  function Load(file: Option<Stream>, bounds: Bounds, signer: Address): Loaded {
    match file
    case None => NoFile
    case Some(stream) =>
      match ReadCache(bounds, stream)
      case None => Unusable
      case Some(c) => if IsValid(c, signer) then Cache(c) else Unusable
  }

  ghost function Next(s: State, event: Event): State {
    match event
    case Propose(round, checks, drained, headerOk) =>
      if s.running && round < U64_LIMIT && MayPropose(s.lock, round, checks) && drained
      then s.(lock := round, built := if headerOk then s.built + [round] else s.built)
      else s
    case Sign(address, entry) =>
      if s.running && entry.round < U64_LIMIT then s.(signed := s.signed[address := entry]) else s
    case FastForward =>
      s.(proposal := None)
    case ShutDown(order, pending) =>
      if !s.running then s
      else if CanSave(s, order, pending)
      then s.(running := false, file := Some(PutCache(CacheOf(s, pending), order)), proposal := None)
      else s.(running := false, proposal := None)
    case Crash =>
      s.(running := false)
    case Boot(bounds, signer) =>
      if s.running then s
      else
        match Load(s.file, bounds, signer)
        case NoFile => s.(running := true, lock := 0, proposal := None, signed := map[])
        case Unusable => s
        case Cache(c) => s.(running := true, lock := c.latestRound, proposal := c.proposal, signed := c.signedProposals)
  }

  ghost function After(run: seq<Event>): State {
    if run == [] then START else Next(After(run[..|run| - 1]), run[|run| - 1])
  }

  ghost predicate Increasing(rounds: seq<Round>) {
    forall i, j :: 0 <= i < j < |rounds| ==> rounds[i] < rounds[j]
  }

  ghost predicate UpTo(rounds: seq<Round>, limit: Round) {
    forall i :: 0 <= i < |rounds| ==> rounds[i] <= limit
  }

  // The exact condition on a run.

  function LoadedLock(loaded: Loaded): Round {
    match loaded
    case Cache(c) => c.latestRound
    case _ => 0
  }

  /** A boot that succeeds restores a lock at or above every round built so far. */
  ghost predicate FreshBoot(s: State, event: Event) {
    event.Boot? && !s.running ==>
      var loaded := Load(s.file, event.bounds, event.signer);
      loaded.Unusable? || UpTo(s.built, LoadedLock(loaded))
  }

  ghost predicate FreshRun(run: seq<Event>) {
    forall i :: 0 <= i < |run| ==> FreshBoot(After(run[..i]), run[i])
  }

  lemma FreshRunGrows(run: seq<Event>, event: Event)
    ensures FreshRun(run + [event]) <==> FreshRun(run) && FreshBoot(After(run), event)
  {
    hide FreshBoot;
    hide After;
    var run' := run + [event];
    assert run'[..|run|] == run && run'[|run|] == event;
    assert forall i :: 0 <= i < |run| ==> run'[..i] == run[..i] && run'[i] == run[i];
  }

  lemma AfterGrows(run: seq<Event>, event: Event)
    ensures After(run + [event]) == Next(After(run), event)
  {
    assert (run + [event])[..|run|] == run;
  }

  /** A running primary holds a lock at or above every built round. */
  ghost predicate Locked(s: State) {
    Increasing(s.built) && (s.running ==> UpTo(s.built, s.lock))
  }

  lemma NextLocked(s: State, event: Event)
    requires Locked(s) && FreshBoot(s, event)
    ensures Locked(Next(s, event))
  {
    hide CanSave;
    hide PutCache;
    hide ReadCache;
  }

  lemma {:induction false} RunLocked(run: seq<Event>)
    requires FreshRun(run)
    ensures Locked(After(run))
  {
    hide Next;
    hide FreshBoot;
    if run != [] {
      var init, event := run[..|run| - 1], run[|run| - 1];
      assert run == init + [event];
      FreshRunGrows(init, event);
      RunLocked(init);
      NextLocked(After(init), event);
    }
  }

  lemma {:induction false} BuiltRounds(run: seq<Event>)
    ensures forall i :: 0 <= i < |After(run).built| ==> 0 < After(run).built[i] < U64_LIMIT
  {
    hide CanSave;
    hide PutCache;
    hide ReadCache;
    if run != [] {
      BuiltRounds(run[..|run| - 1]);
    }
  }

  const WILLING := Checks(false, false, true, true, true)

  /** After a boot that is not fresh, the last built round can be proposed again. */
  lemma StaleBootRepeats(s: State, boot: Event)
    requires Increasing(s.built) && forall i :: 0 <= i < |s.built| ==> 0 < s.built[i] < U64_LIMIT
    requires !FreshBoot(s, boot)
    ensures s.built != []
    ensures !Increasing(Next(Next(s, boot), Propose(s.built[|s.built| - 1], WILLING, true, true)).built)
  {
    hide ReadCache;
    var last := s.built[|s.built| - 1];
    assert forall i :: 0 <= i < |s.built| ==> s.built[i] <= last;
    var built := s.built + [last];
    assert built[|s.built| - 1] == built[|s.built|];
  }

  /** No proposal at any point of the run repeats a round. */
  ghost predicate NeverRepeats(run: seq<Event>) {
    forall i: nat, e: Event :: i <= |run| && e.Propose? ==> Increasing(After(run[..i] + [e]).built)
  }

  /** Once a boot is not fresh, a round can be repeated. */
  lemma {:induction false} StaleRunRepeats(run: seq<Event>) returns (i: nat, e: Event)
    requires !FreshRun(run)
    ensures i <= |run| && e.Propose? && !Increasing(After(run[..i] + [e]).built)
  {
    hide After;
    hide Next;
    hide FreshBoot;
    hide Increasing;
    assert run != [];
    var init, event := run[..|run| - 1], run[|run| - 1];
    assert run == init + [event];
    FreshRunGrows(init, event);
    if FreshRun(init) {
      RepeatsAfter(init, event);
      e := Propose(After(init).built[|After(init).built| - 1], WILLING, true, true);
      i := |run|;
      assert run[..i] == run;
    } else {
      i, e := StaleRunRepeats(init);
      assert run[..i] == init[..i];
    }
  }

  lemma RepeatsAfter(run: seq<Event>, boot: Event)
    requires FreshRun(run) && !FreshBoot(After(run), boot)
    ensures After(run).built != []
    ensures var again := Propose(After(run).built[|After(run).built| - 1], WILLING, true, true);
            !Increasing(After(run + [boot] + [again]).built)
  {
    hide After;
    hide Next;
    hide FreshBoot;
    hide FreshRun;
    RunLocked(run);
    BuiltRounds(run);
    StaleBootRepeats(After(run), boot);
    AfterGrows(run, boot);
    AfterGrows(run + [boot], Propose(After(run).built[|After(run).built| - 1], WILLING, true, true));
  }

  /** One proposal per round, exactly: whatever sessions crash, no proposal of the run or at any point of it
      repeats a round if and only if every boot restores a lock at or above the rounds built so far. */
  lemma OneProposalPerRoundExactly(run: seq<Event>)
    ensures FreshRun(run) <==> NeverRepeats(run)
    ensures FreshRun(run) ==> Increasing(After(run).built)
  {
    hide After;
    if FreshRun(run) {
      RunLocked(run);
      forall i: nat, e: Event | i <= |run| && e.Propose?
        ensures Increasing(After(run[..i] + [e]).built)
      {
        FreshPrefix(run, i);
        FreshRunGrows(run[..i], e);
        RunLocked(run[..i] + [e]);
      }
    } else {
      var i, e := StaleRunRepeats(run);
    }
  }

  lemma FreshPrefix(run: seq<Event>, i: nat)
    requires FreshRun(run) && i <= |run|
    ensures FreshRun(run[..i])
  {
    hide FreshBoot;
    hide After;
    assert forall k :: 0 <= k < i ==> run[..i][..k] == run[..k] && run[..i][k] == run[k];
  }

  // Sessions that lose nothing.

  /** What is on disk already covers every built round. */
  ghost predicate Covered(s: State) {
    if s.file.None? then s.built == [] else FileOk(s.file.value, s.built)
  }

  /** A session may end without saving only when it has nothing to lose. */
  ghost predicate NothingLost(s: State, event: Event) {
    && (event.Crash? && s.running ==> Covered(s))
    && (event.ShutDown? && s.running ==> CanSave(s, event.order, event.pending) || Covered(s))
  }

  /** Every session ends saved, or without having anything to lose. */
  ghost predicate AlwaysKept(run: seq<Event>) {
    forall i :: 0 <= i < |run| ==> NothingLost(After(run[..i]), run[i])
  }

  ghost predicate FileHolds(file: Stream, c: ProposalCache, order: seq<Address>) {
    && Writable(c) && IsOrderOf(order, c.signedProposals) && (forall a :: a in order ==> a in c.signedProposals)
    && file == PutCache(c, order)
  }

  /** The file holds a cache without a proposal whose round is at or above every built round. */
  ghost predicate FileOk(file: Stream, built: seq<Round>) {
    exists c, order :: FileHolds(file, c, order) && c.proposal == None && UpTo(built, c.latestRound)
  }

  /** No batch is ever left proposed, and the lock, held or saved, is at or above every built round. */
  ghost predicate Inv(s: State) {
    && s.proposal == None
    && s.lock < U64_LIMIT
    && (s.running ==> UpTo(s.built, s.lock) && forall a :: a in s.signed ==> s.signed[a].round < U64_LIMIT)
    && (!s.running ==> Covered(s))
  }

  lemma ShutDownKeeps(s: State, order: seq<Address>, pending: seq<Certificate>)
    requires Inv(s) && s.running && CanSave(s, order, pending)
    ensures Inv(Next(s, ShutDown(order, pending)))
  {
    hide PutCache;
    var c := CacheOf(s, pending);
    assert FileHolds(PutCache(c, order), c, order);
  }

  /** A covered file is read back whole, or not at all. */
  lemma BootKeeps(s: State, bounds: Bounds, signer: Address)
    requires Inv(s) && !s.running
    ensures Inv(Next(s, Boot(bounds, signer))) && FreshBoot(s, Boot(bounds, signer))
  {
    hide PutCache;
    hide ReadCache;
    if s.file.Some? {
      var c, order :| FileHolds(s.file.value, c, order) && c.proposal == None && UpTo(s.built, c.latestRound);
      CacheRoundTrip(bounds, c, order);
    }
  }

  lemma NextKeeps(s: State, event: Event)
    requires Inv(s) && NothingLost(s, event)
    ensures Inv(Next(s, event)) && FreshBoot(s, event)
  {
    hide PutCache;
    hide ReadCache;
    match event
    case ShutDown(order, pending) =>
      if s.running && CanSave(s, order, pending) {
        ShutDownKeeps(s, order, pending);
      }
    case Boot(bounds, signer) =>
      if !s.running {
        BootKeeps(s, bounds, signer);
      }
    case _ =>
  }

  lemma KeptPrefix(run: seq<Event>)
    requires AlwaysKept(run) && run != []
    ensures AlwaysKept(run[..|run| - 1]) && NothingLost(After(run[..|run| - 1]), run[|run| - 1])
  {
    hide NothingLost;
    hide After;
    var init := run[..|run| - 1];
    assert forall i :: 0 <= i < |init| ==> init[..i] == run[..i] && init[i] == run[i];
  }

  lemma {:induction false} KeptIsFresh(run: seq<Event>)
    requires AlwaysKept(run)
    ensures Inv(After(run)) && FreshRun(run)
  {
    hide Next;
    hide NothingLost;
    hide FreshBoot;
    hide AlwaysKept;
    if run != [] {
      var init, event := run[..|run| - 1], run[|run| - 1];
      KeptPrefix(run);
      KeptIsFresh(init);
      NextKeeps(After(init), event);
      assert run == init + [event];
      FreshRunGrows(init, event);
    }
  }

  /** One proposal per round: in any run whose sessions all end saved, or without having anything to lose,
      the rounds for which a batch is built strictly increase, none can be repeated at any point, and no
      proposal is ever pending. */
  lemma OneProposalPerRound(run: seq<Event>)
    requires AlwaysKept(run)
    ensures Increasing(After(run).built) && NeverRepeats(run) && After(run).proposal == None
  {
    hide After;
    hide NeverRepeats;
    hide AlwaysKept;
    KeptIsFresh(run);
    OneProposalPerRoundExactly(run);
  }

  /** A saved session comes back: after a shutdown that saves, a boot succeeds exactly when the cache is within the
      reader's bounds and every signed proposal is by the signer, and then lock and signed proposals are as before. */
  lemma BootRestoresExactly(s: State, order: seq<Address>, pending: seq<Certificate>, bounds: Bounds, signer: Address)
    requires s.running && s.proposal == None && CanSave(s, order, pending)
    ensures var s' := Next(Next(s, ShutDown(order, pending)), Boot(bounds, signer));
            && (s'.running <==>
                  |pending| <= bounds.maxPending && forall a :: a in s.signed ==>
                      s.signed[a].signature.signer == signer)
            && (s'.running ==> s'.lock == s.lock && s'.signed == s.signed && s'.proposal == None)
            && s'.built == s.built
  {
    hide PutCache;
    hide ReadCache;
    CacheRoundTrip(bounds, CacheOf(s, pending), order);
  }

  /** A crash can repeat a round: without a saved file the lock is lost. */
  lemma CrashRepeatsARound()
    ensures var ok := Checks(false, false, true, true, true);
            var boot := Boot(Bounds(0, 0, 0), Address(0));
            After([boot, Propose(5, ok, true, true), Crash, boot, Propose(5, ok, true, true)]).built == [5, 5]
  {
    var ok := Checks(false, false, true, true, true);
    var boot := Boot(Bounds(0, 0, 0), Address(0));
    var run := [boot, Propose(5, ok, true, true), Crash, boot, Propose(5, ok, true, true)];
    assert run[..4] == [boot, Propose(5, ok, true, true), Crash, boot];
    assert run[..4][..3] == [boot, Propose(5, ok, true, true), Crash];
    assert run[..4][..3][..2] == [boot, Propose(5, ok, true, true)];
    assert run[..4][..3][..2][..1] == [boot];
    assert run[..4][..3][..2][..1][..0] == [];
    var s1 := Next(START, boot);
    var s2 := Next(s1, Propose(5, ok, true, true));
    var s3 := Next(s2, Crash);
    var s4 := Next(s3, boot);
    assert After([]) == START;
    assert After([boot]) == s1;
    assert After([boot, Propose(5, ok, true, true)]) == s2;
    assert After([boot, Propose(5, ok, true, true), Crash]) == s3;
    assert After([boot, Propose(5, ok, true, true), Crash, boot]) == s4;
  }
}
