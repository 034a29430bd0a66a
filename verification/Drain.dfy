/** The drain loop of `propose_batch_lite` in `node/bft/src/primary.rs`: it moves transmissions from the
    front of the ready queue into a batch, under a size limit and a spend limit. */
module Drains {
  import opened Types
  import opened ReadyQueues

  datatype Limits = Limits(maxTransmissions: nat, maxPerWorker: nat, spendLimit: nat)

  /** What the ledger makes of a transmission: it fails a check, it cannot be deserialized, it is a valid
      solution, or it is a valid transaction with this cost in microcredits. */
  datatype Verdict = Invalid | Undecodable | ValidSolution | ValidTransaction(cost: nat)

  /** The surroundings: transmissions that the ledger reports as present (or fails to look up), those in
      storage, and the verdict on each of the others. */
  datatype Surroundings = Surroundings(inLedger: set<TransmissionId>, inStorage: set<TransmissionId>,
                                       verdict: Item -> Verdict)

  datatype Stop = Exhausted | Full | SpendLimit | Failed

  datatype Drained = Drained(batch: seq<Item>, left: seq<Item>, cost: nat, stop: Stop)

  predicate BatchIsFull(l: Limits, batch: seq<Item>) {
    |batch| >= l.maxTransmissions || |batch| >= l.maxPerWorker
  }

  /** Skipped without looking at its contents; the first transmission of a batch may already be stored. */
  predicate IsKnown(w: Surroundings, batch: seq<Item>, item: Item) {
    item.id in w.inLedger || (batch != [] && item.id in w.inStorage)
  }

  function CostOf(w: Surroundings, item: Item): nat {
    match w.verdict(item)
    case ValidTransaction(cost) => cost
    case _ => 0
  }

  /** The loop, as a function of the queue and of what is in the batch so far. */
  function Drain(l: Limits, w: Surroundings, queue: seq<Item>, batch: seq<Item>, cost: nat): Drained
    decreases |queue|
  {
    if queue == [] then Drained(batch, [], cost, Exhausted)
    else if BatchIsFull(l, batch) then Drained(batch, queue[1..], cost, Full)
    else if IsKnown(w, batch, queue[0]) then Drain(l, w, queue[1..], batch, cost)
    else
      match w.verdict(queue[0])
      case Invalid => Drain(l, w, queue[1..], batch, cost)
      case Undecodable => Drained(batch, queue[1..], cost, Failed)
      case ValidSolution => Drain(l, w, queue[1..], batch + [queue[0]], cost)
      case ValidTransaction(c) =>
        if cost + c > U64_MAX then Drain(l, w, queue[1..], batch, cost)
        else if cost + c > l.spendLimit then Drained(batch, queue, cost, SpendLimit)
        else Drain(l, w, queue[1..], batch + [queue[0]], cost + c)
  }

  ghost function TotalCost(w: Surroundings, batch: seq<Item>): nat {
    if batch == [] then 0 else TotalCost(w, batch[..|batch| - 1]) + CostOf(w, batch[|batch| - 1])
  }

  /** A reason to leave a transmission out of any batch. */
  ghost predicate Rejected(l: Limits, w: Surroundings, item: Item) {
    || item.id in w.inLedger
    || item.id in w.inStorage
    || w.verdict(item).Invalid?
    || w.verdict(item).Undecodable?
    || (w.verdict(item).ValidTransaction? && w.verdict(item).cost + l.spendLimit > U64_MAX)
  }

  /** What a batch under construction satisfies. */
  ghost predicate BatchOk(l: Limits, w: Surroundings, batch: seq<Item>, cost: nat) {
    && |batch| <= l.maxTransmissions && |batch| <= l.maxPerWorker
    && cost == TotalCost(w, batch) && cost <= l.spendLimit
    && (forall i :: 0 <= i < |batch| ==> batch[i].id !in w.inLedger)
    && (forall i :: 0 < i < |batch| ==> batch[i].id !in w.inStorage)
    && (forall i :: 0 <= i < |batch| ==> w.verdict(batch[i]).ValidSolution? || w.verdict(batch[i]).ValidTransaction?)
  }

  lemma GrowBatch(l: Limits, w: Surroundings, batch: seq<Item>, cost: nat, item: Item)
    requires BatchOk(l, w, batch, cost) && !BatchIsFull(l, batch) && !IsKnown(w, batch, item)
    requires w.verdict(item).ValidSolution? || w.verdict(item).ValidTransaction?
    requires cost + CostOf(w, item) <= l.spendLimit
    ensures BatchOk(l, w, batch + [item], cost + CostOf(w, item))
  {
    assert (batch + [item])[..|batch|] == batch;
  }

  /** How the result of draining relates to the queue: `k` transmissions are removed, `added` of them in
      order go into the batch, and every other one has a reason to be left out or is the one popped
      when the batch was already full. */
  ghost predicate DrainOk(l: Limits, w: Surroundings, queue: seq<Item>, batch: seq<Item>, d: Drained, k: nat,
                          added: seq<Item>)
  {
    && k <= |queue| && d.left == queue[k..]
    && d.batch == batch + added && Subsequence(added, queue[..k])
    && BatchOk(l, w, d.batch, d.cost)
    && (forall i :: 0 <= i < k ==> queue[i] in added || Rejected(l, w, queue[i]) || (d.stop.Full? && i == k - 1))
    && (d.stop.Exhausted? ==> d.left == [])
    && (d.stop.Full? ==> k > 0 && BatchIsFull(l, d.batch))
    && (d.stop.SpendLimit? ==> d.left != [] && DoesNotFit(l, w, d.cost, d.left[0]))
    && (d.stop.Failed? ==> k > 0 && w.verdict(queue[k - 1]).Undecodable?)
  }

  /** A valid transaction that would push the batch over the spend limit. */
  ghost predicate DoesNotFit(l: Limits, w: Surroundings, cost: nat, item: Item) {
    && item.id !in w.inLedger
    && w.verdict(item).ValidTransaction?
    && l.spendLimit < cost + w.verdict(item).cost <= U64_MAX
  }

  /** One more transmission removed from the front. */
  lemma DrainOneMore(l: Limits, w: Surroundings, queue: seq<Item>, batch: seq<Item>, d: Drained, k: nat,
                     added: seq<Item>, take: bool)
    requires queue != []
    requires DrainOk(l, w, queue[1..], if take then batch + [queue[0]] else batch, d, k, added)
    requires take || Rejected(l, w, queue[0])
    ensures DrainOk(l, w, queue, batch, d, k + 1, if take then [queue[0]] + added else added)
  {
    var added' := if take then [queue[0]] + added else added;
    assert queue[..k + 1] == [queue[0]] + queue[1..][..k];
    assert queue[k + 1..] == queue[1..][k..];
    assert d.batch == batch + added';
    assert Subsequence(added', queue[..k + 1]) by {
      assert queue[..k + 1][1..] == queue[1..][..k];
      if take {
        assert added'[1..] == added;
      } else {
        SubsequenceGrows(added, queue[1..][..k], queue[0]);
      }
    }
    forall i | 0 <= i < k + 1
      ensures queue[i] in added' || Rejected(l, w, queue[i]) || (d.stop.Full? && i == k)
    {
      if i > 0 {
        assert queue[i] == queue[1..][i - 1];
      }
    }
  }

  /** The drain leaves a suffix of the queue and a batch within every limit. */
  lemma {:induction false} DrainLimits(l: Limits, w: Surroundings, queue: seq<Item>, batch: seq<Item>, cost: nat)
    returns (k: nat, added: seq<Item>)
    requires BatchOk(l, w, batch, cost)
    ensures DrainOk(l, w, queue, batch, Drain(l, w, queue, batch, cost), k, added)
    decreases |queue|
  {
    var d := Drain(l, w, queue, batch, cost);
    k, added := 0, [];
    if queue == [] {
      assert batch + [] == batch;
    } else {
      var item, rest := queue[0], queue[1..];
      var v := w.verdict(item);
      if BatchIsFull(l, batch) || (!IsKnown(w, batch, item) && v.Undecodable?) {
        k := 1;
        assert batch + [] == batch;
      } else if !IsKnown(w, batch, item) && v.ValidTransaction? && cost + v.cost <= U64_MAX &&
          cost + v.cost > l.spendLimit {
        assert batch + [] == batch && queue[0..] == queue;
      } else if IsKnown(w, batch, item) || v.Invalid? || (v.ValidTransaction? && cost + v.cost > U64_MAX) {
        k, added := DrainLimits(l, w, rest, batch, cost);
        DrainOneMore(l, w, queue, batch, d, k, added, false);
        k := k + 1;
      } else {
        GrowBatch(l, w, batch, cost, item);
        k, added := DrainLimits(l, w, rest, batch + [item], cost + CostOf(w, item));
        DrainOneMore(l, w, queue, batch, d, k, added, true);
        k, added := k + 1, [item] + added;
      }
    }
  }

  // The drain in full: which transmissions are taken, and where it stops.

  /** The transmissions of a queue that are marked as taken, in order. */
  function Pick(queue: seq<Item>, taken: seq<bool>): seq<Item>
    requires |taken| == |queue|
  {
    if queue == [] then [] else (if taken[0] then [queue[0]] else []) + Pick(queue[1..], taken[1..])
  }

  /** The batch when transmission `i` of the queue is looked at. */
  function BatchAt(queue: seq<Item>, batch: seq<Item>, taken: seq<bool>, i: nat): seq<Item>
    requires i <= |taken| <= |queue|
  {
    batch + Pick(queue[..i], taken[..i])
  }

  ghost predicate NoRoom(l: Limits, batch: seq<Item>) {
    |batch| >= l.maxTransmissions || |batch| >= l.maxPerWorker
  }

  /** Neither in the ledger nor, unless it would be the first of the batch, in storage. */
  ghost predicate Considered(w: Surroundings, batch: seq<Item>, item: Item) {
    item.id !in w.inLedger && (batch == [] || item.id !in w.inStorage)
  }

  /** A valid transaction whose cost, without overflowing, is over what is left to spend. */
  ghost predicate Overspends(l: Limits, w: Surroundings, batch: seq<Item>, item: Item) {
    && Considered(w, batch, item) && w.verdict(item).ValidTransaction?
    && l.spendLimit < TotalCost(w, batch) + w.verdict(item).cost <= U64_MAX
  }

  ghost predicate IsTaken(l: Limits, w: Surroundings, batch: seq<Item>, item: Item) {
    && !NoRoom(l, batch) && Considered(w, batch, item)
    && (|| w.verdict(item).ValidSolution?
        || (&& w.verdict(item).ValidTransaction?
            && TotalCost(w, batch) + w.verdict(item).cost <= U64_MAX
            && TotalCost(w, batch) + w.verdict(item).cost <= l.spendLimit))
  }

  /** Looking at the transmission ends the drain: there is no room for it, it cannot be decoded, or it overspends. */
  ghost predicate Ends(l: Limits, w: Surroundings, batch: seq<Item>, item: Item, stop: Stop) {
    match stop
    case Exhausted => false
    case Full => NoRoom(l, batch)
    case Failed => !NoRoom(l, batch) && Considered(w, batch, item) && w.verdict(item).Undecodable?
    case SpendLimit => !NoRoom(l, batch) && Overspends(l, w, batch, item)
  }

  /** Every transmission is looked at in order with the batch as it then is; it is taken exactly when it fits; and
      the drain ends at the first one that ends it, which is left in the queue only if it overspends. */
  ghost predicate DrainedExactly(l: Limits, w: Surroundings, queue: seq<Item>, batch: seq<Item>, d: Drained,
                                 taken: seq<bool>)
  {
    var k := |taken|;
    && k <= |queue| && d.left == queue[k..]
    && d.batch == BatchAt(queue, batch, taken, k) && d.cost == TotalCost(w, d.batch)
    && (forall i :: 0 <= i < k ==> (taken[i] <==> IsTaken(l, w, BatchAt(queue, batch, taken, i), queue[i])))
    && (forall i, stop :: 0 <= i < k && Ends(l, w, BatchAt(queue, batch, taken, i), queue[i], stop) ==>
                            i == k - 1 && d.stop == stop)
    && match d.stop
       case Exhausted => k == |queue|
       case SpendLimit => k < |queue| && Ends(l, w, d.batch, queue[k], SpendLimit)
       case _ => k > 0 && Ends(l, w, BatchAt(queue, batch, taken, k - 1), queue[k - 1], d.stop)
  }

  lemma BatchAtShifts(queue: seq<Item>, batch: seq<Item>, taken: seq<bool>, i: nat)
    requires queue != [] && 0 < |taken| <= |queue| && 0 < i <= |taken|
    ensures var batch' := batch + if taken[0] then [queue[0]] else [];
            BatchAt(queue, batch, taken, i) == BatchAt(queue[1..], batch', taken[1..], i - 1)
  {
    assert queue[..i][1..] == queue[1..][..i - 1] && taken[..i][1..] == taken[1..][..i - 1];
    assert queue[..i][0] == queue[0] && taken[..i][0] == taken[0];
    var head := if taken[0] then [queue[0]] else [];
    var rest := Pick(queue[1..][..i - 1], taken[1..][..i - 1]);
    assert batch + (head + rest) == batch + head + rest;
  }

  lemma BatchAtStart(queue: seq<Item>, batch: seq<Item>, taken: seq<bool>)
    requires |taken| <= |queue|
    ensures BatchAt(queue, batch, taken, 0) == batch
  {
    assert queue[..0] == [] && taken[..0] == [] && batch + [] == batch;
  }

  /** One more transmission looked at first. */
  lemma DrainedOneMore(l: Limits, w: Surroundings, queue: seq<Item>, batch: seq<Item>, d: Drained, taken: seq<bool>)
    requires queue != [] && 0 < |taken| <= |queue|
    requires var batch' := batch + if taken[0] then [queue[0]] else [];
             DrainedExactly(l, w, queue[1..], batch', d, taken[1..])
    requires taken[0] <==> IsTaken(l, w, batch, queue[0])
    requires forall stop :: !Ends(l, w, batch, queue[0], stop)
    ensures DrainedExactly(l, w, queue, batch, d, taken)
  {
    hide IsTaken;
    hide Ends;
    hide TotalCost;
    hide BatchAt;
    var rest, batch', later := queue[1..], batch + (if taken[0] then [queue[0]] else []), taken[1..];
    var k := |taken|;
    BatchAtStart(queue, batch, taken);
    forall i: nat | 0 < i <= k
      ensures BatchAt(queue, batch, taken, i) == BatchAt(rest, batch', later, i - 1)
      ensures i < k ==> queue[i] == rest[i - 1] && taken[i] == later[i - 1]
    {
      BatchAtShifts(queue, batch, taken, i);
    }
    assert queue[k..] == rest[k - 1..];
    forall i | 0 <= i < k
      ensures taken[i] <==> IsTaken(l, w, BatchAt(queue, batch, taken, i), queue[i])
    {
      if i > 0 {
        assert later[i - 1] <==> IsTaken(l, w, BatchAt(rest, batch', later, i - 1), rest[i - 1]);
      }
    }
    forall i, stop | 0 <= i < k && Ends(l, w, BatchAt(queue, batch, taken, i), queue[i], stop)
      ensures i == k - 1 && d.stop == stop
    {
      if i > 0 {
        assert Ends(l, w, BatchAt(rest, batch', later, i - 1), rest[i - 1], stop);
      }
    }
    if d.stop.Full? || d.stop.Failed? {
      assert k > 1;
    }
  }

  lemma DrainedNone(l: Limits, w: Surroundings, queue: seq<Item>, batch: seq<Item>, cost: nat, stop: Stop)
    requires cost == TotalCost(w, batch)
    requires || (stop.Exhausted? && queue == [])
             || (stop.SpendLimit? && queue != [] && Ends(l, w, batch, queue[0], stop))
    ensures DrainedExactly(l, w, queue, batch, Drained(batch, queue, cost, stop), [])
  {
    BatchAtStart(queue, batch, []);
    assert queue[0..] == queue;
  }

  lemma DrainedLast(l: Limits, w: Surroundings, queue: seq<Item>, batch: seq<Item>, cost: nat, stop: Stop)
    requires cost == TotalCost(w, batch) && queue != []
    requires (stop.Full? || stop.Failed?) && Ends(l, w, batch, queue[0], stop)
    ensures DrainedExactly(l, w, queue, batch, Drained(batch, queue[1..], cost, stop), [false])
  {
    BatchAtStart(queue, batch, [false]);
    BatchAtShifts(queue, batch, [false], 1);
    BatchAtStart(queue[1..], batch + [], [false][1..]);
    assert batch + [] == batch;
  }

  /** The transmission at the head neither ends the drain nor changes anything but the batch it is taken into. */
  lemma DrainGoesOn(l: Limits, w: Surroundings, queue: seq<Item>, batch: seq<Item>, cost: nat)
    requires queue != [] && cost == TotalCost(w, batch)
    requires forall stop :: !Ends(l, w, batch, queue[0], stop)
    ensures var take := IsTaken(l, w, batch, queue[0]);
            var batch' := batch + if take then [queue[0]] else [];
            var cost' := if take then cost + CostOf(w, queue[0]) else cost;
            && cost' == TotalCost(w, batch')
            && Drain(l, w, queue, batch, cost) == Drain(l, w, queue[1..], batch', cost')
  {
    var item := queue[0];
    assert !Ends(l, w, batch, item, Full) && !Ends(l, w, batch, item, Failed) && !Ends(l, w, batch, item, SpendLimit);
    assert batch + [] == batch && (batch + [item])[..|batch|] == batch;
  }

  /** Where it ends the drain. */
  lemma DrainStops(l: Limits, w: Surroundings, queue: seq<Item>, batch: seq<Item>, cost: nat, stop: Stop)
    requires queue != [] && cost == TotalCost(w, batch) && Ends(l, w, batch, queue[0], stop)
    ensures Drain(l, w, queue, batch, cost) ==
              Drained(batch, if stop.SpendLimit? then queue else queue[1..], cost, stop)
  {
  }

  /** The drain of any queue, exactly. */
  lemma {:induction false} DrainExact(l: Limits, w: Surroundings, queue: seq<Item>, batch: seq<Item>, cost: nat)
    returns (taken: seq<bool>)
    requires cost == TotalCost(w, batch)
    ensures |taken| <= |queue| && DrainedExactly(l, w, queue, batch, Drain(l, w, queue, batch, cost), taken)
    decreases |queue|
  {
    hide DrainedExactly;
    hide Ends;
    hide IsTaken;
    hide TotalCost;
    taken := [];
    if queue == [] {
      DrainedNone(l, w, queue, batch, cost, Exhausted);
    } else if stop :| Ends(l, w, batch, queue[0], stop) {
      DrainStops(l, w, queue, batch, cost, stop);
      ExhaustedEndsNothing(l, w, batch, queue[0]);
      if stop.SpendLimit? {
        DrainedNone(l, w, queue, batch, cost, stop);
      } else {
        taken := [false];
        DrainedLast(l, w, queue, batch, cost, stop);
      }
    } else {
      var take := IsTaken(l, w, batch, queue[0]);
      DrainGoesOn(l, w, queue, batch, cost);
      taken := DrainExact(l, w, queue[1..], batch + if take then [queue[0]] else [],
        if take then cost + CostOf(w, queue[0]) else cost);
      var all := [take] + taken;
      assert all[1..] == taken;
      DrainedOneMore(l, w, queue, batch, Drain(l, w, queue, batch, cost), all);
      taken := all;
    }
  }

  lemma ExhaustedEndsNothing(l: Limits, w: Surroundings, batch: seq<Item>, item: Item)
    ensures !Ends(l, w, batch, item, Exhausted)
  {
  }

  lemma TotalOfNothing(w: Surroundings)
    ensures TotalCost(w, []) == 0
  {
  }

  /** The loop of the source over the worker's queue. */
  method DrainWorker(l: Limits, w: Surroundings, ready: Ready) returns (batch: seq<Item>, cost: nat, ok: bool)
    requires ready.Valid()
    modifies ready
    ensures ready.Valid()
    ensures var d := Drain(l, w, old(ready.transmissions), [], 0);
            batch == d.batch && cost == d.cost && ready.transmissions == d.left && ok == !d.stop.Failed?
    ensures exists stop: Stop, taken :: ok == !stop.Failed? &&
              DrainedExactly(l, w, old(ready.transmissions), [], Drained(batch, ready.transmissions, cost, stop), taken)
  {
    hide DrainedExactly;
    hide TotalCost;
    TotalOfNothing(w);
    ghost var taken := DrainExact(l, w, ready.transmissions, [], 0);
    ghost var stop := Drain(l, w, ready.transmissions, [], 0).stop;
    batch, cost := [], 0;
    var item := ready.RemoveFront();
    while item.Some?
      invariant ready.Valid()
      invariant item.None? ==> ready.transmissions == []
      invariant item.Some? ==> !Has(ready.transmissions, item.value.id)
      invariant Drain(l, w, old(ready.transmissions), [], 0) ==
                  Drain(l, w, (if item.Some? then [item.value] else []) + ready.transmissions, batch, cost)
      decreases if item.Some? then |ready.transmissions| + 1 else 0
    {
      var next := item.value;
      assert ([next] + ready.transmissions)[1..] == ready.transmissions;
      if |batch| >= l.maxTransmissions {
        return batch, cost, true;
      }
      if |batch| >= l.maxPerWorker {
        return batch, cost, true;
      }
      if next.id !in w.inLedger && (batch == [] || next.id !in w.inStorage) {
        match w.verdict(next) {
          case Invalid =>
          case Undecodable =>
            return batch, cost, false;
          case ValidSolution =>
            batch := batch + [next];
          case ValidTransaction(c) =>
            if cost + c <= U64_MAX {
              if cost + c > l.spendLimit {
                var _ := ready.InsertFront(next.id, next.transmission);
                return batch, cost, true;
              }
              cost := cost + c;
              batch := batch + [next];
            }
        }
      }
      item := ready.RemoveFront();
    }
    return batch, cost, true;
  }

  // Returning a batch to the queue

  /** The items that are not known to storage or ledger, in order. */
  function Unknown(known: set<TransmissionId>, batch: seq<Item>): seq<Item> {
    if batch == [] then []
    else Unknown(known, batch[..|batch| - 1]) + if batch[|batch| - 1].id in known then [] else [batch[|batch| - 1]]
  }

  /** `reinsert_transmissions_into_workers` into a queue that has none of the items. */
  method ReinsertTransmissions(known: set<TransmissionId>, ready: Ready, batch: seq<Item>)
    requires ready.Valid() && UniqueIds(ready.transmissions + batch)
    modifies ready
    ensures ready.Valid() && ready.transmissions == old(ready.transmissions) + Unknown(known, batch)
    ensures Returned(old(ready.transmissions), ready.transmissions, batch, known)
  {
    ghost var queue := ready.transmissions;
    UnknownIsReturned(known, queue, batch);
    for i := 0 to |batch|
      invariant ready.Valid() && ready.transmissions == queue + Unknown(known, batch[..i])
    {
      assert batch[..i + 1][..i] == batch[..i];
      NotQueued(known, queue, batch, i);
      var queued := ready.Contains(batch[i].id);
      if !queued && batch[i].id !in known {
        var _ := ready.Insert(batch[i].id, batch[i].transmission);
      }
    }
    assert batch[..|batch|] == batch;
  }

  /** What was appended to the queue: the items of the batch that are not known, in order, and nothing else. */
  ghost predicate Returned(before: seq<Item>, after: seq<Item>, batch: seq<Item>, known: set<TransmissionId>) {
    && before <= after
    && Subsequence(after[|before|..], batch)
    && forall x :: x in after[|before|..] <==> x in batch && x.id !in known
  }

  lemma UnknownIsReturned(known: set<TransmissionId>, queue: seq<Item>, batch: seq<Item>)
    ensures Returned(queue, queue + Unknown(known, batch), batch, known)
  {
    UnknownContains(known, batch);
    assert (queue + Unknown(known, batch))[|queue|..] == Unknown(known, batch);
  }

  lemma {:induction false} UnknownContains(known: set<TransmissionId>, batch: seq<Item>)
    ensures forall x :: x in Unknown(known, batch) <==> x in batch && x.id !in known
    ensures Subsequence(Unknown(known, batch), batch)
  {
    if batch != [] {
      var init, x := batch[..|batch| - 1], batch[|batch| - 1];
      UnknownContains(known, init);
      assert batch == init + [x];
      SubsequenceSnoc(Unknown(known, init), init, x, x.id !in known);
      assert Unknown(known, init) + [] == Unknown(known, init);
    }
  }

  lemma NotQueued(known: set<TransmissionId>, queue: seq<Item>, batch: seq<Item>, i: nat)
    requires UniqueIds(queue + batch) && i < |batch|
    ensures !Has(queue + Unknown(known, batch[..i]), batch[i].id)
  {
    UnknownContains(known, batch[..i]);
    var all := queue + batch;
    assert all[|queue| + i] == batch[i];
    forall x | x in queue + Unknown(known, batch[..i])
      ensures x.id != batch[i].id
    {
      if x in queue {
        var k :| 0 <= k < |queue| && queue[k] == x;
        assert all[k] == x;
      } else {
        var k :| 0 <= k < i && batch[k] == x;
        assert all[|queue| + k] == x;
      }
    }
  }

  /** A drained batch can be returned: none of it is left in the queue. */
  lemma ReinsertedBatch(l: Limits, w: Surroundings, queue: seq<Item>)
    requires UniqueIds(queue)
    ensures var d := Drain(l, w, queue, [], 0);
            UniqueIds(d.left + d.batch)
  {
    hide Drain;
    hide Rejected;
    hide DoesNotFit;
    hide BatchIsFull;
    hide Subsequence;
    hide UniqueIds;
    var d := Drain(l, w, queue, [], 0);
    var k, added := DrainLimits(l, w, queue, [], 0);
    assert d.batch == added;
    assert queue == queue[..k] + d.left;
    SubsequenceUnique(added, queue[..k], d.left);
  }

  /** An in-order part of the front of a queue has its own IDs. */
  lemma {:induction false} SubsequenceUnique(xs: seq<Item>, ys: seq<Item>, rest: seq<Item>)
    requires Subsequence(xs, ys) && UniqueIds(ys + rest)
    ensures UniqueIds(rest + xs) && forall x :: x in xs ==> x in ys
    decreases |ys|
  {
    if xs == [] {
      assert rest + xs == rest;
      assert forall i :: 0 <= i < |rest| ==> rest[i] == (ys + rest)[|ys| + i];
    } else {
      var all := ys + rest;
      assert all[1..] == ys[1..] + rest && all[0] == ys[0];
      if xs[0] == ys[0] {
        SubsequenceUnique(xs[1..], ys[1..], rest);
        assert xs == [xs[0]] + xs[1..] && ys == [ys[0]] + ys[1..];
        InsertFirst(rest, xs, ys);
      } else {
        SubsequenceUnique(xs, ys[1..], rest);
      }
    }
  }

  lemma InsertFirst(rest: seq<Item>, xs: seq<Item>, ys: seq<Item>)
    requires xs != [] && ys != [] && xs[0] == ys[0] && UniqueIds(ys + rest)
    requires UniqueIds(rest + xs[1..]) && forall x :: x in xs[1..] ==> x in ys[1..]
    ensures UniqueIds(rest + xs)
  {
    var all := ys + rest;
    forall x | x in rest || x in xs[1..]
      ensures x.id != xs[0].id
    {
      if x in rest {
        var k :| 0 <= k < |rest| && rest[k] == x;
        assert all[|ys| + k] == x;
      } else {
        var k :| 0 <= k < |ys[1..]| && ys[1..][k] == x;
        assert all[k + 1] == x;
      }
      assert all[0] == xs[0];
    }
    var out, short := rest + xs, rest + xs[1..];
    forall i, j | 0 <= i < j < |out|
      ensures out[i].id != out[j].id
    {
      if i == |rest| {
        assert out[j] in xs[1..];
      } else if j == |rest| {
        assert out[i] in rest;
      } else {
        assert out[i] == short[if i < |rest| then i else i - 1] && out[j] == short[if j < |rest| then j else j - 1];
      }
    }
  }
}
