/** The proposal cache of `node/bft/src/helpers/proposal_cache.rs`, with the signed proposals and the
    proposal it contains: its byte format, written and read back as a stream. */
module ProposalCaches {
  import opened Types

  datatype Signature = Signature(signer: Address, nonce: nat)

  datatype Header = Header(author: Address, round: Round, transmissions: seq<TransmissionId>, signature: Signature)

  datatype Signed = Signed(round: Round, batch: Id, signature: Signature)

  type SignedProposals = map<Address, Signed>

  datatype Proposal = Proposal(header: Header, transmissions: seq<(TransmissionId, Transmission)>,
                               signatures: seq<Signature>)

  datatype ProposalCache = ProposalCache(
    latestRound: Round,
    proposal: Option<Proposal>,
    signedProposals: SignedProposals,
    pending: seq<Certificate>)

  /** One element of the stream: a byte, or a value whose own encoding is foreign to this program. */
  datatype Symbol =
    | Byte(value: nat)
    | AddressSymbol(address: Address)
    | IdSymbol(id: Id)
    | SignatureSymbol(signature: Signature)
    | HeaderSymbol(header: Header)
    | TransmissionIdSymbol(transmissionId: TransmissionId)
    | TransmissionSymbol(transmission: Transmission)
    | CertificateSymbol(certificate: Certificate)

  type Stream = seq<Symbol>

  /** A value read from the front of a stream, with the rest. */
  datatype Read<T> = Read(value: T, rest: Stream) | Fail

  /** The bounds that reading enforces. */
  datatype Bounds = Bounds(maxTransmissions: nat, maxSignatures: nat, maxPending: nat)

  const U32_LIMIT: nat := 0x1_0000_0000
  const U64_LIMIT: nat := 0x1_0000_0000_0000_0000

  // Writing puts symbols in front of whatever is written next.

  // Little-endian integers

  function Power256(n: nat): nat {
    if n == 0 then 1 else 256 * Power256(n - 1)
  }

  function PutLe(value: nat, bytes: nat, next: Stream): Stream {
    if bytes == 0 then next else [Byte(value % 256)] + PutLe(value / 256, bytes - 1, next)
  }

  function ReadLe(s: Stream, bytes: nat): Read<nat> {
    if bytes == 0 then Read(0, s)
    else if s == [] || !s[0].Byte? then Fail
    else
      match ReadLe(s[1..], bytes - 1)
      case Fail => Fail
      case Read(high, rest) => Read(s[0].value + 256 * high, rest)
  }

  lemma {:induction false} LeRoundTrip(value: nat, bytes: nat, next: Stream)
    requires value < Power256(bytes)
    ensures ReadLe(PutLe(value, bytes, next), bytes) == Read(value, next)
  {
    if bytes > 0 {
      LeRoundTrip(value / 256, bytes - 1, next);
      assert PutLe(value, bytes, next)[1..] == PutLe(value / 256, bytes - 1, next);
    }
  }

  function PutU32(value: nat, next: Stream): Stream {
    PutLe(value, 4, next)
  }

  function ReadU32(s: Stream): Read<nat> {
    ReadLe(s, 4)
  }

  function PutU64(value: nat, next: Stream): Stream {
    PutLe(value, 8, next)
  }

  function ReadU64(s: Stream): Read<nat> {
    ReadLe(s, 8)
  }

  lemma U32RoundTrip(value: nat, next: Stream)
    requires value < U32_LIMIT
    ensures ReadU32(PutU32(value, next)) == Read(value, next)
  {
    assert Power256(4) == 256 * (256 * (256 * (256 * Power256(0))));
    LeRoundTrip(value, 4, next);
  }

  lemma U64RoundTrip(value: nat, next: Stream)
    requires value < U64_LIMIT
    ensures ReadU64(PutU64(value, next)) == Read(value, next)
  {
    assert Power256(4) == 256 * (256 * (256 * (256 * Power256(0))));
    assert Power256(8) == 256 * (256 * (256 * (256 * Power256(4))));
    LeRoundTrip(value, 8, next);
  }

  // Signed proposals, in any iteration order of the hash map

  /** `order` lists the keys of the map, each once. */
  ghost predicate IsOrderOf<T>(order: seq<Address>, m: map<Address, T>) {
    Distinct(order) && Elements(order) == m.Keys
  }

  datatype Entry = Entry(address: Address, signed: Signed)

  function PutEntry(e: Entry, next: Stream): Stream {
    [AddressSymbol(e.address)] +
        PutU64(e.signed.round, [IdSymbol(e.signed.batch), SignatureSymbol(e.signed.signature)] + next)
  }

  function ReadEntry(s: Stream): Read<Entry> {
    if s == [] || !s[0].AddressSymbol? then Fail
    else
      match ReadU64(s[1..])
      case Fail => Fail
      case Read(round, t) =>
        if |t| < 2 || !t[0].IdSymbol? || !t[1].SignatureSymbol? then Fail
        else Read(Entry(s[0].address, Signed(round, t[0].id, t[1].signature)), t[2..])
  }

  lemma EntryRoundTrip(e: Entry, next: Stream)
    requires e.signed.round < U64_LIMIT
    ensures ReadEntry(PutEntry(e, next)) == Read(e, next)
  {
    var t := [IdSymbol(e.signed.batch), SignatureSymbol(e.signed.signature)] + next;
    hide PutU64;
    hide ReadU64;
    U64RoundTrip(e.signed.round, t);
    assert PutEntry(e, next)[1..] == PutU64(e.signed.round, t);
    assert t[2..] == next;
  }

  function PutEntries(m: SignedProposals, order: seq<Address>, next: Stream): Stream
    requires forall a :: a in order ==> a in m
  {
    if order == [] then next else PutEntry(Entry(order[0], m[order[0]]), PutEntries(m, order[1..], next))
  }

  function ReadEntries(s: Stream, count: nat, m: SignedProposals): Read<SignedProposals>
    decreases count
  {
    if count == 0 then Read(m, s)
    else
      match ReadEntry(s)
      case Fail => Fail
      case Read(e, t) => ReadEntries(t, count - 1, m[e.address := e.signed])
  }

  /** `before` with the entries of `m` that `order` lists. */
  function Updated(before: SignedProposals, m: SignedProposals, order: seq<Address>): SignedProposals
    requires forall a :: a in order ==> a in m
    decreases |order|
  {
    if order == [] then before else Updated(before[order[0] := m[order[0]]], m, order[1..])
  }

  lemma {:induction false} EntriesRoundTrip(m: SignedProposals, order: seq<Address>, next: Stream,
                                            before: SignedProposals)
    requires forall a :: a in order ==> a in m && m[a].round < U64_LIMIT
    ensures ReadEntries(PutEntries(m, order, next), |order|, before) == Read(Updated(before, m, order), next)
    decreases |order|
  {
    hide PutEntry;
    hide ReadEntry;
    if order != [] {
      var e := Entry(order[0], m[order[0]]);
      EntryRoundTrip(e, PutEntries(m, order[1..], next));
      EntriesRoundTrip(m, order[1..], next, before[e.address := e.signed]);
    }
  }

  lemma {:induction false} UpdatedIsMap(before: SignedProposals, m: SignedProposals, order: seq<Address>)
    requires forall a :: a in order ==> a in m
    ensures Updated(before, m, order).Keys == before.Keys + Elements(order)
    ensures forall a :: a in Updated(before, m, order) ==>
                          Updated(before, m, order)[a] == if a in order then m[a] else before[a]
    decreases |order|
  {
    if order != [] {
      UpdatedIsMap(before[order[0] := m[order[0]]], m, order[1..]);
      assert order == [order[0]] + order[1..];
      assert Elements(order) == {order[0]} + Elements(order[1..]);
    }
  }

  lemma SignedRoundTrip(m: SignedProposals, order: seq<Address>, next: Stream)
    requires IsOrderOf(order, m) && forall a :: a in m ==> m[a].round < U64_LIMIT
    ensures forall a :: a in order ==> a in m
    ensures ReadEntries(PutEntries(m, order, next), |order|, map[]) == Read(m, next)
  {
    assert forall a :: a in order ==> a in Elements(order);
    EntriesRoundTrip(m, order, next, map[]);
    UpdatedIsMap(map[], m, order);
    assert Updated(map[], m, order) == m;
  }

  lemma {:induction false} OrderHasSizeOfMap(order: seq<Address>)
    requires Distinct(order)
    ensures |Elements(order)| == |order|
  {
    if order != [] {
      var init, a := order[..|order| - 1], order[|order| - 1];
      OrderHasSizeOfMap(init);
      assert order == init + [a];
      assert Elements(order) == Elements(init) + {a};
    }
  }

  // Insertion-ordered sets and maps

  function InsertPair(pairs: seq<(TransmissionId, Transmission)>, id: TransmissionId, t: Transmission)
    : seq<(TransmissionId, Transmission)>
  {
    if pairs == [] then [(id, t)]
    else if pairs[0].0 == id then [(id, t)] + pairs[1..]
    else [pairs[0]] + InsertPair(pairs[1..], id, t)
  }

  function KeysIn(pairs: seq<(TransmissionId, Transmission)>): seq<TransmissionId> {
    seq(|pairs|, i requires 0 <= i < |pairs| => pairs[i].0)
  }

  lemma {:induction false} InsertNewPair(pairs: seq<(TransmissionId, Transmission)>, id: TransmissionId,
                                         t: Transmission)
    requires forall i :: 0 <= i < |pairs| ==> pairs[i].0 != id
    ensures InsertPair(pairs, id, t) == pairs + [(id, t)]
  {
    if pairs != [] {
      InsertNewPair(pairs[1..], id, t);
    }
  }

  function PutPairs(pairs: seq<(TransmissionId, Transmission)>, next: Stream): Stream {
    if pairs == [] then next
    else [TransmissionIdSymbol(pairs[0].0), TransmissionSymbol(pairs[0].1)] + PutPairs(pairs[1..], next)
  }

  function ReadPairs(s: Stream, count: nat, pairs: seq<(TransmissionId, Transmission)>)
    : Read<seq<(TransmissionId, Transmission)>>
    decreases count
  {
    if count == 0 then Read(pairs, s)
    else if |s| < 2 || !s[0].TransmissionIdSymbol? || !s[1].TransmissionSymbol? then Fail
    else ReadPairs(s[2..], count - 1, InsertPair(pairs, s[0].transmissionId, s[1].transmission))
  }

  lemma {:induction false} PairsRoundTrip(before: seq<(TransmissionId, Transmission)>,
                                          pairs: seq<(TransmissionId, Transmission)>, next: Stream)
    requires Distinct(KeysIn(before + pairs))
    ensures ReadPairs(PutPairs(pairs, next), |pairs|, before) == Read(before + pairs, next)
    decreases |pairs|
  {
    if pairs == [] {
      assert before + pairs == before;
    } else {
      var s, all, k := PutPairs(pairs, next), before + pairs, |before|;
      assert s[2..] == PutPairs(pairs[1..], next);
      assert forall i :: 0 <= i < k ==> KeysIn(all)[i] == before[i].0 && KeysIn(all)[i] != KeysIn(all)[k];
      InsertNewPair(before, pairs[0].0, pairs[0].1);
      assert before + [pairs[0]] + pairs[1..] == all;
      PairsRoundTrip(before + [pairs[0]], pairs[1..], next);
    }
  }

  function InsertNew<T(==)>(xs: seq<T>, x: T): seq<T> {
    if x in xs then xs else xs + [x]
  }

  lemma NextIsNew<T>(before: seq<T>, xs: seq<T>)
    requires Distinct(before + xs) && xs != []
    ensures xs[0] !in before && before + [xs[0]] + xs[1..] == before + xs
  {
    var all := before + xs;
    assert all[|before|] == xs[0] && forall i :: 0 <= i < |before| ==> all[i] == before[i];
  }

  function PutSignatures(xs: seq<Signature>, next: Stream): Stream {
    if xs == [] then next else [SignatureSymbol(xs[0])] + PutSignatures(xs[1..], next)
  }

  function ReadSignatures(s: Stream, count: nat, xs: seq<Signature>): Read<seq<Signature>>
    decreases count
  {
    if count == 0 then Read(xs, s)
    else if s == [] || !s[0].SignatureSymbol? then Fail
    else ReadSignatures(s[1..], count - 1, InsertNew(xs, s[0].signature))
  }

  lemma {:induction false} SignaturesRoundTrip(before: seq<Signature>, xs: seq<Signature>, next: Stream)
    requires Distinct(before + xs)
    ensures ReadSignatures(PutSignatures(xs, next), |xs|, before) == Read(before + xs, next)
    decreases |xs|
  {
    hide Distinct;
    if xs == [] {
      assert before + xs == before;
    } else {
      NextIsNew(before, xs);
      assert PutSignatures(xs, next)[1..] == PutSignatures(xs[1..], next);
      SignaturesRoundTrip(before + [xs[0]], xs[1..], next);
    }
  }

  function PutCertificates(xs: seq<Certificate>, next: Stream): Stream {
    if xs == [] then next else [CertificateSymbol(xs[0])] + PutCertificates(xs[1..], next)
  }

  function ReadCertificates(s: Stream, count: nat, xs: seq<Certificate>): Read<seq<Certificate>>
    decreases count
  {
    if count == 0 then Read(xs, s)
    else if s == [] || !s[0].CertificateSymbol? then Fail
    else ReadCertificates(s[1..], count - 1, InsertNew(xs, s[0].certificate))
  }

  lemma {:induction false} CertificatesRoundTrip(before: seq<Certificate>, xs: seq<Certificate>, next: Stream)
    requires Distinct(before + xs)
    ensures ReadCertificates(PutCertificates(xs, next), |xs|, before) == Read(before + xs, next)
    decreases |xs|
  {
    hide Distinct;
    if xs == [] {
      assert before + xs == before;
    } else {
      NextIsNew(before, xs);
      assert PutCertificates(xs, next)[1..] == PutCertificates(xs[1..], next);
      CertificatesRoundTrip(before + [xs[0]], xs[1..], next);
    }
  }

  // The proposal

  /** The header declares the transmissions, in order; transmissions and signatures are distinct. */
  ghost predicate ProposalOk(p: Proposal) {
    && p.header.transmissions == KeysIn(p.transmissions)
    && Distinct(KeysIn(p.transmissions)) && Distinct(p.signatures)
    && |p.transmissions| < U32_LIMIT && |p.signatures| < U32_LIMIT
  }

  function PutProposal(p: Proposal, next: Stream): Stream {
    [HeaderSymbol(p.header)] +
    PutU32(|p.transmissions|, PutPairs(p.transmissions, PutU32(|p.signatures|, PutSignatures(p.signatures, next))))
  }

  function ReadProposal(b: Bounds, s: Stream): Read<Proposal> {
    if s == [] || !s[0].HeaderSymbol? then Fail
    else
      match ReadU32(s[1..])
      case Fail => Fail
      case Read(count, s1) =>
        if count > b.maxTransmissions then Fail
        else
          match ReadPairs(s1, count, [])
          case Fail => Fail
          case Read(pairs, s2) => ReadProposalSignatures(b, s[0].header, pairs, s2)
  }

  function ReadProposalSignatures(b: Bounds, header: Header, pairs: seq<(TransmissionId, Transmission)>, s: Stream)
    : Read<Proposal>
  {
    match ReadU32(s)
    case Fail => Fail
    case Read(count, s1) =>
      if count > b.maxSignatures then Fail
      else
        match ReadSignatures(s1, count, [])
        case Fail => Fail
        case Read(signatures, s2) =>
          if header.transmissions != KeysIn(pairs) then Fail
          else Read(Proposal(header, pairs, signatures), s2)
  }

  predicate ProposalWithin(b: Bounds, p: Proposal) {
    |p.transmissions| <= b.maxTransmissions && |p.signatures| <= b.maxSignatures
  }

  lemma ProposalRoundTrip(b: Bounds, p: Proposal, next: Stream)
    requires ProposalOk(p)
    ensures ReadProposal(b, PutProposal(p, next)) ==
              if |p.transmissions| <= b.maxTransmissions &&
                  |p.signatures| <= b.maxSignatures then Read(p, next) else Fail
  {
    hide PutU32;
    hide ReadU32;
    hide PutPairs;
    hide ReadPairs;
    hide PutSignatures;
    hide ReadSignatures;
    var t := PutSignatures(p.signatures, next);
    var u := PutU32(|p.signatures|, t);
    var v := PutPairs(p.transmissions, u);
    assert PutProposal(p, next)[1..] == PutU32(|p.transmissions|, v);
    U32RoundTrip(|p.transmissions|, v);
    assert [] + p.transmissions == p.transmissions && [] + p.signatures == p.signatures;
    PairsRoundTrip([], p.transmissions, u);
    U32RoundTrip(|p.signatures|, t);
    SignaturesRoundTrip([], p.signatures, next);
  }

  // The cache

  ghost predicate CacheOk(c: ProposalCache) {
    && c.latestRound < U64_LIMIT
    && (c.proposal.Some? ==> ProposalOk(c.proposal.value))
    && (forall a :: a in c.signedProposals ==> c.signedProposals[a].round < U64_LIMIT)
    && Distinct(c.pending)
  }

  /** `write_le` fails when a length does not fit in 32 bits. */
  ghost predicate Writable(c: ProposalCache) {
    CacheOk(c) && |c.signedProposals| < U32_LIMIT && |c.pending| < U32_LIMIT
  }

  function PutOptionalProposal(p: Option<Proposal>, next: Stream): Stream {
    match p
    case None => [Byte(0)] + next
    case Some(proposal) => [Byte(1)] + PutProposal(proposal, next)
  }

  function PutCache(c: ProposalCache, order: seq<Address>): Stream
    requires forall a :: a in order ==> a in c.signedProposals
  {
    PutU64(c.latestRound,
      PutOptionalProposal(c.proposal,
        PutU32(|order|, PutEntries(c.signedProposals, order,
          PutU32(|c.pending|, PutCertificates(c.pending, []))))))
  }

  function ReadOptionalProposal(b: Bounds, s: Stream): Read<Option<Proposal>> {
    if s == [] then Fail
    else if s[0] == Byte(0) then Read(None, s[1..])
    else if s[0] != Byte(1) then Fail
    else
      match ReadProposal(b, s[1..])
      case Fail => Fail
      case Read(p, rest) => Read(Some(p), rest)
  }

  function ReadSignedProposals(s: Stream): Read<SignedProposals> {
    match ReadU32(s)
    case Fail => Fail
    case Read(count, s1) => ReadEntries(s1, count, map[])
  }

  function ReadPending(b: Bounds, s: Stream): Read<seq<Certificate>> {
    match ReadU32(s)
    case Fail => Fail
    case Read(count, s1) => if count > b.maxPending then Fail else ReadCertificates(s1, count, [])
  }

  function ReadCache(b: Bounds, s: Stream): Option<ProposalCache> {
    match ReadU64(s)
    case Fail => None
    case Read(latestRound, s1) =>
      match ReadOptionalProposal(b, s1)
      case Fail => None
      case Read(proposal, s2) =>
        match ReadSignedProposals(s2)
        case Fail => None
        case Read(signedProposals, s3) =>
          match ReadPending(b, s3)
          case Fail => None
          case Read(pending, _) => Some(ProposalCache(latestRound, proposal, signedProposals, pending))
  }

  predicate CacheWithin(b: Bounds, c: ProposalCache) {
    (c.proposal.Some? ==> ProposalWithin(b, c.proposal.value)) && |c.pending| <= b.maxPending
  }

  lemma OptionalProposalRoundTrip(b: Bounds, p: Option<Proposal>, next: Stream)
    requires p.Some? ==> ProposalOk(p.value)
    ensures ReadOptionalProposal(b, PutOptionalProposal(p, next)) ==
              if p.Some? ==> ProposalWithin(b, p.value) then Read(p, next) else Fail
  {
    hide PutProposal;
    hide ReadProposal;
    assert PutOptionalProposal(p, next)[1..] == if p.None? then next else PutProposal(p.value, next);
    if p.Some? {
      ProposalRoundTrip(b, p.value, next);
    }
  }

  lemma SignedProposalsRoundTrip(m: SignedProposals, order: seq<Address>, next: Stream)
    requires IsOrderOf(order, m) && |m| < U32_LIMIT && forall a :: a in m ==> m[a].round < U64_LIMIT
    ensures forall a :: a in order ==> a in m
    ensures ReadSignedProposals(PutU32(|order|, PutEntries(m, order, next))) == Read(m, next)
  {
    SignedRoundTrip(m, order, next);
    OrderHasSizeOfMap(order);
    U32RoundTrip(|order|, PutEntries(m, order, next));
  }

  lemma PendingRoundTrip(b: Bounds, xs: seq<Certificate>, next: Stream)
    requires Distinct(xs) && |xs| < U32_LIMIT
    ensures ReadPending(b, PutU32(|xs|, PutCertificates(xs, next))) ==
        if |xs| <= b.maxPending then Read(xs, next) else Fail
  {
    U32RoundTrip(|xs|, PutCertificates(xs, next));
    assert [] + xs == xs;
    CertificatesRoundTrip([], xs, next);
  }

  /** Reading a written cache gives it back, whatever order the hash map was written in, exactly when it is
      within the bounds that reading enforces. */
  lemma CacheRoundTrip(b: Bounds, c: ProposalCache, order: seq<Address>)
    requires Writable(c) && IsOrderOf(order, c.signedProposals)
    ensures forall a :: a in order ==> a in c.signedProposals
    ensures ReadCache(b, PutCache(c, order)) == if CacheWithin(b, c) then Some(c) else None
    ensures CacheWithin(b, c) <==>
              && (c.proposal.Some? ==> |c.proposal.value.transmissions| <= b.maxTransmissions)
              && (c.proposal.Some? ==> |c.proposal.value.signatures| <= b.maxSignatures)
              && |c.pending| <= b.maxPending
  {
    SignedRoundTrip(c.signedProposals, order, []);
    hide PutU64;
    hide ReadU64;
    hide PutU32;
    hide PutEntries;
    hide PutCertificates;
    hide PutOptionalProposal;
    hide ReadOptionalProposal;
    hide ReadSignedProposals;
    hide ReadPending;
    hide ProposalOk;
    hide ProposalWithin;
    hide IsOrderOf;
    hide Distinct;
    var t := PutU32(|c.pending|, PutCertificates(c.pending, []));
    var u := PutU32(|order|, PutEntries(c.signedProposals, order, t));
    var v := PutOptionalProposal(c.proposal, u);
    U64RoundTrip(c.latestRound, v);
    OptionalProposalRoundTrip(b, c.proposal, u);
    SignedProposalsRoundTrip(c.signedProposals, order, t);
    PendingRoundTrip(b, c.pending, []);
  }

  /** The loop that reads the signed proposals. */
  method ReadSignedProposalsLoop(s: Stream) returns (r: Read<SignedProposals>)
    ensures r == ReadSignedProposals(s)
  {
    var count := ReadU32(s);
    if count.Fail? {
      return Fail;
    }
    var stream := count.rest;
    var signedProposals: SignedProposals := map[];
    for i := 0 to count.value
      invariant ReadEntries(count.rest, count.value, map[]) == ReadEntries(stream, count.value - i, signedProposals)
    {
      var e := ReadEntry(stream);
      if e.Fail? {
        return Fail;
      }
      signedProposals := signedProposals[e.value.address := e.value.signed];
      stream := e.rest;
    }
    return Read(signedProposals, stream);
  }

  /** `SignedProposals::is_valid`: every signature is by the expected signer. */
  predicate SignedBy(m: SignedProposals, signer: Address) {
    forall a :: a in m ==> m[a].signature.signer == signer
  }

  /** `ProposalCache::is_valid` */
  predicate IsValid(c: ProposalCache, signer: Address) {
    && (c.proposal.Some? ==> c.proposal.value.header.author == signer && c.latestRound == c.proposal.value.header.round)
    && SignedBy(c.signedProposals, signer)
  }

  // Whatever is read, from any stream, is well-formed and within the bounds.

  lemma KeysCons(pair: (TransmissionId, Transmission), rest: seq<(TransmissionId, Transmission)>)
    ensures KeysIn([pair] + rest) == [pair.0] + KeysIn(rest)
    ensures KeysIn([]) == []
  {
  }

  lemma {:induction false} InsertPairKeys(pairs: seq<(TransmissionId, Transmission)>, id: TransmissionId,
                                          t: Transmission)
    ensures KeysIn(InsertPair(pairs, id, t)) ==
              if id in KeysIn(pairs) then KeysIn(pairs) else KeysIn(pairs) + [id]
  {
    hide KeysIn;
    if pairs == [] {
      KeysCons((id, t), []);
      assert [(id, t)] + [] == [(id, t)];
    } else {
      var first, rest := pairs[0], pairs[1..];
      assert pairs == [first] + rest;
      KeysCons(first, rest);
      if first.0 == id {
        KeysCons((id, t), rest);
      } else {
        InsertPairKeys(rest, id, t);
        KeysCons(first, InsertPair(rest, id, t));
        assert [first.0] + (KeysIn(rest) + [id]) == [first.0] + KeysIn(rest) + [id];
      }
    }
  }

  lemma {:induction false} ReadPairsDistinct(s: Stream, count: nat, pairs: seq<(TransmissionId, Transmission)>)
    requires Distinct(KeysIn(pairs))
    ensures ReadPairs(s, count, pairs).Read? ==>
              && Distinct(KeysIn(ReadPairs(s, count, pairs).value))
              && |ReadPairs(s, count, pairs).value| <= |pairs| + count
    decreases count
  {
    if count > 0 && |s| >= 2 && s[0].TransmissionIdSymbol? && s[1].TransmissionSymbol? {
      var next := InsertPair(pairs, s[0].transmissionId, s[1].transmission);
      InsertPairKeys(pairs, s[0].transmissionId, s[1].transmission);
      assert |KeysIn(next)| == |next| && |KeysIn(pairs)| == |pairs|;
      ReadPairsDistinct(s[2..], count - 1, next);
    }
  }

  lemma {:induction false} ReadSignaturesDistinct(s: Stream, count: nat, xs: seq<Signature>)
    requires Distinct(xs)
    ensures ReadSignatures(s, count, xs).Read? ==>
              && Distinct(ReadSignatures(s, count, xs).value)
              && |ReadSignatures(s, count, xs).value| <= |xs| + count
    decreases count
  {
    if count > 0 && s != [] && s[0].SignatureSymbol? {
      ReadSignaturesDistinct(s[1..], count - 1, InsertNew(xs, s[0].signature));
    }
  }

  lemma ReadProposalIsOk(b: Bounds, s: Stream)
    ensures ReadProposal(b, s).Read? ==>
              var p := ReadProposal(b, s).value;
              && p.header.transmissions == KeysIn(p.transmissions)
              && Distinct(KeysIn(p.transmissions)) && Distinct(p.signatures)
              && |p.transmissions| <= b.maxTransmissions && |p.signatures| <= b.maxSignatures
  {
    hide ReadU32;
    if s != [] && s[0].HeaderSymbol? && ReadU32(s[1..]).Read? {
      var count := ReadU32(s[1..]);
      ReadPairsDistinct(count.rest, count.value, []);
      var pairs := ReadPairs(count.rest, count.value, []);
      if pairs.Read? && ReadU32(pairs.rest).Read? {
        ReadSignaturesDistinct(ReadU32(pairs.rest).rest, ReadU32(pairs.rest).value, []);
      }
    }
  }

  /** A cache that is read holds a valid proposal, if any, and no more certificates than allowed; the flag for the
      proposal is 0 or 1. */
  lemma ReadCacheIsOk(b: Bounds, s: Stream)
    requires ReadCache(b, s).Some?
    ensures var c := ReadCache(b, s).value;
            && |c.pending| <= b.maxPending
            && (c.proposal.Some? ==>
                  var p := c.proposal.value;
                  && p.header.transmissions == KeysIn(p.transmissions)
                  && Distinct(KeysIn(p.transmissions)) && Distinct(p.signatures)
                  && |p.transmissions| <= b.maxTransmissions && |p.signatures| <= b.maxSignatures)
            && ReadU64(s).Read? && ReadU64(s).rest != []
            && ReadU64(s).rest[0] == Byte(if c.proposal.Some? then 1 else 0)
  {
    hide ReadU32;
    hide ReadU64;
    hide ReadProposal;
    hide ReadEntries;
    hide Distinct;
    var flag := ReadU64(s).rest;
    ReadProposalIsOk(b, flag[1..]);
    var proposal := ReadOptionalProposal(b, flag);
    var signed := ReadSignedProposals(proposal.rest);
    ReadPendingFits(b, signed.rest);
  }

  lemma ReadPendingFits(b: Bounds, s: Stream)
    ensures ReadPending(b, s).Read? ==> |ReadPending(b, s).value| <= b.maxPending
  {
    hide ReadU32;
    if ReadU32(s).Read? {
      ReadCertificatesFit(ReadU32(s).rest, ReadU32(s).value, []);
    }
  }

  lemma {:induction false} ReadCertificatesFit(s: Stream, count: nat, xs: seq<Certificate>)
    ensures ReadCertificates(s, count, xs).Read? ==> |ReadCertificates(s, count, xs).value| <= |xs| + count
    decreases count
  {
    if count > 0 && s != [] && s[0].CertificateSymbol? {
      ReadCertificatesFit(s[1..], count - 1, InsertNew(xs, s[0].certificate));
    }
  }

  // The layout of a written cache, on an example with one of everything and 258 = 2 + 256 as its round.

  function PendingLayout(c: Certificate): Stream {
    [Byte(1), Byte(0), Byte(0), Byte(0), CertificateSymbol(c)]
  }

  function SignedLayout(a: Address, e: Signed): Stream {
    [Byte(1), Byte(0), Byte(0), Byte(0), AddressSymbol(a)] +
    [Byte(7), Byte(0), Byte(0), Byte(0), Byte(0), Byte(0), Byte(0), Byte(0)] +
    [IdSymbol(e.batch), SignatureSymbol(e.signature)]
  }

  function ProposalLayout(h: Header, id: TransmissionId, t: Transmission, x: Signature): Stream {
    [Byte(1), HeaderSymbol(h)] +
    [Byte(1), Byte(0), Byte(0), Byte(0), TransmissionIdSymbol(id), TransmissionSymbol(t)] +
    [Byte(1), Byte(0), Byte(0), Byte(0), SignatureSymbol(x)]
  }

  lemma PendingIsLaidOut(c: Certificate)
    ensures PutU32(1, PutCertificates([c], [])) == PendingLayout(c)
  {
    hide PutU32;
    assert [c][1..] == [] && PutCertificates([], []) == [];
    assert PutCertificates([c], []) == [CertificateSymbol(c)];
    OneInFront(PutCertificates([c], []));
  }

  lemma SignedIsLaidOut(a: Address, e: Signed, next: Stream)
    requires e.round == 7
    ensures PutU32(1, PutEntries(map[a := e], [a], next)) == SignedLayout(a, e) + next
  {
    hide PutU32;
    hide PutU64;
    assert [a][1..] == [] && PutEntries(map[a := e], [], next) == next;
    assert PutEntries(map[a := e], [a], next) == PutEntry(Entry(a, e), next);
    RoundsInFront([IdSymbol(e.batch), SignatureSymbol(e.signature)] + next);
    OneInFront(PutEntry(Entry(a, e), next));
  }

  lemma ProposalIsLaidOut(h: Header, id: TransmissionId, t: Transmission, x: Signature, next: Stream)
    ensures PutOptionalProposal(Some(Proposal(h, [(id, t)], [x])), next) == ProposalLayout(h, id, t, x) + next
  {
    hide PutU32;
    var one := [Byte(1), Byte(0), Byte(0), Byte(0)];
    SignatureIsLaidOut(x, next);
    var s := one + [SignatureSymbol(x)] + next;
    PairIsLaidOut(id, t, s);
    var pair := one + [TransmissionIdSymbol(id), TransmissionSymbol(t)];
    assert ProposalLayout(h, id, t, x) == [Byte(1), HeaderSymbol(h)] + pair + (one + [SignatureSymbol(x)]);
    assert [Byte(1), HeaderSymbol(h)] + pair + (one + [SignatureSymbol(x)]) + next ==
           [Byte(1)] + ([HeaderSymbol(h)] + (pair + s));
  }

  lemma SignatureIsLaidOut(x: Signature, next: Stream)
    ensures PutU32(1, PutSignatures([x], next)) == [Byte(1), Byte(0), Byte(0), Byte(0)] + [SignatureSymbol(x)] + next
  {
    hide PutU32;
    assert [x][1..] == [] && PutSignatures([], next) == next;
    OneInFront(PutSignatures([x], next));
  }

  lemma PairIsLaidOut(id: TransmissionId, t: Transmission, next: Stream)
    ensures PutU32(1, PutPairs([(id, t)], next)) ==
              [Byte(1), Byte(0), Byte(0), Byte(0)] + [TransmissionIdSymbol(id), TransmissionSymbol(t)] + next
  {
    hide PutU32;
    assert [(id, t)][1..] == [] && PutPairs([], next) == next;
    OneInFront(PutPairs([(id, t)], next));
  }

  lemma CacheLayout(h: Header, id: TransmissionId, t: Transmission, x: Signature, a: Address, e: Signed, c: Certificate)
    requires e.round == 7
    ensures PutCache(ProposalCache(258, Some(Proposal(h, [(id, t)], [x])), map[a := e], [c]), [a]) ==
              [Byte(2), Byte(1), Byte(0), Byte(0), Byte(0), Byte(0), Byte(0), Byte(0)] +
              (ProposalLayout(h, id, t, x) + (SignedLayout(a, e) + PendingLayout(c)))
  {
    hide PutU32;
    hide PutU64;
    hide PutOptionalProposal;
    hide PutEntries;
    hide PutCertificates;
    hide ProposalLayout;
    hide SignedLayout;
    hide PendingLayout;
    PendingIsLaidOut(c);
    SignedIsLaidOut(a, e, PendingLayout(c));
    ProposalIsLaidOut(h, id, t, x, SignedLayout(a, e) + PendingLayout(c));
    RoundsInFront(ProposalLayout(h, id, t, x) + (SignedLayout(a, e) + PendingLayout(c)));
  }

  lemma OneInFront(next: Stream)
    ensures PutU32(1, next) == [Byte(1), Byte(0), Byte(0), Byte(0)] + next
  {
    assert PutLe(0, 1, next) == [Byte(0)] + next;
    assert PutLe(0, 2, next) == [Byte(0), Byte(0)] + next;
    assert PutLe(0, 3, next) == [Byte(0), Byte(0), Byte(0)] + next;
  }

  lemma RoundsInFront(next: Stream)
    ensures PutU64(7, next) == [Byte(7), Byte(0), Byte(0), Byte(0), Byte(0), Byte(0), Byte(0), Byte(0)] + next
    ensures PutU64(258, next) == [Byte(2), Byte(1), Byte(0), Byte(0), Byte(0), Byte(0), Byte(0), Byte(0)] + next
  {
    assert PutLe(0, 1, next) == [Byte(0)] + next;
    assert PutLe(0, 2, next) == [Byte(0), Byte(0)] + next;
    assert PutLe(0, 3, next) == [Byte(0), Byte(0), Byte(0)] + next;
    assert PutLe(0, 4, next) == [Byte(0), Byte(0), Byte(0), Byte(0)] + next;
    assert PutLe(0, 5, next) == [Byte(0), Byte(0), Byte(0), Byte(0), Byte(0)] + next;
    assert PutLe(0, 6, next) == [Byte(0), Byte(0), Byte(0), Byte(0), Byte(0), Byte(0)] + next;
    assert PutLe(1, 7, next) == [Byte(1), Byte(0), Byte(0), Byte(0), Byte(0), Byte(0), Byte(0)] + next;
    assert PutLe(0, 7, next) == [Byte(0), Byte(0), Byte(0), Byte(0), Byte(0), Byte(0), Byte(0)] + next;
  }
}
