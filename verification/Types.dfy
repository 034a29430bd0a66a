/** Certificates, transmissions and the small vocabulary every other module shares. */
module Types {

  type Round = nat

  const U64_MAX: nat := 0xFFFF_FFFF_FFFF_FFFF

  datatype Address = Address(key: nat)

  // A certificate ID is a hash of the batch header; it doubles as the batch ID.
  datatype Id = Id(hash: nat)

  datatype Option<+T> = None | Some(value: T)

  datatype TransmissionId =
    | Ratification
    | Solution(solution: nat, checksum: nat)
    | Transaction(transaction: nat, checksum: nat)

  datatype Transmission =
    | RatificationData
    | SolutionData(solution: nat)
    | TransactionData(transaction: nat)

  /** A batch certificate. `parents` are the previous certificate IDs, in their declared order. */
  datatype Certificate = Certificate(
    id: Id,
    round: Round,
    author: Address,
    parents: seq<Id>,
    transmissions: seq<TransmissionId>)

  /** `round.saturating_sub(1)` */
  function PreviousRound(c: Certificate): Round {
    if c.round == 0 then 0 else c.round - 1
  }

  function Max(a: nat, b: nat): nat {
    if a < b then b else a
  }

  function Min(a: nat, b: nat): nat {
    if a < b then a else b
  }

  /** `a.saturating_sub(b)` */
  function Monus(a: nat, b: nat): nat {
    if a < b then 0 else a - b
  }

  function Reversed<T>(s: seq<T>): seq<T> {
    if s == [] then [] else [s[|s| - 1]] + Reversed(s[..|s| - 1])
  }

  lemma ReversedSnoc<T>(s: seq<T>, x: T)
    ensures Reversed(s + [x]) == [x] + Reversed(s)
  {
    assert (s + [x])[..|s|] == s;
  }

  lemma {:induction false} ReversedCons<T>(s: seq<T>, x: T)
    ensures Reversed([x] + s) == Reversed(s) + [x]
    decreases |s|
  {
    if s == [] {
      assert [x] + s == [x];
    } else {
      ReversedCons(s[..|s| - 1], x);
      assert ([x] + s)[..|s|] == [x] + s[..|s| - 1];
    }
  }

  lemma {:induction false} ReversedTwice<T>(s: seq<T>)
    ensures Reversed(Reversed(s)) == s
  {
    if s != [] {
      ReversedTwice(s[..|s| - 1]);
      ReversedCons(Reversed(s[..|s| - 1]), s[|s| - 1]);
    }
  }

  ghost predicate Distinct<T>(s: seq<T>) {
    forall i, j :: 0 <= i < j < |s| ==> s[i] != s[j]
  }

  function Elements<T(==)>(s: seq<T>): set<T> {
    set x | x in s
  }

  /** Equal IDs mean equal certificates: the hash function has no collisions on these certificates. */
  ghost predicate IdsDetermine(s: set<Certificate>) {
    forall c, d :: c in s && d in s && c.id == d.id ==> c == d
  }

  /** `xs` is an in-order subsequence of `ys`. */
  ghost predicate Subsequence<T>(xs: seq<T>, ys: seq<T>)
    decreases |ys|
  {
    if xs == [] then true
    else if ys == [] then false
    else if xs[0] == ys[0] then Subsequence(xs[1..], ys[1..])
    else Subsequence(xs, ys[1..])
  }

  lemma {:induction false} SubsequenceGrows<T>(xs: seq<T>, ys: seq<T>, y: T)
    requires Subsequence(xs, ys)
    ensures Subsequence(xs, [y] + ys)
    decreases |ys|, 1
  {
    assert ([y] + ys)[1..] == ys;
    if xs != [] && xs[0] == y {
      SubsequenceTail(xs, ys);
    }
  }

  lemma {:induction false} SubsequenceTail<T>(xs: seq<T>, ys: seq<T>)
    requires Subsequence(xs, ys) && xs != []
    ensures Subsequence(xs[1..], ys)
    decreases |ys|, 0
  {
    if xs[0] == ys[0] {
      SubsequenceGrows(xs[1..], ys[1..], ys[0]);
      assert ys == [ys[0]] + ys[1..];
    } else {
      SubsequenceTail(xs, ys[1..]);
      SubsequenceGrows(xs[1..], ys[1..], ys[0]);
      assert ys == [ys[0]] + ys[1..];
    }
  }

  /** One more element at the end, taken or not. */
  lemma {:induction false} SubsequenceSnoc<T>(xs: seq<T>, ys: seq<T>, y: T, take: bool)
    requires Subsequence(xs, ys)
    ensures Subsequence(xs + if take then [y] else [], ys + [y])
    decreases |ys|
  {
    var xs', ys' := xs + (if take then [y] else []), ys + [y];
    if ys == [] {
      assert xs == [] && ys' == [y];
      assert ys'[1..] == [] && (take ==> xs'[1..] == []);
    } else {
      assert ys'[1..] == ys[1..] + [y] && ys'[0] == ys[0];
      if xs == [] {
        SubsequenceSnoc([], ys[1..], y, take);
        if take {
          assert xs' == [] + [y];
          if y == ys[0] {
            assert xs'[1..] == [];
          }
        }
      } else if xs[0] == ys[0] {
        SubsequenceSnoc(xs[1..], ys[1..], y, take);
        assert xs'[1..] == xs[1..] + if take then [y] else [];
      } else {
        SubsequenceSnoc(xs, ys[1..], y, take);
      }
    }
  }
}
