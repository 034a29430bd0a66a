/** The ready queue of `node/bft/src/helpers/ready.rs`: a deque with a hash index of positions shifted
    by a signed offset, behaving as a plain sequence with unique IDs. */
module ReadyQueues {
  import opened Types

  datatype Item = Item(id: TransmissionId, transmission: Transmission)

  ghost predicate UniqueIds(s: seq<Item>) {
    forall i, j :: 0 <= i < j < |s| ==> s[i].id != s[j].id
  }

  ghost predicate Has(s: seq<Item>, id: TransmissionId) {
    exists i :: 0 <= i < |s| && s[i].id == id
  }

  /** The items that are not solutions, in order. */
  function WithoutSolutions(s: seq<Item>): seq<Item> {
    if s == [] then []
    else if s[0].transmission.SolutionData? then WithoutSolutions(s[1..])
    else [s[0]] + WithoutSolutions(s[1..])
  }

  /** Clearing keeps exactly the other items, still with unique IDs. */
  lemma {:induction false} WithoutSolutionsKeeps(s: seq<Item>)
    ensures forall x :: x in WithoutSolutions(s) <==> x in s && !x.transmission.SolutionData?
    ensures UniqueIds(s) ==> UniqueIds(WithoutSolutions(s))
    ensures Subsequence(WithoutSolutions(s), s)
  {
    if s != [] {
      WithoutSolutionsKeeps(s[1..]);
      SubsequenceGrows(WithoutSolutions(s[1..]), s[1..], s[0]);
      assert ([s[0]] + WithoutSolutions(s[1..]))[1..] == WithoutSolutions(s[1..]);
      assert s == [s[0]] + s[1..];
      if UniqueIds(s) {
        assert UniqueIds(s[1..]);
        forall x | x in WithoutSolutions(s[1..])
          ensures x.id != s[0].id
        {
          assert x in s[1..];
        }
      }
    }
  }

  /** The index holds exactly the positions of the queue, shifted by the offset. */
  ghost predicate Indexed(index: map<TransmissionId, int>, s: seq<Item>, offset: int) {
    && (forall i {:trigger PositionOk(index, s, offset, i)} :: 0 <= i < |s| ==> PositionOk(index, s, offset, i))
    && (forall id {:trigger IdOk(index, s, offset, id)} :: id in index ==> IdOk(index, s, offset, id))
  }

  ghost predicate PositionOk(index: map<TransmissionId, int>, s: seq<Item>, offset: int, i: int)
    requires 0 <= i < |s|
  {
    s[i].id in index && index[s[i].id] == i + offset
  }

  ghost predicate IdOk(index: map<TransmissionId, int>, s: seq<Item>, offset: int, id: TransmissionId)
    requires id in index
  {
    0 <= index[id] - offset < |s| && s[index[id] - offset].id == id
  }

  lemma NothingIndexed()
    ensures Indexed(map[], [], 0)
  {
  }

  /** An index leaves no room for a repeated ID. */
  lemma IndexedIsUnique(index: map<TransmissionId, int>, s: seq<Item>, offset: int)
    requires Indexed(index, s, offset)
    ensures UniqueIds(s)
    ensures forall id :: id in index <==> Has(s, id)
  {
    forall i, j | 0 <= i < j < |s|
      ensures s[i].id != s[j].id
    {
      assert PositionOk(index, s, offset, i) && PositionOk(index, s, offset, j);
    }
    forall id
      ensures id in index <==> Has(s, id)
    {
      if id in index {
        assert IdOk(index, s, offset, id);
      }
      if Has(s, id) {
        var i :| 0 <= i < |s| && s[i].id == id;
        assert PositionOk(index, s, offset, i);
      }
    }
  }

  lemma PushBackIndexed(index: map<TransmissionId, int>, s: seq<Item>, offset: int, item: Item)
    requires Indexed(index, s, offset) && item.id !in index
    ensures Indexed(index[item.id := |s| + offset], s + [item], offset)
  {
    var index', s' := index[item.id := |s| + offset], s + [item];
    forall i | 0 <= i < |s'|
      ensures PositionOk(index', s', offset, i)
    {
      if i < |s| {
        assert PositionOk(index, s, offset, i);
      }
    }
    forall id | id in index'
      ensures IdOk(index', s', offset, id)
    {
      if id != item.id {
        assert IdOk(index, s, offset, id);
      }
    }
  }

  lemma PushFrontIndexed(index: map<TransmissionId, int>, s: seq<Item>, offset: int, item: Item)
    requires Indexed(index, s, offset) && item.id !in index
    ensures Indexed(index[item.id := offset - 1], [item] + s, offset - 1)
  {
    var offset' := offset - 1;
    var index', s' := index[item.id := offset'], [item] + s;
    forall i | 0 <= i < |s'|
      ensures PositionOk(index', s', offset', i)
    {
      if i > 0 {
        assert PositionOk(index, s, offset, i - 1);
      }
    }
    forall id | id in index'
      ensures IdOk(index', s', offset', id)
    {
      if id != item.id {
        assert IdOk(index, s, offset, id);
      }
    }
  }

  lemma PopFrontIndexed(index: map<TransmissionId, int>, s: seq<Item>, offset: int)
    requires Indexed(index, s, offset) && s != []
    ensures Indexed(index - {s[0].id}, s[1..], offset + 1)
    ensures index - {s[0].id} == map[] <==> s[1..] == []
  {
    var index', s', offset' := index - {s[0].id}, s[1..], offset + 1;
    assert PositionOk(index, s, offset, 0);
    forall i | 0 <= i < |s'|
      ensures PositionOk(index', s', offset', i)
    {
      assert PositionOk(index, s, offset, i + 1);
    }
    forall id | id in index'
      ensures IdOk(index', s', offset', id)
    {
      assert IdOk(index, s, offset, id);
    }
    if s' != [] {
      assert PositionOk(index', s', offset', 0);
    }
    if index' != map[] {
      var id :| id in index';
      assert IdOk(index', s', offset', id);
    }
  }

  lemma RebuildIndexed(index: map<TransmissionId, int>, s: seq<Item>, i: nat)
    requires UniqueIds(s) && i < |s| && Indexed(index, s[..i], 0)
    ensures Indexed(index[s[i].id := i], s[..i + 1], 0)
  {
    IndexedIsUnique(index, s[..i], 0);
    PushBackIndexed(index, s[..i], 0, s[i]);
    assert s[..i] + [s[i]] == s[..i + 1];
  }

  class Ready {
    var transmissionIds: map<TransmissionId, int>
    var transmissions: seq<Item>
    var offset: int

    ghost predicate Valid()
      reads this
    {
      Indexed(transmissionIds, transmissions, offset)
    }

    constructor ()
      ensures Valid() && transmissions == []
    {
      transmissionIds, transmissions, offset := map[], [], 0;
    }

    method Contains(id: TransmissionId) returns (found: bool)
      requires Valid()
      ensures found <==> Has(transmissions, id)
    {
      IndexedIsUnique(transmissionIds, transmissions, offset);
      found := id in transmissionIds;
    }

    /** Returns the transmission queued under the ID, if any. */
    method Get(id: TransmissionId) returns (found: Option<Transmission>)
      requires Valid()
      ensures found.Some? <==> Has(transmissions, id)
      ensures found.Some? ==> Item(id, found.value) in transmissions
    {
      IndexedIsUnique(transmissionIds, transmissions, offset);
      if id !in transmissionIds {
        return None;
      }
      assert IdOk(transmissionIds, transmissions, offset, id);
      var physical := transmissionIds[id] - offset;
      assert transmissions[physical] in transmissions;
      return Some(transmissions[physical].transmission);
    }

    method Insert(id: TransmissionId, transmission: Transmission) returns (added: bool)
      requires Valid()
      modifies this
      ensures Valid() && added == !Has(old(transmissions), id)
      ensures transmissions == if added then old(transmissions) + [Item(id, transmission)] else old(transmissions)
    {
      IndexedIsUnique(transmissionIds, transmissions, offset);
      if id in transmissionIds {
        return false;
      }
      PushBackIndexed(transmissionIds, transmissions, offset, Item(id, transmission));
      transmissionIds := transmissionIds[id := |transmissions| + offset];
      transmissions := transmissions + [Item(id, transmission)];
      return true;
    }

    method InsertFront(id: TransmissionId, transmission: Transmission) returns (added: bool)
      requires Valid()
      modifies this
      ensures Valid() && added == !Has(old(transmissions), id)
      ensures transmissions == if added then [Item(id, transmission)] + old(transmissions) else old(transmissions)
    {
      IndexedIsUnique(transmissionIds, transmissions, offset);
      if id in transmissionIds {
        return false;
      }
      PushFrontIndexed(transmissionIds, transmissions, offset, Item(id, transmission));
      offset := offset - 1;
      transmissionIds := transmissionIds[id := offset];
      transmissions := [Item(id, transmission)] + transmissions;
      return true;
    }

    method RemoveFront() returns (item: Option<Item>)
      requires Valid()
      modifies this
      ensures Valid() && (item.None? <==> old(transmissions) == [])
      ensures item.None? ==> transmissions == []
      ensures item.Some? ==> old(transmissions) == [item.value] + transmissions && !Has(transmissions, item.value.id)
    {
      if transmissions == [] {
        return None;
      }
      IndexedIsUnique(transmissionIds, transmissions, offset);
      PopFrontIndexed(transmissionIds, transmissions, offset);
      var first := transmissions[0];
      transmissions := transmissions[1..];
      transmissionIds := transmissionIds - {first.id};
      if transmissionIds == map[] {
        offset := 0;
      } else {
        offset := offset + 1;
      }
      return Some(first);
    }

    /** Removes the solutions, rebuilding the index. */
    method ClearSolutions()
      requires Valid()
      modifies this
      ensures Valid() && transmissions == WithoutSolutions(old(transmissions))
      ensures Subsequence(transmissions, old(transmissions))
      ensures forall x :: x in transmissions <==> x in old(transmissions) && !x.transmission.SolutionData?
    {
      hide Indexed;
      hide UniqueIds;
      hide WithoutSolutions;
      IndexedIsUnique(transmissionIds, transmissions, offset);
      WithoutSolutionsKeeps(transmissions);
      transmissions := WithoutSolutions(transmissions);
      transmissionIds, offset := map[], 0;
      NothingIndexed();
      assert transmissions[..0] == [];
      for i := 0 to |transmissions|
        invariant offset == 0 && transmissions == WithoutSolutions(old(transmissions))
        invariant Indexed(transmissionIds, transmissions[..i], 0)
      {
        RebuildIndexed(transmissionIds, transmissions, i);
        transmissionIds := transmissionIds[transmissions[i].id := i];
      }
      assert transmissions[..|transmissions|] == transmissions;
    }
  }
}
