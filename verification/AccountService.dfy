/**
  The account service's key operations on one account as the loops they are. The chain is reached
  through transactions that may fail, or take effect and be reported as failed.
 */
module AccountService {
  import opened Prelude
  import opened KeyLedger

  /** Stable insertion by index, which is what sorting the loaded keys amounts to. */
  function Insert(k: Storable, sorted: seq<Storable>): seq<Storable> {
    if sorted == [] then [k]
    else if k.index < sorted[|sorted| - 1].index then Insert(k, sorted[..|sorted| - 1]) + [sorted[|sorted| - 1]]
    else sorted + [k]
  }

  function SortByIndex(keys: seq<Storable>): seq<Storable> {
    if keys == [] then [] else Insert(keys[|keys| - 1], SortByIndex(keys[..|keys| - 1]))
  }

  lemma {:induction false} InsertLast(k: Storable, sorted: seq<Storable>)
    ensures Insert(k, sorted) != []
    ensures var last := Insert(k, sorted)[|Insert(k, sorted)| - 1].index;
            last == if sorted != [] && k.index < sorted[|sorted| - 1].index then sorted[|sorted| - 1].index else k.index
  {
  }

  /** The last of the sorted keys has the highest index. */
  lemma {:induction false} SortedLastIsMax(keys: seq<Storable>)
    requires keys != []
    ensures SortByIndex(keys) != [] && SortByIndex(keys)[|SortByIndex(keys)| - 1].index == MaxIndex(keys)
  {
    var front := keys[..|keys| - 1];
    if front != [] {
      SortedLastIsMax(front);
    }
    InsertLast(keys[|keys| - 1], SortByIndex(front));
  }

  predicate Sorted(keys: seq<Storable>) {
    forall i, j :: 0 <= i < j < |keys| ==> keys[i].index <= keys[j].index
  }

  lemma SortedAppend(sorted: seq<Storable>, k: Storable)
    requires Sorted(sorted) && forall l :: l in sorted ==> l.index <= k.index
    ensures Sorted(sorted + [k])
  {
    forall i, j | 0 <= i < j < |sorted + [k]|
      ensures (sorted + [k])[i].index <= (sorted + [k])[j].index
    {
      assert sorted[i] in sorted;
    }
  }

  lemma {:induction false} InsertKeeps(k: Storable, sorted: seq<Storable>)
    ensures |Insert(k, sorted)| == |sorted| + 1
    ensures forall l :: l in Insert(k, sorted) <==> l in sorted || l == k
  {
    if sorted != [] && k.index < sorted[|sorted| - 1].index {
      InsertKeeps(k, sorted[..|sorted| - 1]);
      assert sorted == sorted[..|sorted| - 1] + [sorted[|sorted| - 1]];
    }
  }

  lemma {:induction false} InsertSorts(k: Storable, sorted: seq<Storable>)
    requires Sorted(sorted)
    ensures Sorted(Insert(k, sorted))
  {
    if sorted != [] && k.index < sorted[|sorted| - 1].index {
      var front, last := sorted[..|sorted| - 1], sorted[|sorted| - 1];
      InsertSorts(k, front);
      InsertKeeps(k, front);
      SortedAppend(Insert(k, front), last);
    } else {
      SortedAppend(sorted, k);
    }
  }

  /** Sorting keeps the keys and puts them in the order of their indices. */
  lemma {:induction false} SortSorts(keys: seq<Storable>)
    ensures Sorted(SortByIndex(keys)) && |SortByIndex(keys)| == |keys|
    ensures forall k :: k in SortByIndex(keys) <==> k in keys
  {
    if keys != [] {
      var front, last := keys[..|keys| - 1], keys[|keys| - 1];
      SortSorts(front);
      InsertSorts(last, SortByIndex(front));
      InsertKeeps(last, SortByIndex(front));
      assert keys == front + [last];
    }
  }

  class Service {
    /** The account's keys on chain. */
    var chain: seq<ChainKey>
    /** The account's rows of `storable_keys`. */
    var stored: seq<Storable>

    function View(): Account
      reads this
    {
      Account(chain, stored)
    }

    /** Creates the account with `n` copies of one generated key. */
    constructor CreateAccount(n: nat, publicKey: string)
      ensures View() == Created(n, publicKey)
    {
      var publicKeys: seq<ChainKey> := [];
      for i := 0 to n
        invariant publicKeys == Copies(i, ChainKey(publicKey, false))
      {
        publicKeys := publicKeys + [ChainKey(publicKey, false)];
      }
      var storableKeys: seq<Storable> := [];
      for i := 0 to |publicKeys|
        invariant storableKeys == Clones(0, i, publicKey)
      {
        storableKeys := storableKeys + [Storable(i, publicKey)];
      }
      chain, stored := publicKeys, storableKeys;
    }

    /** The index after the last one on chain; without any key there is no last one. */
    method GetNextIndex() returns (index: Option<nat>)
      ensures index == if chain == [] then None else Some(|chain|)
    {
      if chain == [] {
        return None;
      }
      index := Some(|chain| - 1 + 1);
    }

    /** A missing first key, stored or on chain, is an index out of range. */
    method AddKey(publicKey: string, fault: Fault) returns (r: Result)
      modifies this
      ensures View() == KeyLedger.AddKey(old(View()), publicKey, fault)
      ensures r == if old(stored) == [] || old(chain) == [] then Crashed
                   else if fault == NoFault then Done(|stored|) else Failed
    {
      if stored == [] {
        return Crashed;
      }
      var nextIndex := GetNextIndex();
      if nextIndex.None? {
        return Crashed;
      }
      if fault == NoTransaction {
        return Failed;
      }
      chain := chain + [ChainKey(publicKey, false)];
      if fault == LostTransaction || fault == LostUpdate {
        return Failed;
      }
      stored := stored + [Storable(nextIndex.value, publicKey)];
      r := Done(|stored|);
    }

    method RevokeKey(index: nat, fault: Fault) returns (r: Result)
      modifies this
      ensures View() == KeyLedger.RevokeKey(old(View()), index, fault)
      ensures r.Refused? <==> !CanRevoke(old(View()), index)
      ensures r.Failed? <==> CanRevoke(old(View()), index) && fault != NoFault
      ensures !r.Crashed? && (r.Done? ==> r == Done(|old(stored)|))
      ensures |old(stored)| == 1 ==> r.Refused? && stored == old(stored) && chain == old(chain)
      ensures r.Done? ==>
        && (index < |chain| ==> chain[index].revoked) && |chain| == |old(chain)|
        && (forall i :: 0 <= i < |chain| && i != index ==> chain[i] == old(chain)[i])
    {
      if |stored| == 1 {
        return Refused;
      }
      var indexFound := false;
      for i := 0 to |stored|
        invariant indexFound <==> exists j :: 0 <= j < i && stored[j].index == index
      {
        if stored[i].index == index {
          indexFound := true;
        }
      }
      if !indexFound {
        return Refused;
      }
      if fault == NoTransaction {
        return Failed;
      }
      chain := Revoked(chain, index);
      if fault == LostTransaction || fault == LostUpdate {
        return Failed;
      }
      r := Done(|stored|); // the loaded account still lists the key
      stored := DeleteIndex(stored, index);
    }

    /**
      Looks a key's index up in the chain's list, unchecked: the configured one for the admin account, and
      for any other that of the stored key selected for it.
     */
    method MakeAuthorizer(adminKeyIndex: Option<nat>, selected: Storable) returns (key: Option<ChainKey>)
      requires adminKeyIndex == None ==> Ledger(View()) && selected in stored
      ensures adminKeyIndex == None ==> key == Some(ChainKey(selected.publicKey, false))
      ensures adminKeyIndex.Some? ==>
        key == if adminKeyIndex.value < |chain| then Some(chain[adminKeyIndex.value]) else None
    {
      if adminKeyIndex == None {
        AuthorizerKeyIsLive(View(), selected);
      }
      var index := if adminKeyIndex.Some? then adminKeyIndex.value else selected.index;
      if index >= |chain| {
        return None;
      }
      key := Some(chain[index]);
    }

    /** A transaction reported as failed has no record, and reading its id crashes the job. */
    method SyncKeyCount(numKeys: int, fault: Fault) returns (r: Result)
      modifies this
      ensures View() == KeyLedger.SyncKeyCount(old(View()), numKeys, fault)
      ensures numKeys < 1 ==> r == Refused
      ensures numKeys >= 1 && old(stored) == [] ==> r == Crashed
      ensures numKeys >= 1 && old(stored) != [] ==>
        var n, live := Missing(old(View()), numKeys), LiveClones(old(chain), old(stored)[0].publicKey);
        r == if n > 0 then (match fault case NoFault => Done(|stored|) case LostUpdate => Failed case _ => Crashed)
             else if live > numKeys then Done(0) else Done(numKeys)
    {
      if numKeys < 1 {
        return Refused;
      }
      if stored == [] {
        return Crashed;
      }
      var sourceKey := stored[0];
      var validKeys := 0;
      for i := 0 to |chain|
        invariant validKeys == LiveClones(chain[..i], sourceKey.publicKey)
      {
        assert chain[..i + 1][..i] == chain[..i];
        if !chain[i].revoked && chain[i].publicKey == sourceKey.publicKey {
          validKeys := validKeys + 1;
        }
      }
      assert chain[..|chain|] == chain;
      if validKeys < numKeys {
        var cloneCount := numKeys - validKeys;
        var keys := SortByIndex(stored);
        SortedLastIsMax(stored);
        var pbks: seq<ChainKey> := [];
        var clones: seq<Storable> := [];
        for i := 0 to cloneCount
          invariant pbks == Copies(i, ChainKey(sourceKey.publicKey, false))
          invariant clones == Clones(MaxIndex(stored) + 1, i, sourceKey.publicKey)
          invariant keys != [] && keys[|keys| - 1].index == MaxIndex(stored) + i
        {
          pbks := pbks + [ChainKey(sourceKey.publicKey, false)];
          var cloned := Storable(keys[|keys| - 1].index + 1, sourceKey.publicKey);
          keys := keys + [cloned];
          clones := clones + [cloned];
        }
        if fault == NoTransaction {
          return Crashed;
        }
        chain := chain + pbks;
        if fault == LostTransaction {
          return Crashed;
        }
        if fault == LostUpdate {
          return Failed;
        }
        stored := stored + clones; // the sorted rows keep their place in the table
        r := Done(|stored|);
      } else if validKeys > numKeys {
        r := Done(0);
      } else {
        r := Done(numKeys);
      }
    }
  }
}
