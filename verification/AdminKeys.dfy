/**
  The admin account's proposal keys: a table of on-chain indices that start-up checks against the
  chain and rebuilds when it finds too few keys.
 */
module AdminKeys {
  import opened KeyLedger

  const TWO_TO_THE_16: nat := 0x1_0000

  /** The indices of the keys on chain that are not revoked, in order. */
  function LiveIndices(chain: seq<ChainKey>): seq<nat> {
    if chain == [] then []
    else
      LiveIndices(chain[..|chain| - 1]) + if chain[|chain| - 1].revoked then [] else [|chain| - 1]
  }

  /** The enough-keys test of both the check and the protocol that follows it. */
  predicate Enough(chain: seq<ChainKey>, table: seq<nat>, wanted: nat) {
    |LiveIndices(chain)| >= wanted && |table| >= wanted
  }

  lemma {:induction false} LiveIndicesAreLive(chain: seq<ChainKey>, i: nat)
    ensures i in LiveIndices(chain) <==> i < |chain| && !chain[i].revoked
  {
    if chain == [] {
    } else {
      LiveIndicesAreLive(chain[..|chain| - 1], i);
    }
  }

  /** No index is listed twice, so that inserting them meets no unique key error. */
  lemma {:induction false} LiveIndicesIncrease(chain: seq<ChainKey>, j: nat, k: nat)
    requires j < k < |LiveIndices(chain)|
    ensures LiveIndices(chain)[j] < LiveIndices(chain)[k]
  {
    var front := chain[..|chain| - 1];
    if k < |LiveIndices(front)| {
      LiveIndicesIncrease(front, j, k);
    } else {
      var i := LiveIndices(front)[j];
      assert i in LiveIndices(front);
      LiveIndicesAreLive(front, i);
    }
  }

  lemma {:induction false} LiveIndicesAppend(chain: seq<ChainKey>, n: nat, publicKey: string)
    ensures |LiveIndices(chain + Copies(n, ChainKey(publicKey, false)))| == |LiveIndices(chain)| + n
  {
    var more := Copies(n, ChainKey(publicKey, false));
    if n == 0 {
      assert chain + more == chain;
    } else {
      LiveIndicesAppend(chain, n - 1, publicKey);
      assert (chain + more)[..|chain| + n - 1] == chain + Copies(n - 1, ChainKey(publicKey, false));
    }
  }

  /** The keys added by a rebuild, whose count is a 16-bit integer. */
  function KeysToAdd(live: nat, wanted: nat): nat {
    var count := live % TWO_TO_THE_16;
    if count < wanted then wanted - count else 0
  }

  /** A rebuild adds just the missing keys exactly when the 16-bit count has not wrapped to less than what is wanted. */
  lemma AddsJustTheMissing(live: nat, wanted: nat)
    requires wanted < TWO_TO_THE_16
    ensures live + KeysToAdd(live, wanted) >= wanted
    ensures live + KeysToAdd(live, wanted) == (if live < wanted then wanted else live)
      <==> live < TWO_TO_THE_16 || live % TWO_TO_THE_16 >= wanted
  {
    if live < TWO_TO_THE_16 {
      assert live % TWO_TO_THE_16 == live;
    }
  }

  /** A table rebuilt from the chain only names live keys, so a proposal key taken from it exists and is not revoked. */
  lemma RebuiltTableIsLive(chain: seq<ChainKey>, position: nat)
    requires position < |LiveIndices(chain)|
    ensures LiveIndices(chain)[position] < |chain| && !chain[LiveIndices(chain)[position]].revoked
  {
    assert LiveIndices(chain)[position] in LiveIndices(chain);
    LiveIndicesAreLive(chain, LiveIndices(chain)[position]);
  }

  /** Counting 65536 live keys as none, a rebuild that wants one key adds another. */
  lemma CountWraps(publicKey: string)
    ensures var chain := Copies(TWO_TO_THE_16, ChainKey(publicKey, false));
            |LiveIndices(chain)| == TWO_TO_THE_16 && KeysToAdd(|LiveIndices(chain)|, 1) == 1
  {
    var chain := Copies(TWO_TO_THE_16, ChainKey(publicKey, false));
    LiveIndicesAppend([], TWO_TO_THE_16, publicKey);
    assert [] + chain == chain;
  }

  // When the keys in use are live

  /** What may happen to the chain's list: keys are appended, and keys are revoked. */
  predicate Grown(before: seq<ChainKey>, after: seq<ChainKey>) {
    && |before| <= |after|
    && forall i :: 0 <= i < |before| ==>
         after[i].publicKey == before[i].publicKey && (before[i].revoked ==> after[i].revoked)
  }

  /** Growth composes, so a table stays one built from an earlier list, whoever changes the account meanwhile. */
  lemma GrownTogether(built: seq<ChainKey>, chain: seq<ChainKey>, later: seq<ChainKey>)
    requires Grown(built, chain) && Grown(chain, later)
    ensures Grown(built, later)
  {
  }

  /** None of the first `n` keys was revoked in between. */
  predicate NoneRevoked(before: seq<ChainKey>, after: seq<ChainKey>, n: nat) {
    forall i :: 0 <= i < n && i < |before| && i < |after| ==> after[i].revoked == before[i].revoked
  }

  /** The first `n` rows of the table index live keys. */
  predicate RowsLive(chain: seq<ChainKey>, table: seq<nat>, n: nat) {
    forall i :: 0 <= i < n && i < |table| ==> table[i] < |chain| && !chain[table[i]].revoked
  }

  /** One row of a table built from `built`: it is in range for good, and its key is live until it is revoked. */
  lemma RowOfBuilt(built: seq<ChainKey>, chain: seq<ChainKey>, table: seq<nat>, i: nat)
    requires Grown(built, chain) && table <= LiveIndices(built) && i < |table|
    ensures table[i] < |built| && !built[table[i]].revoked && table[i] < |chain|
  {
    assert LiveIndices(built)[i] == table[i];
    RebuiltTableIsLive(built, i);
  }

  /** Every live key up to the last of the first `n` rows is among them. */
  lemma LiveIsAmongFirst(built: seq<ChainKey>, n: nat, k: nat)
    requires 0 < n <= |LiveIndices(built)| && k < |built| && !built[k].revoked && k <= LiveIndices(built)[n - 1]
    ensures exists i :: 0 <= i < n && LiveIndices(built)[i] == k
  {
    LiveIndicesAreLive(built, k);
    var i :| 0 <= i < |LiveIndices(built)| && LiveIndices(built)[i] == k;
    if n <= i {
      LiveIndicesIncrease(built, n - 1, i);
    }
  }

  /**
    The first `n` rows of a table built, wholly or in part, from an earlier chain are live if and only if
    no key up to the last of them was revoked since. Passing the check has no part in it.
   */
  lemma RowsLiveExactly(built: seq<ChainKey>, chain: seq<ChainKey>, table: seq<nat>, n: nat)
    requires Grown(built, chain) && table <= LiveIndices(built) && n <= |table|
    ensures RowsLive(chain, table, n) <==> NoneRevoked(built, chain, if n == 0 then 0 else table[n - 1] + 1)
  {
    forall i | 0 <= i < n
      ensures table[i] < |built| && table[i] < |chain| && !built[table[i]].revoked && table[i] <= table[n - 1]
    {
      RowOfBuilt(built, chain, table, i);
      if i < n - 1 {
        LiveIndicesIncrease(built, i, n - 1);
      }
    }
    if n > 0 && RowsLive(chain, table, n) {
      forall k | 0 <= k <= table[n - 1] && k < |built| && k < |chain|
        ensures chain[k].revoked == built[k].revoked
      {
        if !built[k].revoked {
          LiveIsAmongFirst(built, n, k);
          var i :| 0 <= i < n && LiveIndices(built)[i] == k;
          assert table[i] == k;
        }
      }
    }
  }

  /**
    The check passes on a table with a dead row in use whenever enough other keys are live: it only
    compares counts.
   */
  lemma CheckAcceptsStaleTable(built: seq<ChainKey>, dead: nat, wanted: nat)
    requires wanted < |LiveIndices(built)| && dead < |built| && !built[dead].revoked
    ensures var chain, table := built[dead := built[dead].(revoked := true)], LiveIndices(built);
            && Grown(built, chain) && Enough(chain, table, wanted)
            && (RowsLive(chain, table, wanted) <==> wanted == 0 || table[wanted - 1] < dead)
  {
    var chain, table := built[dead := built[dead].(revoked := true)], LiveIndices(built);
    LiveAfterRevoking(built, dead);
    RowsLiveExactly(built, chain, table, wanted);
    if wanted > 0 {
      RowOfBuilt(built, chain, table, wanted - 1);
      assert chain[dead].revoked != built[dead].revoked;
    }
  }

  lemma {:induction false} LiveAfterRevoking(chain: seq<ChainKey>, dead: nat)
    requires dead < |chain| && !chain[dead].revoked
    ensures |LiveIndices(chain[dead := chain[dead].(revoked := true)])| == |LiveIndices(chain)| - 1
  {
    var front, revoked := chain[..|chain| - 1], chain[dead].(revoked := true);
    if dead == |chain| - 1 {
      assert chain[dead := revoked][..|chain| - 1] == front;
    } else {
      LiveAfterRevoking(front, dead);
      assert chain[dead := revoked][..|chain| - 1] == front[dead := revoked];
    }
  }

  datatype Check = Passed | Mismatch | Unreachable

  class AdminAccount {
    const wanted: nat
    const adminKeyIndex: nat
    /** Which of the successive calls to the chain and the database fail. */
    const fails: nat -> bool
    var calls: nat
    /** Whether the database has the admin account's own row. */
    var hasAccount: bool
    var chain: seq<ChainKey>
    var table: seq<nat>
    /** The chain's list when the table was last cleared. */
    ghost var built: seq<ChainKey>

    /** The table was built, wholly or in part, from a list the chain's one has grown from. */
    ghost predicate Valid()
      reads this
    {
      table <= LiveIndices(built) && Grown(built, chain)
    }

    /** A first start, with an empty database. */
    constructor (wanted: nat, adminKeyIndex: nat, fails: nat -> bool, chain: seq<ChainKey>)
      ensures Valid() && !hasAccount && this.chain == chain && table == [] && calls == 0
      ensures this.wanted == wanted && this.adminKeyIndex == adminKeyIndex && this.fails == fails
    {
      this.wanted, this.adminKeyIndex, this.fails := wanted, adminKeyIndex, fails;
      this.chain, this.table, this.calls, this.hasAccount := chain, [], 0, false;
      this.built := chain;
    }

    /** What others do with the admin account between the wallet's own steps. */
    method ChangeElsewhere(later: seq<ChainKey>)
      requires Valid() && Grown(chain, later)
      modifies this`chain
      ensures Valid() && chain == later
    {
      GrownTogether(built, chain, later);
      chain := later;
    }

    /** None of the calls from this one on fails. */
    ghost predicate NoFailureFrom(first: nat) {
      forall i :: first <= i ==> !fails(i)
    }

    method External() returns (ok: bool)
      modifies this`calls
      ensures calls == old(calls) + 1 && ok == !fails(old(calls))
    {
      ok := !fails(calls);
      calls := calls + 1;
    }

    method CheckAdminProposalKeyCount() returns (r: Check)
      modifies this`calls
      ensures !fails(old(calls)) && !fails(old(calls) + 1) ==>
        r == if Enough(chain, table, wanted) then Passed else Mismatch
      ensures r == Passed ==> Enough(chain, table, wanted)
      ensures r == Mismatch ==> !Enough(chain, table, wanted)
      ensures calls >= old(calls)
    {
      var ok := External();
      if !ok {
        return Unreachable;
      }
      var onChainCount := 0;
      for i := 0 to |chain|
        invariant onChainCount == |LiveIndices(chain[..i])|
      {
        assert chain[..i + 1][..i] == chain[..i];
        if !chain[i].revoked {
          onChainCount := onChainCount + 1;
        }
      }
      assert chain[..|chain|] == chain;
      if onChainCount < wanted {
        return Mismatch;
      }
      ok := External();
      if !ok {
        return Unreachable;
      }
      r := if |table| < wanted then Mismatch else Passed;
    }

    /** The insertions of a rebuild; an error leaves those made before it. */
    method InsertLive() returns (ok: bool, count: nat)
      requires table == []
      modifies this`calls, this`table
      ensures table <= LiveIndices(chain) && count == |table| % TWO_TO_THE_16
      ensures ok ==> table == LiveIndices(chain)
      ensures calls >= old(calls) && (NoFailureFrom(old(calls)) ==> ok)
    {
      count := 0;
      for i := 0 to |chain|
        invariant table == LiveIndices(chain[..i]) && count == |table| % TWO_TO_THE_16
        invariant calls >= old(calls)
      {
        LiveStep(chain, i);
        if !chain[i].revoked {
          ok := External();
          if !ok {
            PrefixOfLive(chain, i);
            return;
          }
          table := table + [i];
          count := (count + 1) % TWO_TO_THE_16;
        }
      }
      assert chain[..|chain|] == chain;
      ok := true;
    }

    /**
      Clears the table and inserts every live index; an error leaves a part of the new table, if it was
      cleared at all.
     */
    method InitAdminProposalKeys() returns (ok: bool, count: nat)
      requires Valid()
      modifies this`calls, this`table, this`built
      ensures Valid()
      ensures ok ==> table == LiveIndices(chain) && built == chain && count == |LiveIndices(chain)| % TWO_TO_THE_16
      ensures !ok ==> (table == old(table) && built == old(built)) || (table <= LiveIndices(chain) && built == chain)
      ensures calls >= old(calls) && (NoFailureFrom(old(calls)) ==> ok)
    {
      count := 0;
      ok := External();
      if !ok {
        return;
      }
      ok := External();
      if !ok {
        return;
      }
      table, built := [], chain;
      ok, count := InsertLive();
    }

    /** Adds copies of the admin key, of weight zero; a failed send may still have taken effect. */
    method AddAdminProposalKeys(count: nat) returns (ok: bool)
      requires Valid()
      modifies this`calls, this`chain
      ensures Valid()
      ensures ok ==>
        && adminKeyIndex < |old(chain)|
        && chain == old(chain) + Copies(count, ChainKey(old(chain)[adminKeyIndex].publicKey, false))
      ensures !ok ==>
        || chain == old(chain)
        || (adminKeyIndex < |old(chain)|
            && chain == old(chain) + Copies(count, ChainKey(old(chain)[adminKeyIndex].publicKey, false)))
      ensures calls >= old(calls) && (NoFailureFrom(old(calls)) && adminKeyIndex < |old(chain)| ==> ok)
    {
      ok := External();
      if !ok || adminKeyIndex >= |chain| {
        return false;
      }
      ok := External();
      if !ok {
        return;
      }
      var tookEffect: bool := *;
      ok := External();
      if ok || tookEffect {
        chain := chain + Copies(count, ChainKey(chain[adminKeyIndex].publicKey, false));
      }
    }

    /** Looks the selected row of the table up in the chain's list, unchecked: in range always, live until revoked. */
    method AdminProposalKey(position: nat) returns (key: ChainKey)
      requires Valid() && position < |table|
      ensures table[position] < |chain| && key == chain[table[position]]
      ensures NoneRevoked(built, chain, table[position] + 1) ==> !key.revoked
    {
      RowOfBuilt(built, chain, table, position);
      key := chain[table[position]];
    }

    /** The first part of start-up: the admin account has a row. */
    method EnsureAccount() returns (ok: bool)
      modifies this`calls, this`hasAccount
      ensures ok ==> hasAccount
      ensures !ok ==> hasAccount == old(hasAccount)
      ensures calls >= old(calls) && (NoFailureFrom(old(calls)) ==> ok)
    {
      ok := External();
      if ok && !hasAccount {
        ok := External();
        hasAccount := ok;
      }
    }

    /** What start-up does on a mismatch: rebuild the table, and if keys are missing add them and rebuild it again. */
    method RebuildAdminProposalKeys() returns (ok: bool)
      requires Valid()
      modifies this`calls, this`chain, this`table, this`built
      ensures Valid() && old(chain) <= chain
      ensures ok ==>
        && table == LiveIndices(chain) && built == chain
        && |LiveIndices(chain)| == |LiveIndices(old(chain))| + KeysToAdd(|LiveIndices(old(chain))|, wanted)
      ensures calls >= old(calls) && (NoFailureFrom(old(calls)) && adminKeyIndex < |old(chain)| ==> ok)
    {
      var keyCount;
      ok, keyCount := InitAdminProposalKeys();
      if !ok || keyCount >= wanted {
        return;
      }
      ok := AddAdminProposalKeys(wanted - keyCount);
      if !ok {
        return;
      }
      LiveIndicesAppend(old(chain), wanted - keyCount, old(chain)[adminKeyIndex].publicKey);
      ok, keyCount := InitAdminProposalKeys();
    }

    /**
      If start-up succeeds, the check passes from then on. When the table had to be rebuilt, it holds
      exactly the live indices, and the chain gained what `KeysToAdd` says.
     */
    method InitAdminAccount() returns (ok: bool, rebuilt: bool)
      requires Valid()
      modifies this`calls, this`chain, this`table, this`built, this`hasAccount
      ensures Valid() && old(chain) <= chain
      ensures ok || old(hasAccount) ==> hasAccount
      ensures ok ==> Enough(chain, table, wanted)
      ensures ok && rebuilt ==>
        && table == LiveIndices(chain) && built == chain
        && |LiveIndices(chain)| == |LiveIndices(old(chain))| + KeysToAdd(|LiveIndices(old(chain))|, wanted)
      ensures ok ==> (rebuilt <==> !Enough(old(chain), old(table), wanted))
      ensures !rebuilt ==> chain == old(chain) && table == old(table) && built == old(built)
      ensures NoFailureFrom(old(calls)) && adminKeyIndex < |old(chain)| ==> ok
      ensures NoFailureFrom(old(calls)) && Enough(old(chain), old(table), wanted) ==> ok
    {
      rebuilt := false;
      ok := EnsureAccount();
      if !ok {
        return;
      }
      var check := CheckAdminProposalKeyCount();
      if !check.Mismatch? {
        return check.Passed?, false;
      }
      rebuilt := true;
      ok := RebuildAdminProposalKeys();
      if ok {
        RebuildSuffices(|LiveIndices(old(chain))|, wanted);
      }
    }
  }

  lemma RebuildSuffices(live: nat, wanted: nat)
    ensures live + KeysToAdd(live, wanted) >= wanted
  {
    assert live % TWO_TO_THE_16 <= live;
  }

  lemma LiveStep(chain: seq<ChainKey>, i: nat)
    requires i < |chain|
    ensures LiveIndices(chain[..i + 1]) == LiveIndices(chain[..i]) + if chain[i].revoked then [] else [i]
  {
    assert chain[..i + 1][..i] == chain[..i];
  }

  lemma {:induction false} PrefixOfLive(chain: seq<ChainKey>, n: nat)
    requires n <= |chain|
    ensures LiveIndices(chain[..n]) <= LiveIndices(chain)
    decreases |chain|
  {
    if n == |chain| {
      assert chain[..n] == chain;
    } else {
      PrefixOfLive(chain[..|chain| - 1], n);
      assert chain[..|chain| - 1][..n] == chain[..n];
    }
  }
}
