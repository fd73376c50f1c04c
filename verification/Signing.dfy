/**
  Signing for a custodial account: the key selected from the database is looked up in the chain's list.
  The ledger of the account and the selection are joined here.
 */
module Signing {
  import opened Prelude
  import opened KeyLedger
  import opened KeySelection

  /** The rows of this address list the account's stored keys, in any order. */
  predicate Lists(rows: seq<KeyRow>, address: string, stored: seq<Storable>) {
    && (forall i :: 0 <= i < |rows| && rows[i].owner == address ==> HasIndex(stored, rows[i].keyIndex))
    && (forall j :: 0 <= j < |stored| ==> HasRow(rows, address, stored[j].index))
  }

  predicate HasIndex(stored: seq<Storable>, index: nat) {
    exists j :: 0 <= j < |stored| && stored[j].index == index
  }

  predicate HasRow(rows: seq<KeyRow>, address: string, index: nat) {
    exists i :: 0 <= i < |rows| && rows[i].owner == address && rows[i].keyIndex == index
  }

  /** The key at this index is live, and it is the one stored under the index. */
  ghost predicate SignsWith(a: Account, index: nat) {
    && index < |a.chain|
    && exists k :: k in a.stored && k.index == index && a.chain[index] == ChainKey(k.publicKey, false)
  }

  lemma StoredSigns(a: Account, index: nat)
    requires Ledger(a) && HasIndex(a.stored, index)
    ensures SignsWith(a, index)
  {
    var j :| 0 <= j < |a.stored| && a.stored[j].index == index;
    AuthorizerKeyIsLive(a, a.stored[j]);
  }

  /**
    After any careful run of additions, revocations and synchronisations of an account, whichever of its
    rows is selected, the index it holds is in range on chain, and the key there is live and is the stored one.
   */
  lemma SelectedKeySigns(
      n: nat, publicKey: string, ops: seq<Op>, rows: seq<KeyRow>, address: string, pick: nat)
    requires AllCareful(Created(n, publicKey), ops)
    requires Lists(rows, address, Run(Created(n, publicKey), ops).stored)
    requires IsOldest(StampsOf(rows), AccountCandidates(rows, address), pick)
    ensures SignsWith(Run(Created(n, publicKey), ops), rows[pick].keyIndex)
  {
    RunKeepsLedger(n, publicKey, ops);
    StoredSigns(Run(Created(n, publicKey), ops), rows[pick].keyIndex);
  }

  /** Selection and lookup for an account other than the admin's; it fails exactly without a stored key. */
  method UserAuthorizer(store: KeyStore, address: string, ghost a: Account, chain: seq<ChainKey>, now: nat)
    returns (key: Option<ChainKey>)
    requires Ledger(a) && chain == a.chain && Lists(store.rows, address, a.stored)
    modifies store
    ensures key.Some? <==> a.stored != []
    ensures key.Some? ==>
      && !key.value.revoked
      && exists k :: k in a.stored && k.index < |chain|
                  && chain[k.index] == key.value && key.value.publicKey == k.publicKey
    ensures Lists(store.rows, address, a.stored)
  {
    ghost var before := store.rows;
    var ok, row, call := store.AccountKey(address, now);
    if a.stored != [] {
      assert HasRow(before, address, a.stored[0].index);
    }
    if !ok {
      return None;
    }
    StoredSigns(a, row.keyIndex);
    key := Some(chain[row.keyIndex]);
    StampKeepsLists(before, address, a.stored, call.pick, now);
  }

  lemma StampKeepsLists(rows: seq<KeyRow>, address: string, stored: seq<Storable>, pick: nat, now: nat)
    requires Lists(rows, address, stored) && pick < |rows|
    ensures Lists(rows[pick := rows[pick].(updatedAt := now)], address, stored)
  {
    var after := rows[pick := rows[pick].(updatedAt := now)];
    assert forall i :: 0 <= i < |rows| ==> after[i].owner == rows[i].owner && after[i].keyIndex == rows[i].keyIndex;
    forall j | 0 <= j < |stored|
      ensures HasRow(after, address, stored[j].index)
    {
      assert HasRow(rows, address, stored[j].index);
      var i :| 0 <= i < |rows| && rows[i].owner == address && rows[i].keyIndex == stored[j].index;
      assert after[i].owner == address;
    }
  }
}
