/**
  The keys of one custodial account: the list on chain, which only grows and in which keys are
  revoked, and the rows in the database. Signing looks a stored index up in the chain's list.
 */
module KeyLedger {

  datatype ChainKey = ChainKey(publicKey: string, revoked: bool)

  /** A stored key; rows are kept in the order they were inserted. */
  datatype Storable = Storable(index: nat, publicKey: string)

  datatype Account = Account(chain: seq<ChainKey>, stored: seq<Storable>)

  /**
    `NoTransaction`: the transaction fails without effect. `LostTransaction`: it takes effect, but is
    reported to have failed. `LostUpdate`: it succeeds, and the database write that follows fails.
   */
  datatype Fault = NoFault | NoTransaction | LostTransaction | LostUpdate

  /** The chain was changed and the database was not. */
  predicate Lost(fault: Fault) {
    fault == LostTransaction || fault == LostUpdate
  }

  datatype Result = Done(count: nat) | Refused | Failed | Crashed

  // The invariant

  predicate Backed(chain: seq<ChainKey>, k: Storable) {
    k.index < |chain| && chain[k.index] == ChainKey(k.publicKey, false)
  }

  predicate DistinctIndices(stored: seq<Storable>) {
    forall i, j :: 0 <= i < j < |stored| ==> stored[i].index != stored[j].index
  }

  /** Every stored key is a live key on chain with the same public key, and no index is stored twice. */
  predicate Ledger(a: Account) {
    && (forall i :: 0 <= i < |a.stored| ==> Backed(a.chain, a.stored[i]))
    && DistinctIndices(a.stored)
  }

  // The operations

  function Copies(n: nat, key: ChainKey): seq<ChainKey> {
    seq(n, _ => key)
  }

  function Clones(first: nat, n: nat, publicKey: string): seq<Storable> {
    seq(n, i requires 0 <= i < n => Storable(first + i, publicKey))
  }

  /** A new account has `n` copies of one generated key. */
  function Created(n: nat, publicKey: string): Account {
    Account(Copies(n, ChainKey(publicKey, false)), Clones(0, n, publicKey))
  }

  /** Adds a freshly generated key at the end of the chain's list. */
  function AddKey(a: Account, publicKey: string, fault: Fault): Account {
    if a.stored == [] || a.chain == [] || fault == NoTransaction then a
    else
      var chain := a.chain + [ChainKey(publicKey, false)];
      if Lost(fault) then a.(chain := chain)
      else Account(chain, a.stored + [Storable(|a.chain|, publicKey)])
  }

  predicate IsStored(stored: seq<Storable>, index: nat) {
    exists i :: 0 <= i < |stored| && stored[i].index == index
  }

  function Revoked(chain: seq<ChainKey>, index: nat): seq<ChainKey> {
    if index < |chain| then chain[index := chain[index].(revoked := true)] else chain
  }

  /** Deletes one row, the last of those with this index. */
  function DeleteIndex(stored: seq<Storable>, index: nat): seq<Storable> {
    if stored == [] then []
    else
      var front, last := stored[..|stored| - 1], stored[|stored| - 1];
      if last.index == index then front else DeleteIndex(front, index) + [last]
  }

  predicate CanRevoke(a: Account, index: nat) {
    |a.stored| != 1 && IsStored(a.stored, index)
  }

  function RevokeKey(a: Account, index: nat, fault: Fault): Account {
    if !CanRevoke(a, index) || fault == NoTransaction then a
    else if Lost(fault) then a.(chain := Revoked(a.chain, index))
    else Account(Revoked(a.chain, index), DeleteIndex(a.stored, index))
  }

  /** How many live keys on chain have this public key. */
  function LiveClones(chain: seq<ChainKey>, publicKey: string): nat {
    if chain == [] then 0
    else LiveClones(chain[..|chain| - 1], publicKey) + if chain[|chain| - 1] == ChainKey(publicKey, false) then 1 else 0
  }

  function MaxIndex(stored: seq<Storable>): nat
    requires stored != []
  {
    var last := stored[|stored| - 1].index;
    if |stored| == 1 then last
    else
      var max := MaxIndex(stored[..|stored| - 1]);
      if max < last then last else max
  }

  /** The number of clones of the first stored key that a sync to `numKeys` adds. */
  function Missing(a: Account, numKeys: nat): nat
    requires a.stored != []
  {
    var live := LiveClones(a.chain, a.stored[0].publicKey);
    if live < numKeys then numKeys - live else 0
  }

  /**
    Tops the account up to `numKeys` live clones of its first stored key, numbering them after the highest
    stored index.
   */
  function SyncKeyCount(a: Account, numKeys: int, fault: Fault): Account {
    if numKeys < 1 || a.stored == [] || fault == NoTransaction then a
    else
      var n := Missing(a, numKeys);
      var source := a.stored[0].publicKey;
      if n == 0 then a
      else
        var chain := a.chain + Copies(n, ChainKey(source, false));
        if Lost(fault) then a.(chain := chain)
        else Account(chain, a.stored + Clones(MaxIndex(a.stored) + 1, n, source))
  }

  // The invariant is kept

  lemma CreatedLedger(n: nat, publicKey: string)
    ensures Ledger(Created(n, publicKey)) && |Created(n, publicKey).stored| == n
    ensures n > 0 ==> HighestStored(Created(n, publicKey))
  {
    if n > 0 {
      MaxIndexIs(Created(n, publicKey).stored, n - 1);
    }
  }

  /** The next free index on chain follows the highest stored one. */
  predicate HighestStored(a: Account) {
    a.stored != [] && MaxIndex(a.stored) + 1 == |a.chain|
  }

  lemma {:induction false} MaxIndexBounds(stored: seq<Storable>)
    requires stored != []
    ensures forall i :: 0 <= i < |stored| ==> stored[i].index <= MaxIndex(stored)
    ensures IsStored(stored, MaxIndex(stored))
  {
    if |stored| > 1 {
      var front := stored[..|stored| - 1];
      MaxIndexBounds(front);
      var i :| 0 <= i < |front| && front[i].index == MaxIndex(front);
      assert stored[i] == front[i];
      assert stored[|stored| - 1].index <= MaxIndex(stored);
    }
  }

  lemma MaxIndexIs(stored: seq<Storable>, i: nat)
    requires i < |stored| && forall j :: 0 <= j < |stored| ==> stored[j].index <= stored[i].index
    ensures MaxIndex(stored) == stored[i].index
  {
    MaxIndexBounds(stored);
  }

  /** Adding a key keeps the ledger whatever fails, and leaves the highest index stored when nothing does. */
  lemma AddKeyKeepsLedger(a: Account, publicKey: string, fault: Fault)
    requires Ledger(a)
    ensures Ledger(AddKey(a, publicKey, fault))
    ensures a.stored != [] && a.chain != [] && fault == NoFault ==> HighestStored(AddKey(a, publicKey, fault))
  {
    var b := AddKey(a, publicKey, fault);
    if b.stored != a.stored {
      MaxIndexIs(b.stored, |a.stored|);
    }
  }

  /** The rows before the last one have other indices. */
  lemma DistinctFront(stored: seq<Storable>)
    requires stored != [] && DistinctIndices(stored)
    ensures DistinctIndices(stored[..|stored| - 1])
    ensures forall k :: k in stored[..|stored| - 1] ==> k.index != stored[|stored| - 1].index
    ensures forall k :: k in stored <==> k in stored[..|stored| - 1] || k == stored[|stored| - 1]
  {
    var front := stored[..|stored| - 1];
    assert stored == front + [stored[|stored| - 1]];
    forall k | k in front
      ensures k.index != stored[|stored| - 1].index
    {
      var i :| 0 <= i < |front| && front[i] == k;
      assert stored[i] == k;
    }
  }

  lemma DistinctAppend(stored: seq<Storable>, k: Storable)
    requires DistinctIndices(stored) && forall l :: l in stored ==> l.index != k.index
    ensures DistinctIndices(stored + [k])
  {
    var all := stored + [k];
    forall i, j | 0 <= i < j < |all|
      ensures all[i].index != all[j].index
    {
      assert all[i] == stored[i] && stored[i] in stored;
    }
  }

  lemma {:induction false} DeleteIndexMembers(stored: seq<Storable>, index: nat)
    requires DistinctIndices(stored)
    ensures forall k :: k in DeleteIndex(stored, index) <==> k in stored && k.index != index
    ensures DistinctIndices(DeleteIndex(stored, index))
  {
    if stored == [] {
    } else {
      var front, last := stored[..|stored| - 1], stored[|stored| - 1];
      DistinctFront(stored);
      if last.index != index {
        DeleteIndexMembers(front, index);
        DistinctAppend(DeleteIndex(front, index), last);
      }
    }
  }

  /** Revoking keeps the ledger if and only if it is refused or not lost. */
  lemma RevokeKeyExactly(a: Account, index: nat, fault: Fault)
    requires Ledger(a)
    ensures Ledger(RevokeKey(a, index, fault)) <==> !CanRevoke(a, index) || !Lost(fault)
  {
    var b := RevokeKey(a, index, fault);
    if CanRevoke(a, index) && Lost(fault) {
      var i :| 0 <= i < |a.stored| && a.stored[i].index == index;
      assert Backed(a.chain, a.stored[i]);
      assert !Backed(b.chain, b.stored[i]);
    } else if b != a {
      DeleteIndexMembers(a.stored, index);
      forall i | 0 <= i < |b.stored|
        ensures Backed(b.chain, b.stored[i])
      {
        assert b.stored[i] in a.stored && b.stored[i].index != index;
      }
    }
  }

  /** A lost revocation leaves a dead key in use; repeating it repairs the ledger. */
  lemma LostRevocation(a: Account, index: nat, fault: Fault)
    requires Ledger(a) && CanRevoke(a, index) && Lost(fault)
    ensures !Ledger(RevokeKey(a, index, fault))
    ensures RevokeKey(RevokeKey(a, index, fault), index, NoFault) == RevokeKey(a, index, NoFault)
    ensures Ledger(RevokeKey(RevokeKey(a, index, fault), index, NoFault))
  {
    RevokeKeyExactly(a, index, fault);
    RevokeKeyExactly(a, index, NoFault);
    assert Revoked(Revoked(a.chain, index), index) == Revoked(a.chain, index);
  }

  // What each operation does

  /** All keys of a new account are copies of the given one. */
  lemma CreatedKeys(n: nat, publicKey: string, i: nat)
    requires i < n
    ensures var a := Created(n, publicKey);
            && |a.chain| == n && a.chain[i] == ChainKey(publicKey, false)
            && |a.stored| == n && a.stored[i] == Storable(i, publicKey)
  {
  }

  /**
    An addition that succeeds puts the given key, live, at the end of the chain's list, and stores it
    under its index.
   */
  lemma AddKeyEffect(a: Account, publicKey: string)
    requires a.stored != [] && a.chain != []
    ensures var b := AddKey(a, publicKey, NoFault);
            && |b.chain| == |a.chain| + 1 && b.chain[..|a.chain|] == a.chain
            && b.chain[|a.chain|].publicKey == publicKey && !b.chain[|a.chain|].revoked
            && |b.stored| == |a.stored| + 1 && b.stored[..|a.stored|] == a.stored
            && b.stored[|a.stored|].index == |a.chain| && b.stored[|a.stored|].publicKey == publicKey
  {
  }

  lemma {:induction false} DeleteIndexSize(stored: seq<Storable>, index: nat)
    ensures |DeleteIndex(stored, index)| == |stored| - if IsStored(stored, index) then 1 else 0
  {
    if stored != [] {
      var front, last := stored[..|stored| - 1], stored[|stored| - 1];
      DeleteIndexSize(front, index);
      if last.index != index && IsStored(stored, index) {
        var i :| 0 <= i < |stored| && stored[i].index == index;
        assert front[i] == stored[i];
      }
      if IsStored(front, index) {
        var i :| 0 <= i < |front| && front[i].index == index;
        assert stored[i] == front[i];
      }
    }
  }

  /**
    Of two or more stored keys any one can be revoked: it is then revoked on chain and not stored any more, and
    every other key is as before.
   */
  lemma RevokeKeyEffect(a: Account, k: Storable)
    requires Ledger(a) && k in a.stored && |a.stored| >= 2
    ensures var b := RevokeKey(a, k.index, NoFault);
            && |b.chain| == |a.chain| && k.index < |a.chain| && b.chain[k.index].revoked
            && (forall i :: 0 <= i < |a.chain| && i != k.index ==> b.chain[i] == a.chain[i])
            && |b.stored| == |a.stored| - 1 && (forall l :: l in b.stored <==> l in a.stored && l != k)
  {
    var i :| 0 <= i < |a.stored| && a.stored[i] == k;
    assert Backed(a.chain, a.stored[i]);
    DeleteIndexSize(a.stored, k.index);
    DeleteIndexMembers(a.stored, k.index);
    forall l | l in a.stored && l.index == k.index
      ensures l == k
    {
      var j :| 0 <= j < |a.stored| && a.stored[j] == l;
    }
  }

  /** A revocation of the only stored key, or of an index that is not stored, does nothing. */
  lemma RevokeKeyRefused(a: Account, index: nat, fault: Fault)
    requires |a.stored| <= 1 || (forall k :: k in a.stored ==> k.index != index)
    ensures RevokeKey(a, index, fault) == a
  {
    if IsStored(a.stored, index) {
      var i :| 0 <= i < |a.stored| && a.stored[i].index == index;
      assert a.stored[i] in a.stored;
    }
  }

  /**
    A synchronisation keeps all keys, and adds live copies of the first stored one, as many to the chain
    as to the store.
   */
  lemma SyncEffect(a: Account, numKeys: nat)
    requires a.stored != []
    ensures var b := SyncKeyCount(a, numKeys, NoFault);
            && |b.chain| - |a.chain| == |b.stored| - |a.stored|
            && a.chain <= b.chain && a.stored <= b.stored
            && (forall i :: |a.chain| <= i < |b.chain| ==> b.chain[i] == ChainKey(a.stored[0].publicKey, false))
            && (forall i :: |a.stored| <= i < |b.stored| ==> b.stored[i].publicKey == a.stored[0].publicKey)
  {
  }

  function LivePositions(chain: seq<ChainKey>, publicKey: string): set<nat> {
    set i | 0 <= i < |chain| && chain[i].publicKey == publicKey && !chain[i].revoked
  }

  lemma LivePositionsAppend(chain: seq<ChainKey>, key: ChainKey, publicKey: string)
    ensures LivePositions(chain + [key], publicKey)
         == LivePositions(chain, publicKey) + if key == ChainKey(publicKey, false) then {|chain|} else {}
  {
    assert forall i :: 0 <= i < |chain| ==> (chain + [key])[i] == chain[i];
  }

  /** The count a synchronisation goes by is the number of positions of live keys on chain with this public key. */
  lemma {:induction false} LiveClonesAre(chain: seq<ChainKey>, publicKey: string)
    ensures LiveClones(chain, publicKey) == |LivePositions(chain, publicKey)|
  {
    if chain == [] {
      assert LivePositions(chain, publicKey) == {};
    } else {
      var front, key := chain[..|chain| - 1], chain[|chain| - 1];
      LiveClonesAre(front, publicKey);
      LivePositionsAppend(front, key, publicKey);
      assert chain == front + [key];
    }
  }

  /**
    A stored key always selects a live key on chain with its own public key, so signing never fails for
    that reason.
   */
  lemma AuthorizerKeyIsLive(a: Account, k: Storable)
    requires Ledger(a) && k in a.stored
    ensures k.index < |a.chain| && !a.chain[k.index].revoked && a.chain[k.index].publicKey == k.publicKey
  {
    var i :| 0 <= i < |a.stored| && a.stored[i] == k;
    assert Backed(a.chain, a.stored[i]);
  }

  // Runs

  datatype Op =
    | Add(publicKey: string, fault: Fault)
    | Revoke(index: nat, fault: Fault)
    | Sync(numKeys: int, fault: Fault)

  function Apply(a: Account, op: Op): Account {
    match op
    case Add(publicKey, fault) => AddKey(a, publicKey, fault)
    case Revoke(index, fault) => RevokeKey(a, index, fault)
    case Sync(numKeys, fault) => SyncKeyCount(a, numKeys, fault)
  }

  /** Revocations are not lost, and a sync is made only when its numbering is right. */
  predicate Careful(a: Account, op: Op) {
    && (op.Revoke? ==> !Lost(op.fault))
    && (op.Sync? && op.numKeys >= 1 && a.stored != [] && op.fault == NoFault ==> SyncNumbersRight(a, op.numKeys))
  }

  function Run(a: Account, ops: seq<Op>): Account {
    if ops == [] then a else Apply(Run(a, ops[..|ops| - 1]), ops[|ops| - 1])
  }

  predicate AllCareful(a: Account, ops: seq<Op>) {
    ops == [] || (AllCareful(a, ops[..|ops| - 1]) && Careful(Run(a, ops[..|ops| - 1]), ops[|ops| - 1]))
  }

  /** Whatever is done to an account after its creation, its ledger holds. */
  lemma {:induction false} RunKeepsLedger(n: nat, publicKey: string, ops: seq<Op>)
    requires AllCareful(Created(n, publicKey), ops)
    ensures Ledger(Run(Created(n, publicKey), ops))
  {
    if ops == [] {
      CreatedLedger(n, publicKey);
    } else {
      RunKeepsLedger(n, publicKey, ops[..|ops| - 1]);
      var a, op := Run(Created(n, publicKey), ops[..|ops| - 1]), ops[|ops| - 1];
      match op
      case Add(p, fault) => AddKeyKeepsLedger(a, p, fault);
      case Revoke(index, fault) => RevokeKeyExactly(a, index, fault);
      case Sync(numKeys, fault) => SyncKeepsLedger(a, numKeys, fault);
    }
  }

  // The last key

  lemma StepKeepsStored(a: Account, op: Op)
    requires a.stored != []
    ensures Apply(a, op).stored != []
  {
    if op.Revoke? {
      DeleteIndexSize(a.stored, op.index);
    }
  }

  lemma {:induction false} RunKeepsStored(a: Account, ops: seq<Op>)
    requires a.stored != []
    ensures Run(a, ops).stored != []
  {
    if ops != [] {
      RunKeepsStored(a, ops[..|ops| - 1]);
      StepKeepsStored(Run(a, ops[..|ops| - 1]), ops[|ops| - 1]);
    }
  }

  /**
    Whatever is done to an account that has a key, with whatever faults, it never runs out of stored keys; so
    after a careful run there always is a stored key that is live on chain, to sign with.
   */
  lemma NeverWithoutKey(n: nat, publicKey: string, ops: seq<Op>)
    requires 1 <= n
    ensures Run(Created(n, publicKey), ops).stored != []
    ensures AllCareful(Created(n, publicKey), ops) ==>
      var a := Run(Created(n, publicKey), ops);
      && a.stored[0].index < |a.chain| && !a.chain[a.stored[0].index].revoked
      && a.chain[a.stored[0].index].publicKey == a.stored[0].publicKey
  {
    RunKeepsStored(Created(n, publicKey), ops);
    if AllCareful(Created(n, publicKey), ops) {
      RunKeepsLedger(n, publicKey, ops);
      var a := Run(Created(n, publicKey), ops);
      AuthorizerKeyIsLive(a, a.stored[0]);
    }
  }

  // Synchronising the key count

  /**
    The indices the new clones get belong to live clones of the source key: new ones, or ones the database
    had missed.
   */
  predicate SyncNumbersRight(a: Account, numKeys: nat)
    requires a.stored != []
  {
    forall i :: MaxIndex(a.stored) < i < |a.chain| && i <= MaxIndex(a.stored) + Missing(a, numKeys)
      ==> a.chain[i] == ChainKey(a.stored[0].publicKey, false)
  }

  /** The `i`-th clone a sync stores is backed if its index is a new one, or that of a live clone. */
  lemma CloneBacked(a: Account, numKeys: nat, i: nat)
    requires Ledger(a) && a.stored != [] && 1 <= numKeys && i < Missing(a, numKeys)
    ensures var b := SyncKeyCount(a, numKeys, NoFault);
            var index := MaxIndex(a.stored) + 1 + i;
            && |b.stored| == |a.stored| + Missing(a, numKeys) && b.stored[|a.stored| + i].index == index
            && (Backed(b.chain, b.stored[|a.stored| + i])
                <==> index >= |a.chain| || a.chain[index] == ChainKey(a.stored[0].publicKey, false))
  {
    MaxIndexBounds(a.stored);
  }

  lemma SyncNeedsRightNumbers(a: Account, numKeys: nat)
    requires Ledger(a) && a.stored != [] && 1 <= numKeys && Ledger(SyncKeyCount(a, numKeys, NoFault))
    ensures SyncNumbersRight(a, numKeys)
  {
    forall i | MaxIndex(a.stored) < i < |a.chain| && i <= MaxIndex(a.stored) + Missing(a, numKeys)
      ensures a.chain[i] == ChainKey(a.stored[0].publicKey, false)
    {
      CloneBacked(a, numKeys, i - MaxIndex(a.stored) - 1);
    }
  }

  lemma RightNumbersSync(a: Account, numKeys: nat)
    requires Ledger(a) && a.stored != [] && 1 <= numKeys && SyncNumbersRight(a, numKeys)
    ensures Ledger(SyncKeyCount(a, numKeys, NoFault))
  {
    var b := SyncKeyCount(a, numKeys, NoFault);
    if Missing(a, numKeys) > 0 {
      MaxIndexBounds(a.stored);
      forall i | 0 <= i < |b.stored|
        ensures Backed(b.chain, b.stored[i])
      {
        if i < |a.stored| {
          assert Backed(a.chain, a.stored[i]);
        } else {
          CloneBacked(a, numKeys, i - |a.stored|);
        }
      }
      assert DistinctIndices(b.stored);
    }
  }

  /**
    A sync that completes keeps the ledger exactly when its numbering is right, as it is when the highest
    index is stored.
   */
  lemma SyncExactly(a: Account, numKeys: nat)
    requires Ledger(a) && a.stored != [] && 1 <= numKeys
    ensures Ledger(SyncKeyCount(a, numKeys, NoFault)) <==> SyncNumbersRight(a, numKeys)
    ensures HighestStored(a) ==> SyncNumbersRight(a, numKeys) && HighestStored(SyncKeyCount(a, numKeys, NoFault))
  {
    if SyncNumbersRight(a, numKeys) {
      RightNumbersSync(a, numKeys);
    }
    if Ledger(SyncKeyCount(a, numKeys, NoFault)) {
      SyncNeedsRightNumbers(a, numKeys);
    }
    var b := SyncKeyCount(a, numKeys, NoFault);
    if Missing(a, numKeys) > 0 {
      MaxIndexBounds(a.stored);
      MaxIndexIs(b.stored, |b.stored| - 1);
    }
  }

  lemma SyncKeepsLedger(a: Account, numKeys: int, fault: Fault)
    requires Ledger(a)
    requires numKeys >= 1 && a.stored != [] && fault == NoFault ==> SyncNumbersRight(a, numKeys)
    ensures Ledger(SyncKeyCount(a, numKeys, fault))
  {
    if numKeys >= 1 && a.stored != [] && fault == NoFault {
      SyncExactly(a, numKeys);
    }
  }

  lemma {:induction false} LiveClonesAppend(chain: seq<ChainKey>, n: nat, publicKey: string)
    ensures LiveClones(chain + Copies(n, ChainKey(publicKey, false)), publicKey) == LiveClones(chain, publicKey) + n
  {
    var more := Copies(n, ChainKey(publicKey, false));
    if n == 0 {
      assert chain + more == chain;
    } else {
      LiveClonesAppend(chain, n - 1, publicKey);
      assert (chain + more)[..|chain| + n - 1] == chain + Copies(n - 1, ChainKey(publicKey, false));
    }
  }

  /**
    After a sync the source key has at least `numKeys` live clones, exactly that many if it had fewer, and
    syncing again adds nothing.
   */
  lemma SyncReachesCount(a: Account, numKeys: nat)
    requires a.stored != [] && 1 <= numKeys
    ensures var b := SyncKeyCount(a, numKeys, NoFault);
            var before, after := LiveClones(a.chain, a.stored[0].publicKey), LiveClones(b.chain, a.stored[0].publicKey);
            && after == (if before < numKeys then numKeys else before)
            && SyncKeyCount(b, numKeys, NoFault) == b
  {
    LiveClonesAppend(a.chain, Missing(a, numKeys), a.stored[0].publicKey);
  }

  lemma AddThenRevoke(n: nat, publicKey: string, other: string)
    requires 1 <= n
    ensures Run(Created(n, publicKey), [Add(other, NoFault), Revoke(n, NoFault)])
         == BesideDeadKey(n, publicKey, other)
  {
    var start, ops := Created(n, publicKey), [Add(other, NoFault), Revoke(n, NoFault)];
    assert ops[..1] == [Add(other, NoFault)] && ops[..1][..0] == [];
    var added := AddKey(start, other, NoFault);
    assert Run(start, ops[..1]) == added;
    assert added.stored[n].index == n && added.stored[..n] == start.stored;
    assert Revoked(added.chain, n) == start.chain + [ChainKey(other, true)];
  }

  /** An account whose first key is cloned on chain `n` times, followed by a dead key the database does not list. */
  function BesideDeadKey(n: nat, publicKey: string, other: string): Account {
    Account(Copies(n, ChainKey(publicKey, false)) + [ChainKey(other, true)], Clones(0, n, publicKey))
  }

  lemma LiveClonesOfCopies(n: nat, publicKey: string)
    ensures LiveClones(Copies(n, ChainKey(publicKey, false)), publicKey) == n
  {
    LiveClonesAppend([], n, publicKey);
    assert [] + Copies(n, ChainKey(publicKey, false)) == Copies(n, ChainKey(publicKey, false));
  }

  lemma DeadKeyNotCounted(chain: seq<ChainKey>, other: string, publicKey: string)
    ensures LiveClones(chain + [ChainKey(other, true)], publicKey) == LiveClones(chain, publicKey)
  {
    assert (chain + [ChainKey(other, true)])[..|chain|] == chain;
  }

  lemma BesideDeadKeyCounts(n: nat, publicKey: string, other: string)
    requires 1 <= n
    ensures var a := BesideDeadKey(n, publicKey, other);
            a.stored != [] && Missing(a, n + 1) == 1 && MaxIndex(a.stored) == n - 1
  {
    LiveClonesOfCopies(n, publicKey);
    DeadKeyNotCounted(Copies(n, ChainKey(publicKey, false)), other, publicKey);
    MaxIndexIs(Clones(0, n, publicKey), n - 1);
  }

  lemma SyncBesideDeadKey(n: nat, publicKey: string, other: string)
    requires 1 <= n
    ensures var a := BesideDeadKey(n, publicKey, other);
            Ledger(a) && a.stored != [] && !SyncNumbersRight(a, n + 1)
  {
    BesideDeadKeyCounts(n, publicKey, other);
    assert BesideDeadKey(n, publicKey, other).chain[n] == ChainKey(other, true);
  }

  /**
    The hypothesis is needed: after adding a key and revoking it again, a sync stores the dead key's index
    under the source key.
   */
  lemma SyncAfterRevokingLast(publicKey: string, other: string, n: nat)
    requires 1 <= n
    ensures var a := Run(Created(n, publicKey), [Add(other, NoFault), Revoke(n, NoFault)]);
            && Ledger(a) && a.stored != []
            && !Ledger(SyncKeyCount(a, n + 1, NoFault))
  {
    AddThenRevoke(n, publicKey, other);
    SyncBesideDeadKey(n, publicKey, other);
    SyncExactly(BesideDeadKey(n, publicKey, other), n + 1);
  }
}
