/**
  Burning arbitrarily nested resources: arrays and dictionaries are emptied and their elements
  burned, vaults run their callback, and anything else is destroyed with all it contains.
 */
module BurnTree {
  import opened Prelude
  import opened TokenLedger

  /**
    A resource value. `Nothing` is nil. A dictionary is listed by its values, in the order of its key
    list: keys are unique, so each value is removed once. `Burnable` is a burnable resource of another
    contract: its callback hands some of what it holds to the burner, and the rest is destroyed with it.
    `Other` is any resource that is neither burnable nor a container, with the resources in its fields.
   */
  datatype Resource<V> =
    | Nothing
    | VaultResource(vault: V)
    | Array(items: seq<Resource>)
    | Dictionary(values: seq<Resource>)
    | Burnable(released: seq<Resource>, fields: seq<Resource>)
    | Other(fields: seq<Resource>)

  /** All vaults inside. */
  function Vaults<V>(r: Resource<V>): seq<V>
    decreases r, 1
  {
    match r
    case Nothing => []
    case VaultResource(v) => [v]
    case Array(items) => VaultsOf(items)
    case Dictionary(values) => VaultsOf(values)
    case Burnable(released, fields) => VaultsOf(released) + VaultsOf(fields)
    case Other(fields) => VaultsOf(fields)
  }

  function VaultsOf<V>(rs: seq<Resource<V>>): seq<V>
    decreases rs, 0
  {
    if rs == [] then [] else Vaults(rs[0]) + VaultsOf(rs[1..])
  }

  function Destructions<V>(vaults: seq<V>): seq<Op<V>> {
    seq(|vaults|, i requires 0 <= i < |vaults| => Destroy(vaults[i]))
  }

  /** The ledger operations a burn amounts to, in order. */
  function BurnOps<V>(r: Resource<V>): seq<Op<V>>
    decreases r, 1
  {
    match r
    case Nothing => []
    case VaultResource(v) => [Burn(v)]
    case Array(items) => BurnOpsOf(items)
    case Dictionary(values) => BurnOpsOf(values)
    case Burnable(released, fields) => BurnOpsOf(released) + Destructions(VaultsOf(fields))
    case Other(fields) => Destructions(VaultsOf(fields))
  }

  function BurnOpsOf<V>(rs: seq<Resource<V>>): seq<Op<V>>
    decreases rs, 0
  {
    if rs == [] then [] else BurnOps(rs[0]) + BurnOpsOf(rs[1..])
  }

  /** Runs the operations one after another; an abort anywhere aborts all. */
  function ExecuteAll<V>(l: Ledger<V>, ops: seq<Op<V>>): Option<Ledger<V>>
    decreases |ops|
  {
    if ops == [] then Some(l)
    else if !Linear(l, ops[0]) then None
    else
      match Execute(l, ops[0])
      case None => None
      case Some(m) => ExecuteAll(m, ops[1..])
  }

  lemma {:induction false} ExecuteConcat<V>(l: Ledger<V>, a: seq<Op<V>>, b: seq<Op<V>>)
    ensures ExecuteAll(l, a + b)
         == match ExecuteAll(l, a) case None => None case Some(m) => ExecuteAll(m, b)
    decreases |a|
  {
    if a == [] {
      assert a + b == b;
    } else {
      assert (a + b)[1..] == a[1..] + b;
      if Linear(l, a[0]) && Execute(l, a[0]).Some? {
        ExecuteConcat(Execute(l, a[0]).value, a[1..], b);
      }
    }
  }

  /**
    The summed balance of the vaults reachable through arrays, dictionaries and the callbacks of burnable
    resources.
   */
  function Reachable<V>(balances: map<V, nat>, r: Resource<V>): nat
    decreases r, 1
  {
    match r
    case Nothing => 0
    case VaultResource(v) => if v in balances then balances[v] else 0
    case Array(items) => ReachableIn(balances, items)
    case Dictionary(values) => ReachableIn(balances, values)
    case Burnable(released, _) => ReachableIn(balances, released)
    case Other(_) => 0
  }

  function ReachableIn<V>(balances: map<V, nat>, rs: seq<Resource<V>>): nat
    decreases rs, 0
  {
    if rs == [] then 0 else Reachable(balances, rs[0]) + ReachableIn(balances, rs[1..])
  }

  // Operations that only remove vaults

  predicate Removes<V>(op: Op<V>) {
    op.Burn? || op.Destroy?
  }

  /** The balances the burns among the operations take off the supply. */
  function Burned<V>(balances: map<V, nat>, ops: seq<Op<V>>): nat {
    if ops == [] then 0
    else (if ops[0].Burn? && ops[0].vault in balances then balances[ops[0].vault] else 0) + Burned(balances, ops[1..])
  }

  lemma {:induction false} BurnedConcat<V>(balances: map<V, nat>, a: seq<Op<V>>, b: seq<Op<V>>)
    ensures Burned(balances, a + b) == Burned(balances, a) + Burned(balances, b)
    decreases |a|
  {
    if a == [] {
      assert a + b == b;
    } else {
      assert (a + b)[1..] == a[1..] + b;
      BurnedConcat(balances, a[1..], b);
    }
  }

  /** The operations remove existing vaults, no vault twice. */
  ghost predicate RemovesEach<V>(balances: map<V, nat>, ops: seq<Op<V>>) {
    && (forall i :: 0 <= i < |ops| ==> Removes(ops[i]) && ops[i].vault in balances)
    && (forall i, j :: 0 <= i < j < |ops| ==> ops[i].vault != ops[j].vault)
  }

  lemma {:induction false} BurnedFrame<V>(balances: map<V, nat>, v: V, ops: seq<Op<V>>)
    requires forall i :: 0 <= i < |ops| ==> Removes(ops[i]) && ops[i].vault != v
    ensures Burned(balances - {v}, ops) == Burned(balances, ops)
  {
    if ops == [] {
    } else {
      BurnedFrame(balances, v, ops[1..]);
    }
  }

  /** Removing vaults never aborts, and lowers the supply by what was burned. */
  lemma {:induction false} RemovalsExactly<V>(l: Ledger<V>, ops: seq<Op<V>>)
    requires Conserved(l) && RemovesEach(l.balances, ops)
    ensures ExecuteAll(l, ops).Some?
    ensures var m := ExecuteAll(l, ops).value;
            && Conserved(m) && m.supply + Burned(l.balances, ops) == l.supply
            && m.balances == l.balances - set i | 0 <= i < |ops| :: ops[i].vault
    decreases |ops|
  {
    if ops == [] {
    } else {
      var op, rest := ops[0], ops[1..];
      AbortsExactly(l, op);
      ExecuteConserves(l, op);
      var m := Execute(l, op).value;
      assert m.balances == l.balances - {op.vault};
      assert forall i :: 0 <= i < |rest| ==> rest[i] == ops[i + 1];
      RemovalsExactly(m, rest);
      BurnedFrame(l.balances, op.vault, rest);
      var removed := set i | 0 <= i < |ops| :: ops[i].vault;
      assert removed == {op.vault} + set i | 0 <= i < |rest| :: rest[i].vault;
    }
  }

  // A burn removes each vault inside once

  /** The vaults inside are pairwise different and exist. */
  ghost predicate Owned<V>(balances: map<V, nat>, vaults: seq<V>) {
    && (forall i :: 0 <= i < |vaults| ==> vaults[i] in balances)
    && (forall i, j :: 0 <= i < j < |vaults| ==> vaults[i] != vaults[j])
  }

  /** The operations name these vaults, in this order. */
  ghost predicate Names<V>(ops: seq<Op<V>>, vaults: seq<V>) {
    |ops| == |vaults| && forall i :: 0 <= i < |ops| ==> Removes(ops[i]) && ops[i].vault == vaults[i]
  }

  lemma {:induction false} BurnNamesVaults<V>(r: Resource<V>)
    ensures Names(BurnOps(r), Vaults(r))
    decreases r, 1
  {
    match r
    case Array(items) => BurnNamesVaultsOf(items);
    case Dictionary(values) => BurnNamesVaultsOf(values);
    case Burnable(released, fields) => BurnNamesVaultsOf(released);
    case _ =>
  }

  lemma {:induction false} BurnNamesVaultsOf<V>(rs: seq<Resource<V>>)
    ensures Names(BurnOpsOf(rs), VaultsOf(rs))
    decreases rs, 0
  {
    if rs == [] {
    } else {
      BurnNamesVaults(rs[0]);
      BurnNamesVaultsOf(rs[1..]);
    }
  }

  lemma {:induction false} BurnedIsReachable<V>(balances: map<V, nat>, r: Resource<V>)
    ensures Burned(balances, BurnOps(r)) == Reachable(balances, r)
    decreases r, 1
  {
    match r
    case Nothing =>
    case VaultResource(v) =>
    case Array(items) => BurnedIsReachableIn(balances, items);
    case Dictionary(values) => BurnedIsReachableIn(balances, values);
    case Burnable(released, fields) =>
      BurnedIsReachableIn(balances, released);
      DestroyedNotBurned(balances, VaultsOf(fields));
      BurnedConcat(balances, BurnOpsOf(released), Destructions(VaultsOf(fields)));
    case Other(fields) => DestroyedNotBurned(balances, VaultsOf(fields));
  }

  lemma {:induction false} BurnedIsReachableIn<V>(balances: map<V, nat>, rs: seq<Resource<V>>)
    ensures Burned(balances, BurnOpsOf(rs)) == ReachableIn(balances, rs)
    decreases rs, 0
  {
    if rs == [] {
    } else {
      BurnedIsReachable(balances, rs[0]);
      BurnedIsReachableIn(balances, rs[1..]);
      BurnedConcat(balances, BurnOps(rs[0]), BurnOpsOf(rs[1..]));
    }
  }

  lemma {:induction false} DestroyedNotBurned<V>(balances: map<V, nat>, vaults: seq<V>)
    ensures Burned(balances, Destructions(vaults)) == 0
  {
    if vaults == [] {
    } else {
      assert Destructions(vaults)[1..] == Destructions(vaults[1..]);
      DestroyedNotBurned(balances, vaults[1..]);
    }
  }

  /**
    A burn of any nesting never aborts, removes every vault inside, and lowers the supply by exactly the
    balances that are reachable; what is destroyed inside other resources is lost instead.
   */
  lemma BurnExactly<V>(l: Ledger<V>, r: Resource<V>)
    requires Conserved(l) && Owned(l.balances, Vaults(r))
    ensures ExecuteAll(l, BurnOps(r)).Some?
    ensures var m := ExecuteAll(l, BurnOps(r)).value;
            && Conserved(m) && m.supply + Reachable(l.balances, r) == l.supply
            && m.balances == l.balances - set i | 0 <= i < |Vaults(r)| :: Vaults(r)[i]
  {
    BurnNamesVaults(r);
    RemovalsExactly(l, BurnOps(r));
    BurnedIsReachable(l.balances, r);
    var ops, vaults := BurnOps(r), Vaults(r);
    assert (set i | 0 <= i < |ops| :: ops[i].vault) == set i | 0 <= i < |vaults| :: vaults[i];
  }

  /** Removing the vaults of one part leaves those of the other as they were. */
  lemma RemoveFirst<V>(l: Ledger<V>, ops: seq<Op<V>>, first: seq<V>, rest: seq<V>)
    requires Conserved(l) && Owned(l.balances, first + rest) && Names(ops, first)
    ensures ExecuteAll(l, ops).Some?
    ensures var m := ExecuteAll(l, ops).value; Conserved(m) && Owned(l.balances, first) && Owned(m.balances, rest)
  {
    var all := first + rest;
    assert forall i :: 0 <= i < |first| ==> first[i] == all[i];
    assert forall i :: 0 <= i < |rest| ==> rest[i] == all[|first| + i];
    RemovalsExactly(l, ops);
  }

  /** A nested burn of a list of resources, with what its first element leaves for the rest. */
  lemma BurnFirst<V>(l: Ledger<V>, rs: seq<Resource<V>>)
    requires rs != [] && Conserved(l) && Owned(l.balances, VaultsOf(rs))
    ensures Owned(l.balances, Vaults(rs[0])) && ExecuteAll(l, BurnOps(rs[0])).Some?
    ensures var m := ExecuteAll(l, BurnOps(rs[0])).value;
            && Conserved(m) && Owned(m.balances, VaultsOf(rs[1..]))
            && ExecuteAll(l, BurnOpsOf(rs)) == ExecuteAll(m, BurnOpsOf(rs[1..]))
  {
    BurnNamesVaults(rs[0]);
    RemoveFirst(l, BurnOps(rs[0]), Vaults(rs[0]), VaultsOf(rs[1..]));
    ExecuteConcat(l, BurnOps(rs[0]), BurnOpsOf(rs[1..]));
  }

  /** The burn of another contract's burnable resource: what its callback burns, and what it leaves to be destroyed. */
  lemma BurnReleased<V>(l: Ledger<V>, released: seq<Resource<V>>, fields: seq<Resource<V>>)
    requires Conserved(l) && Owned(l.balances, VaultsOf(released) + VaultsOf(fields))
    ensures Owned(l.balances, VaultsOf(released)) && ExecuteAll(l, BurnOpsOf(released)).Some?
    ensures var m := ExecuteAll(l, BurnOpsOf(released)).value;
            && Conserved(m) && Owned(m.balances, VaultsOf(fields))
            && ExecuteAll(l, BurnOps(Burnable(released, fields))) == ExecuteAll(m, Destructions(VaultsOf(fields)))
  {
    BurnNamesVaultsOf(released);
    RemoveFirst(l, BurnOpsOf(released), VaultsOf(released), VaultsOf(fields));
    ExecuteConcat(l, BurnOpsOf(released), Destructions(VaultsOf(fields)));
  }

  // Containers and other resources

  /** The summed balance of these vaults. */
  function Total<V>(balances: map<V, nat>, vaults: seq<V>): nat {
    if vaults == [] then 0
    else (if vaults[0] in balances then balances[vaults[0]] else 0) + Total(balances, vaults[1..])
  }

  /** Nothing inside but vaults, arrays, dictionaries and nil. */
  predicate Plain<V>(r: Resource<V>)
    decreases r, 1
  {
    match r
    case Nothing => true
    case VaultResource(_) => true
    case Array(items) => AllPlain(items)
    case Dictionary(values) => AllPlain(values)
    case Burnable(_, _) => false
    case Other(_) => false
  }

  predicate AllPlain<V>(rs: seq<Resource<V>>)
    decreases rs, 0
  {
    rs == [] || (Plain(rs[0]) && AllPlain(rs[1..]))
  }

  predicate AllBurn<V>(ops: seq<Op<V>>) {
    forall i :: 0 <= i < |ops| ==> ops[i].Burn?
  }

  lemma {:induction false} PlainBurns<V>(r: Resource<V>)
    requires Plain(r)
    ensures AllBurn(BurnOps(r))
    decreases r, 1
  {
    match r
    case Array(items) => AllPlainBurn(items);
    case Dictionary(values) => AllPlainBurn(values);
    case _ =>
  }

  lemma {:induction false} AllPlainBurn<V>(rs: seq<Resource<V>>)
    requires AllPlain(rs)
    ensures AllBurn(BurnOpsOf(rs))
    decreases rs, 0
  {
    if rs != [] {
      PlainBurns(rs[0]);
      AllPlainBurn(rs[1..]);
    }
  }

  lemma {:induction false} BurnsTotal<V>(balances: map<V, nat>, ops: seq<Op<V>>, vaults: seq<V>)
    requires Names(ops, vaults) && AllBurn(ops)
    ensures Burned(balances, ops) == Total(balances, vaults)
  {
    if ops != [] {
      BurnsTotal(balances, ops[1..], vaults[1..]);
    }
  }

  lemma {:induction false} BurnsLoseNothing<V>(l: Ledger<V>, ops: seq<Op<V>>)
    requires AllBurn(ops) && ExecuteAll(l, ops).Some?
    ensures ExecuteAll(l, ops).value.lost == l.lost
    decreases |ops|
  {
    if ops != [] {
      BurnsLoseNothing(Execute(l, ops[0]).value, ops[1..]);
    }
  }

  /**
    Burning arrays and dictionaries of vaults, however nested, lowers the supply by all they hold, and
    loses nothing.
   */
  lemma PlainBurnsAll<V>(l: Ledger<V>, r: Resource<V>)
    requires Conserved(l) && Owned(l.balances, Vaults(r)) && Plain(r)
    ensures ExecuteAll(l, BurnOps(r)).Some?
    ensures var m := ExecuteAll(l, BurnOps(r)).value;
            m.supply + Total(l.balances, Vaults(r)) == l.supply && m.lost == l.lost
  {
    BurnNamesVaults(r);
    PlainBurns(r);
    RemovalsExactly(l, BurnOps(r));
    BurnsTotal(l.balances, BurnOps(r), Vaults(r));
    BurnsLoseNothing(l, BurnOps(r));
  }

  /** Burning any other resource leaves the supply as it is, whatever is inside. */
  lemma OtherBurnsNothing<V>(l: Ledger<V>, fields: seq<Resource<V>>)
    requires Conserved(l) && Owned(l.balances, VaultsOf(fields))
    ensures ExecuteAll(l, BurnOps(Other(fields))).Some?
    ensures ExecuteAll(l, BurnOps(Other(fields))).value.supply == l.supply
  {
    BurnExactly(l, Other(fields));
  }

  function Wrapped<V>(vaults: seq<V>): seq<Resource<V>> {
    seq(|vaults|, i requires 0 <= i < |vaults| => VaultResource(vaults[i]))
  }

  lemma {:induction false} VaultsOfWrapped<V>(vaults: seq<V>)
    ensures VaultsOf(Wrapped(vaults)) == vaults && AllPlain(Wrapped(vaults))
  {
    if vaults != [] {
      assert Wrapped(vaults)[1..] == Wrapped(vaults[1..]);
      VaultsOfWrapped(vaults[1..]);
    }
  }

  /** In particular a burned array or dictionary of vaults takes the sum of their balances off the supply. */
  lemma ContainerOfVaults<V>(l: Ledger<V>, vaults: seq<V>, keyed: bool)
    requires Conserved(l) && Owned(l.balances, vaults)
    ensures var r := if keyed then Dictionary(Wrapped(vaults)) else Array(Wrapped(vaults));
            && ExecuteAll(l, BurnOps(r)).Some?
            && ExecuteAll(l, BurnOps(r)).value.supply + Total(l.balances, vaults) == l.supply
  {
    VaultsOfWrapped(vaults);
    PlainBurnsAll(l, if keyed then Dictionary(Wrapped(vaults)) else Array(Wrapped(vaults)));
  }
}
