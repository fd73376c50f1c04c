/**
  The accounting of a fungible token contract: a total supply and the balances of all vaults in
  existence, in units of 1e-8. Arithmetic on UFix64 is checked; a violation aborts the transaction,
  which then has no effect.
 */
module TokenLedger {
  import opened Prelude

  const UFIX64_MAX: nat := 0xFFFF_FFFF_FFFF_FFFF
  const INITIAL_SUPPLY: nat := 1000_0000_0000

  function CheckedAdd(x: nat, y: nat): Option<nat> {
    if x + y <= UFIX64_MAX then Some(x + y) else None
  }

  function CheckedSub(x: nat, y: nat): Option<nat> {
    if y <= x then Some((x - y) as nat) else None
  }

  /** `lost` records, for the statements below, the balances destroyed without a burn. */
  datatype Ledger<V> = Ledger(supply: nat, balances: map<V, nat>, lost: nat)

  ghost function Sum<V>(balances: map<V, nat>): nat {
    if balances == map[] then 0 else
      var v :| v in balances;
      balances[v] + Sum(balances - {v})
  }

  lemma {:induction false} SumRemove<V>(balances: map<V, nat>, v: V)
    requires v in balances
    ensures Sum(balances) == balances[v] + Sum(balances - {v})
    decreases |balances|
  {
    var w :| w in balances && Sum(balances) == balances[w] + Sum(balances - {w});
    if w != v {
      SumRemove(balances - {w}, v);
      SumRemove(balances - {v}, w);
      assert balances - {w} - {v} == balances - {v} - {w};
    }
  }

  lemma SumUpdate<V>(balances: map<V, nat>, v: V, x: nat)
    ensures Sum(balances[v := x]) == Sum(balances) + x - if v in balances then balances[v] else 0
  {
    SumRemove(balances[v := x], v);
    assert balances[v := x] - {v} == balances - {v};
    if v in balances {
      SumRemove(balances, v);
    } else {
      assert balances - {v} == balances;
    }
  }

  /** The contract's operations; `new` is the vault an operation creates. */
  datatype Op<V> =
    | Mint(new': V, amount: nat)
    | CreateEmpty(new': V)
    | Withdraw(from: V, amount: nat, new': V)
    | Deposit(into: V, from: V)
    | Burn(vault: V)
    | Destroy(vault: V)

  /** Vaults are resources: a new one is unlike all others, and one in use exists and is not used twice. */
  predicate Linear<V>(l: Ledger<V>, op: Op<V>) {
    match op
    case Mint(v, _) => v !in l.balances
    case CreateEmpty(v) => v !in l.balances
    case Withdraw(from, _, v) => from in l.balances && v !in l.balances
    case Deposit(into, from) => into in l.balances && from in l.balances && into != from
    case Burn(v) => v in l.balances
    case Destroy(v) => v in l.balances
  }

  /** The effect of one operation, or none if it aborts. */
  function Execute<V>(l: Ledger<V>, op: Op<V>): Option<Ledger<V>>
    requires Linear(l, op)
  {
    match op
    case Mint(v, amount) =>
      (match CheckedAdd(l.supply, amount)
       case None => None
       case Some(supply) => Some(l.(supply := supply, balances := l.balances[v := amount])))
    case CreateEmpty(v) => Some(l.(balances := l.balances[v := 0]))
    case Withdraw(from, amount, v) =>
      (match CheckedSub(l.balances[from], amount)
       case None => None
       case Some(rest) => Some(l.(balances := l.balances[from := rest][v := amount])))
    case Deposit(into, from) =>
      (match CheckedAdd(l.balances[into], l.balances[from])
       case None => None
       case Some(total) => Some(l.(balances := l.balances[into := total] - {from})))
    case Burn(v) =>
      (match CheckedSub(l.supply, l.balances[v])
       case None => None
       case Some(supply) => Some(l.(supply := supply, balances := l.balances - {v})))
    case Destroy(v) => Some(l.(balances := l.balances - {v}, lost := l.lost + l.balances[v]))
  }

  /** Every unit of supply is in exactly one vault, or was destroyed without a burn. */
  ghost predicate Conserved<V>(l: Ledger<V>) {
    l.supply == Sum(l.balances) + l.lost && l.supply <= UFIX64_MAX
  }

  lemma BalanceBound<V>(l: Ledger<V>, v: V)
    requires Conserved(l) && v in l.balances
    ensures l.balances[v] <= l.supply
  {
    SumRemove(l.balances, v);
  }

  lemma ExecuteConserves<V>(l: Ledger<V>, op: Op<V>)
    requires Conserved(l) && Linear(l, op) && Execute(l, op).Some?
    ensures Conserved(Execute(l, op).value)
  {
    match op
    case Mint(v, amount) => SumUpdate(l.balances, v, amount);
    case CreateEmpty(v) => SumUpdate(l.balances, v, 0);
    case Withdraw(from, amount, v) =>
      SumUpdate(l.balances, from, l.balances[from] - amount);
      SumUpdate(l.balances[from := l.balances[from] - amount], v, amount);
    case Deposit(into, from) =>
      var total := l.balances[into] + l.balances[from];
      SumUpdate(l.balances, into, total);
      SumRemove(l.balances[into := total], from);
    case Burn(v) => SumRemove(l.balances, v);
    case Destroy(v) => SumRemove(l.balances, v);
  }

  /** Deposits never overflow and burns never underflow; minting and withdrawing abort only as they should. */
  lemma AbortsExactly<V>(l: Ledger<V>, op: Op<V>)
    requires Conserved(l) && Linear(l, op)
    ensures Execute(l, op).None? <==>
      || (op.Mint? && l.supply + op.amount > UFIX64_MAX)
      || (op.Withdraw? && op.amount > l.balances[op.from])
  {
    match op
    case Deposit(into, from) =>
      SumRemove(l.balances, into);
      SumRemove(l.balances - {into}, from);
    case Burn(v) => BalanceBound(l, v);
    case _ =>
  }

  // Who gets what

  /** A mint that does not abort makes a vault of exactly the amount. */
  lemma MintGives<V>(l: Ledger<V>, v: V, amount: nat)
    requires Linear(l, Mint(v, amount)) && Execute(l, Mint(v, amount)).Some?
    ensures var m := Execute(l, Mint(v, amount)).value;
            && v in m.balances && m.balances[v] == amount && m.supply == l.supply + amount && m.lost == l.lost
  {
  }

  /**
    A withdrawal that does not abort lowers the vault by exactly the amount, and makes a vault of exactly
    the amount.
   */
  lemma WithdrawGives<V>(l: Ledger<V>, from: V, amount: nat, v: V)
    requires Linear(l, Withdraw(from, amount, v)) && Execute(l, Withdraw(from, amount, v)).Some?
    ensures var m := Execute(l, Withdraw(from, amount, v)).value;
            && v in m.balances && m.balances[v] == amount
            && from in m.balances && m.balances[from] + amount == l.balances[from]
            && m.supply == l.supply && m.lost == l.lost
  {
  }

  /** A deposit that does not abort raises the vault by what the other one held, which is gone. */
  lemma DepositGives<V>(l: Ledger<V>, into: V, from: V)
    requires Linear(l, Deposit(into, from)) && Execute(l, Deposit(into, from)).Some?
    ensures var m := Execute(l, Deposit(into, from)).value;
            && into in m.balances && m.balances[into] == l.balances[into] + l.balances[from] && from !in m.balances
            && m.supply == l.supply && m.lost == l.lost
  {
  }

  /** An empty vault is empty, a burned or destroyed one is gone; only a burn lowers the supply. */
  lemma OthersGive<V>(l: Ledger<V>, v: V)
    ensures v !in l.balances ==>
      && Execute(l, CreateEmpty(v)).Some?
      && var m := Execute(l, CreateEmpty(v)).value;
         v in m.balances && m.balances[v] == 0 && m.supply == l.supply && m.lost == l.lost
    ensures v in l.balances && l.balances[v] <= l.supply ==>
      && Execute(l, Burn(v)).Some?
      && var m := Execute(l, Burn(v)).value;
         v !in m.balances && m.supply + l.balances[v] == l.supply && m.lost == l.lost
    ensures v in l.balances ==>
      && Execute(l, Destroy(v)).Some?
      && var m := Execute(l, Destroy(v)).value;
         v !in m.balances && m.supply == l.supply && m.lost == l.lost + l.balances[v]
  {
  }

  /** The operation is given this vault, or makes it. */
  predicate Concerns<V(==)>(op: Op<V>, v: V) {
    match op
    case Mint(u, _) => v == u
    case CreateEmpty(u) => v == u
    case Withdraw(from, _, u) => v == from || v == u
    case Deposit(into, from) => v == into || v == from
    case Burn(u) => v == u
    case Destroy(u) => v == u
  }

  /** No operation makes, changes or removes a vault it does not name. */
  lemma OthersUnchanged<V>(l: Ledger<V>, op: Op<V>, v: V)
    requires Linear(l, op) && Execute(l, op).Some? && !Concerns(op, v)
    ensures var m := Execute(l, op).value;
            (v in m.balances <==> v in l.balances) && (v in l.balances ==> m.balances[v] == l.balances[v])
  {
  }

  /** Depositing a withdrawn vault back restores the ledger. */
  lemma WithdrawAndReturn<V>(l: Ledger<V>, from: V, amount: nat, v: V)
    requires Conserved(l) && Linear(l, Withdraw(from, amount, v)) && amount <= l.balances[from]
    ensures Execute(l, Withdraw(from, amount, v)).Some?
    ensures var m := Execute(l, Withdraw(from, amount, v)).value;
            Linear(m, Deposit(from, v)) && Execute(m, Deposit(from, v)) == Some(l)
  {
    var m := Execute(l, Withdraw(from, amount, v)).value;
    BalanceBound(l, from);
    assert m.balances[from := l.balances[from]] - {v} == l.balances;
  }

  // Runs

  /** The ledger as the contract's `init` leaves it. */
  function Initial<V>(v: V, supply: nat): Ledger<V> {
    Ledger(supply, map[v := supply], 0)
  }

  predicate ValidRun<V>(l: Ledger<V>, ops: seq<Op<V>>)
    decreases |ops|, 0
  {
    ops == [] || (ValidRun(l, ops[..|ops| - 1]) && Linear(After(l, ops[..|ops| - 1]), ops[|ops| - 1]))
  }

  /** An aborted transaction leaves the ledger as it was. */
  function After<V>(l: Ledger<V>, ops: seq<Op<V>>): Ledger<V>
    requires ValidRun(l, ops)
    decreases |ops|, 1
  {
    if ops == [] then l
    else
      var s := After(l, ops[..|ops| - 1]);
      match Execute(s, ops[|ops| - 1])
      case None => s
      case Some(t) => t
  }

  /** No vault with a balance was destroyed other than by burning it. */
  predicate NothingLost<V>(l: Ledger<V>, ops: seq<Op<V>>)
    requires ValidRun(l, ops)
  {
    ops == []
    || (&& NothingLost(l, ops[..|ops| - 1])
        && var op := ops[|ops| - 1];
           op.Destroy? ==> After(l, ops[..|ops| - 1]).balances[op.vault] == 0)
  }

  /**
    In every reachable state the vaults hold at most the supply, and exactly the supply until a non-empty
    vault is destroyed.
   */
  lemma {:induction false} SupplyCoversVaults<V>(v: V, supply: nat, ops: seq<Op<V>>)
    requires supply <= UFIX64_MAX && ValidRun(Initial(v, supply), ops)
    ensures var l := After(Initial(v, supply), ops);
            && Conserved(l) && Sum(l.balances) <= l.supply <= UFIX64_MAX
            && (Sum(l.balances) == l.supply <==> NothingLost(Initial(v, supply), ops))
  {
    if ops == [] {
      SumUpdate(map[], v, supply);
      assert map[][v := supply] == Initial(v, supply).balances;
    } else {
      SupplyCoversVaults(v, supply, ops[..|ops| - 1]);
      var s, op := After(Initial(v, supply), ops[..|ops| - 1]), ops[|ops| - 1];
      if Execute(s, op).Some? {
        ExecuteConserves(s, op);
      }
    }
  }
}
