/**
  The TestToken contract: destroying a vault always lowers the supply, and minters mint against an
  allowance.
 */
module TestTokens {
  import opened Prelude
  import opened TokenLedger

  /** A ledger, the allowances of the minters, and for the statements below what was ever granted and burned. */
  datatype State<V, M> = State(ledger: Ledger<V>, allowances: map<M, nat>, granted: nat, burned: nat)

  datatype TestOp<V, M> =
    | CreateMinter(minter: M, allowed: nat)
    | MintTokens(minter: M, vault: V, amount: nat)
    | Transfer(op: Op<V>)      // creating, withdrawing and depositing
    | DestroyVault(vault: V)   // by anyone, or through the burner

  predicate Possible<V, M>(s: State<V, M>, op: TestOp<V, M>) {
    match op
    case CreateMinter(m, _) => m !in s.allowances
    case MintTokens(m, v, _) => m in s.allowances && v !in s.ledger.balances
    case Transfer(t) => (t.CreateEmpty? || t.Withdraw? || t.Deposit?) && Linear(s.ledger, t)
    case DestroyVault(v) => v in s.ledger.balances
  }

  function Perform<V, M>(s: State<V, M>, op: TestOp<V, M>): Option<State<V, M>>
    requires Possible(s, op)
  {
    match op
    case CreateMinter(m, allowed) => Some(s.(allowances := s.allowances[m := allowed], granted := s.granted + allowed))
    case MintTokens(m, v, amount) =>
      if !(0 < amount <= s.allowances[m]) then None
      else
        (match TokenLedger.Execute(s.ledger, Mint(v, amount))
         case None => None
         case Some(l) => Some(s.(ledger := l, allowances := s.allowances[m := s.allowances[m] - amount])))
    case Transfer(t) =>
      (match TokenLedger.Execute(s.ledger, t)
       case None => None
       case Some(l) => Some(s.(ledger := l)))
    case DestroyVault(v) =>
      (match TokenLedger.Execute(s.ledger, Burn(v))
       case None => None
       case Some(l) => Some(s.(ledger := l, burned := s.burned + s.ledger.balances[v])))
  }

  /** The vaults hold exactly the supply, and every unit ever granted is in circulation, burned or still mintable. */
  ghost predicate Balanced<V, M>(s: State<V, M>) {
    && Conserved(s.ledger) && s.ledger.lost == 0
    && s.ledger.supply + s.burned + Sum(s.allowances) == s.granted
  }

  lemma PerformBalances<V, M>(s: State<V, M>, op: TestOp<V, M>)
    requires Balanced(s) && Possible(s, op) && Perform(s, op).Some?
    ensures Balanced(Perform(s, op).value)
  {
    match op
    case CreateMinter(m, allowed) => SumUpdate(s.allowances, m, allowed);
    case MintTokens(m, v, amount) =>
      ExecuteConserves(s.ledger, Mint(v, amount));
      SumUpdate(s.allowances, m, s.allowances[m] - amount);
    case Transfer(t) => ExecuteConserves(s.ledger, t);
    case DestroyVault(v) => ExecuteConserves(s.ledger, Burn(v));
  }

  predicate ValidRun<V, M>(s: State<V, M>, ops: seq<TestOp<V, M>>)
    decreases |ops|, 0
  {
    ops == [] || (ValidRun(s, ops[..|ops| - 1]) && Possible(After(s, ops[..|ops| - 1]), ops[|ops| - 1]))
  }

  function After<V, M>(s: State<V, M>, ops: seq<TestOp<V, M>>): State<V, M>
    requires ValidRun(s, ops)
    decreases |ops|, 1
  {
    if ops == [] then s
    else
      var t := After(s, ops[..|ops| - 1]);
      match Perform(t, ops[|ops| - 1])
      case None => t
      case Some(u) => u
  }

  function Start<V, M>(v: V): State<V, M> {
    State(TokenLedger.Initial(v, 0), map[], 0, 0)
  }

  /** In every reachable state the vaults hold exactly the supply, which never exceeds what the minters were granted. */
  lemma {:induction false} SupplyIsExact<V, M>(v: V, ops: seq<TestOp<V, M>>)
    requires ValidRun(Start<V, M>(v), ops)
    ensures var s := After(Start<V, M>(v), ops);
            Balanced(s) && Sum(s.ledger.balances) == s.ledger.supply <= s.granted
  {
    if ops == [] {
      SumUpdate(map[], v, 0);
      assert map[][v := 0] == Start<V, M>(v).ledger.balances;
    } else {
      SupplyIsExact(v, ops[..|ops| - 1]);
      var s, op := After(Start<V, M>(v), ops[..|ops| - 1]), ops[|ops| - 1];
      if Perform(s, op).Some? {
        PerformBalances(s, op);
      }
    }
  }

  class Vault {
    var balance: nat

    constructor (balance: nat)
      ensures this.balance == balance
    {
      this.balance := balance;
    }
  }

  class Minter {
    var allowedAmount: nat

    constructor (allowedAmount: nat)
      ensures this.allowedAmount == allowedAmount
    {
      this.allowedAmount := allowedAmount;
    }
  }

  class TestToken {
    var totalSupply: nat
    const storedVault: Vault
    ghost var vaults: set<Vault>
    ghost var minters: set<Minter>
    ghost var granted: nat
    ghost var burned: nat

    ghost function View(): State<Vault, Minter>
      reads this, vaults, minters
    {
      State(Ledger(totalSupply, map v | v in vaults :: v.balance, 0),
            map m | m in minters :: m.allowedAmount, granted, burned)
    }

    ghost predicate Valid()
      reads this, vaults, minters
    {
      Balanced(View())
    }

    constructor ()
      ensures Valid() && fresh(vaults) && View() == Start(storedVault)
    {
      var vault := new Vault(0);
      totalSupply, storedVault := 0, vault;
      vaults, minters, granted, burned := {vault}, {}, 0, 0;
      new;
      assert View().ledger.balances == map[vault := 0] == map[][vault := 0];
      assert View().allowances == map[];
      SumUpdate(map[], vault, 0);
    }

    method CreateNewMinter(allowedAmount: nat) returns (minter: Minter)
      requires Valid()
      modifies this`minters, this`granted
      ensures Valid() && fresh(minter)
      ensures Perform(old(View()), CreateMinter(minter, allowedAmount)) == Some(View())
      ensures minter in minters && minter.allowedAmount == allowedAmount
    {
      ghost var before := View();
      minter := new Minter(allowedAmount);
      minters := minters + {minter};
      granted := granted + allowedAmount;
      assert View().allowances == before.allowances[minter := allowedAmount];
      assert View().ledger == before.ledger;
      PerformBalances(before, CreateMinter(minter, allowedAmount));
    }

    /** Aborts on a zero amount, beyond the allowance, or if the supply would overflow. */
    method Mint(minter: Minter, amount: nat) returns (ok: bool, vault: Vault)
      requires Valid() && minter in minters
      modifies this`totalSupply, this`vaults, minter
      ensures Valid() && fresh(vault)
      ensures ok <==> 0 < amount <= old(minter.allowedAmount) && old(totalSupply) + amount <= UFIX64_MAX
      ensures if ok then Perform(old(View()), MintTokens(minter, vault, amount)) == Some(View())
              else View() == old(View())
      ensures ok ==>
        && vault in vaults && vault.balance == amount && totalSupply == old(totalSupply) + amount
        && minter.allowedAmount + amount == old(minter.allowedAmount)
    {
      ghost var before := View();
      vault := new Vault(amount);
      if !(amount > 0 && amount <= minter.allowedAmount) {
        return false, vault;
      }
      var supply := CheckedAdd(totalSupply, amount);
      if supply.None? {
        return false, vault;
      }
      totalSupply := supply.value;
      minter.allowedAmount := minter.allowedAmount - amount;
      vaults := vaults + {vault};
      assert View().ledger.balances == before.ledger.balances[vault := amount];
      assert View().allowances == before.allowances[minter := minter.allowedAmount];
      PerformBalances(before, MintTokens(minter, vault, amount));
      ok := true;
    }

    /** The deposited vault is emptied before its destructor runs, which then subtracts nothing. */
    method Deposit(into: Vault, from: Vault)
      requires Valid() && into in vaults && from in vaults && into != from
      modifies this`vaults, this`totalSupply, into, from
      ensures Valid()
      ensures Perform(old(View()), Transfer(TokenLedger.Deposit(into, from))) == Some(View())
      ensures into.balance == old(into.balance) + old(from.balance) && from.balance == 0
      ensures totalSupply == old(totalSupply) && vaults == old(vaults) - {from}
    {
      ghost var before := View();
      ghost var op := TokenLedger.Deposit(into, from);
      AbortsExactly(before.ledger, op);
      var total := CheckedAdd(into.balance, from.balance);
      into.balance := total.value;
      from.balance := 0;
      totalSupply := totalSupply - from.balance;
      vaults := vaults - {from};
      assert View().ledger.balances == before.ledger.balances[into := total.value] - {from};
      assert View().allowances == before.allowances;
      PerformBalances(before, Transfer(op));
    }

    /** The destructor: any destruction is a burn. The supply never underflows. */
    method Destroy(vault: Vault)
      requires Valid() && vault in vaults
      modifies this`vaults, this`totalSupply, this`burned
      ensures Valid()
      ensures Perform(old(View()), DestroyVault(vault)) == Some(View())
      ensures totalSupply + vault.balance == old(totalSupply) && vaults == old(vaults) - {vault}
    {
      ghost var before := View();
      AbortsExactly(before.ledger, Burn(vault));
      var supply := CheckedSub(totalSupply, vault.balance);
      totalSupply := supply.value;
      vaults := vaults - {vault};
      burned := burned + vault.balance;
      assert View().ledger.balances == before.ledger.balances - {vault};
      assert View().allowances == before.allowances;
      PerformBalances(before, DestroyVault(vault));
    }
  }
}
