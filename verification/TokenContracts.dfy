/**
  The FUSD and FlowToken contracts as mutable objects: vaults with a balance, and a contract with a
  total supply. The two differ only in that FUSD zeroes a vault before consuming it in a deposit.
  Every method is tied to an operation of the ledger.
 */
module TokenContracts {
  import opened Prelude
  import opened TokenLedger
  import opened BurnTree

  class Vault {
    var balance: nat

    constructor (balance: nat)
      ensures this.balance == balance
    {
      this.balance := balance;
    }
  }

  class Contract {
    const zeroesDeposited: bool
    var totalSupply: nat
    const storedVault: Vault
    /** The vaults in existence, and the balances destroyed without a burn. */
    ghost var vaults: set<Vault>
    ghost var lost: nat

    ghost function View(): Ledger<Vault>
      reads this, vaults
    {
      Ledger(totalSupply, map v | v in vaults :: v.balance, lost)
    }

    ghost predicate Valid()
      reads this, vaults
    {
      Conserved(View())
    }

    /** `init`: the whole initial supply goes to the vault in the contract account's storage. */
    constructor (zeroesDeposited: bool)
      ensures Valid() && fresh(vaults) && this.zeroesDeposited == zeroesDeposited
      ensures vaults == {storedVault} && View() == Initial(storedVault, INITIAL_SUPPLY)
      ensures totalSupply == storedVault.balance == 1000_0000_0000
    {
      this.zeroesDeposited := zeroesDeposited;
      totalSupply := INITIAL_SUPPLY;
      var vault := new Vault(INITIAL_SUPPLY);
      storedVault := vault;
      vaults := {vault};
      lost := 0;
      new;
      assert View().balances == map[vault := INITIAL_SUPPLY];
      assert map[][vault := INITIAL_SUPPLY] == map[vault := INITIAL_SUPPLY];
      SumUpdate(map[], vault, INITIAL_SUPPLY);
    }

    /** Aborts if the supply would overflow. */
    method MintTokens(amount: nat) returns (ok: bool, vault: Vault)
      requires Valid()
      modifies this
      ensures Valid() && fresh(vault) && vault !in old(vaults)
      ensures ok <==> old(totalSupply) + amount <= UFIX64_MAX
      ensures if ok then Execute(old(View()), Mint(vault, amount)) == Some(View()) else View() == old(View())
      ensures ok ==> vault in vaults && vault.balance == amount && totalSupply == old(totalSupply) + amount
      ensures forall v :: v in old(vaults) ==> v in vaults && v.balance == old(v.balance)
    {
      ghost var before := View();
      vault := new Vault(amount);
      var supply := CheckedAdd(totalSupply, amount);
      if supply.None? {
        return false, vault;
      }
      totalSupply := supply.value;
      vaults := vaults + {vault};
      assert View().balances == before.balances[vault := amount];
      ExecuteConserves(before, Mint(vault, amount));
      ok := true;
    }

    method CreateEmptyVault() returns (vault: Vault)
      requires Valid()
      modifies this`vaults
      ensures Valid() && fresh(vault)
      ensures Execute(old(View()), CreateEmpty(vault)) == Some(View())
      ensures vaults == old(vaults) + {vault} && vault.balance == 0
    {
      ghost var before := View();
      vault := new Vault(0);
      vaults := vaults + {vault};
      assert View().balances == before.balances[vault := 0];
      ExecuteConserves(before, CreateEmpty(vault));
    }

    /** Aborts if the vault holds less than the amount. */
    method Withdraw(from: Vault, amount: nat) returns (ok: bool, vault: Vault)
      requires Valid() && from in vaults
      modifies this`vaults, from
      ensures Valid() && fresh(vault)
      ensures ok <==> amount <= old(from.balance)
      ensures if ok then Execute(old(View()), TokenLedger.Withdraw(from, amount, vault)) == Some(View())
              else View() == old(View())
      ensures ok ==>
        && vault in vaults && vault.balance == amount && from in vaults && from.balance + amount == old(from.balance)
        && totalSupply == old(totalSupply)
      ensures forall v :: v in old(vaults) && v != from ==> v in vaults && v.balance == old(v.balance)
    {
      ghost var before := View();
      vault := new Vault(amount);
      var rest := CheckedSub(from.balance, amount);
      if rest.None? {
        return false, vault;
      }
      from.balance := rest.value;
      vaults := vaults + {vault};
      assert View().balances == before.balances[from := rest.value][vault := amount];
      ExecuteConserves(before, TokenLedger.Withdraw(from, amount, vault));
      ok := true;
    }

    /** Consumes `from`. The sum never overflows, so a deposit never aborts. */
    method Deposit(into: Vault, from: Vault)
      requires Valid() && into in vaults && from in vaults && into != from
      modifies this`vaults, into, from
      ensures Valid()
      ensures Execute(old(View()), TokenLedger.Deposit(into, from)) == Some(View())
      ensures from.balance == if zeroesDeposited then 0 else old(from.balance)
      ensures vaults == old(vaults) - {from} && into.balance == old(into.balance) + old(from.balance)
      ensures forall v :: v in vaults && v != into ==> v.balance == old(v.balance)
    {
      ghost var before := View();
      AbortsExactly(before, TokenLedger.Deposit(into, from));
      var total := CheckedAdd(into.balance, from.balance);
      into.balance := total.value;
      if zeroesDeposited {
        from.balance := 0;
      }
      vaults := vaults - {from};
      assert View().balances == before.balances[into := total.value] - {from};
      ExecuteConserves(before, TokenLedger.Deposit(into, from));
    }

    /** The callback of a burn, and the destruction that follows it. The supply never underflows. */
    method BurnVault(vault: Vault)
      requires Valid() && vault in vaults
      modifies this, vault
      ensures Valid() && vaults == old(vaults) - {vault}
      ensures Execute(old(View()), TokenLedger.Burn(vault)) == Some(View())
      ensures totalSupply + old(vault.balance) == old(totalSupply) && vault.balance == 0
      ensures forall v :: v in vaults ==> v.balance == old(v.balance)
    {
      ghost var before := View();
      AbortsExactly(before, TokenLedger.Burn(vault));
      if vault.balance > 0 {
        var supply := CheckedSub(totalSupply, vault.balance);
        totalSupply := supply.value;
      }
      vault.balance := 0;
      vaults := vaults - {vault};
      assert View().balances == before.balances - {vault};
      ExecuteConserves(before, TokenLedger.Burn(vault));
    }

    /** Plain destruction runs no callback. */
    ghost method DestroyVault(vault: Vault)
      requires Valid() && vault in vaults
      modifies this`vaults, this`lost
      ensures Valid() && vaults == old(vaults) - {vault}
      ensures Execute(old(View()), Destroy(vault)) == Some(View())
    {
      ghost var before := View();
      vaults := vaults - {vault};
      lost := lost + vault.balance;
      assert View().balances == before.balances - {vault};
      ExecuteConserves(before, Destroy(vault));
    }

    /** `Burner.burn`: empties containers element by element, and destroys what it does not know. */
    method Burn(r: Resource<Vault>)
      requires Valid() && Owned(View().balances, Vaults(r))
      modifies this, vaults
      ensures Valid() && vaults <= old(vaults)
      ensures ExecuteAll(old(View()), BurnOps(r)) == Some(View())
      ensures forall v :: v in vaults ==> v.balance == old(v.balance)
      decreases r, 1
    {
      match r
      case Nothing =>
      case VaultResource(v) =>
        assert Vaults(r)[0] == v;
        BurnVault(v);
      case Array(items) => BurnItems(items);
      case Dictionary(values) => BurnItems(values);
      case Burnable(released, fields) =>
        BurnReleased(View(), released, fields);
        BurnItems(released);
        DestroyAll(VaultsOf(fields));
      case Other(fields) => DestroyAll(VaultsOf(fields));
    }

    /** The loop over a container: take the first element out, and burn it. */
    method BurnItems(items: seq<Resource<Vault>>)
      requires Valid() && Owned(View().balances, VaultsOf(items))
      modifies this, vaults
      ensures Valid() && vaults <= old(vaults)
      ensures ExecuteAll(old(View()), BurnOpsOf(items)) == Some(View())
      ensures forall v :: v in vaults ==> v.balance == old(v.balance)
      decreases items, 0
    {
      var rest := items;
      ghost var taken := 0;
      while rest != []
        invariant 0 <= taken <= |items| && rest == items[taken..]
        invariant Valid() && vaults <= old(vaults) && Owned(View().balances, VaultsOf(rest))
        invariant ExecuteAll(View(), BurnOpsOf(rest)) == ExecuteAll(old(View()), BurnOpsOf(items))
        invariant forall v :: v in vaults ==> v.balance == old(v.balance)
        decreases |rest|
      {
        BurnFirst(View(), rest);
        var item := rest[0];
        Burn(item);
        rest := rest[1..];
        taken := taken + 1;
      }
    }

    ghost method DestroyAll(dead: seq<Vault>)
      requires Valid() && Owned(View().balances, dead)
      modifies this`vaults, this`lost
      ensures Valid() && vaults <= old(vaults)
      ensures ExecuteAll(old(View()), Destructions(dead)) == Some(View())
    {
      if dead != [] {
        DestroyVault(dead[0]);
        assert Destructions(dead)[1..] == Destructions(dead[1..]);
        DestroyAll(dead[1..]);
      }
    }
  }
}
