/**
  The token service as an object over its three tables, and the handler that turns dispatched chain
  events into deposit registrations.
 */
module TokenService {
  import opened Prelude
  import opened Tokens
  import opened Deposits

  class Service {
    var transactions: map<string, TxRow>
    var accountTokens: map<(string, string, string), TokenType>
    var transfers: seq<Transfer>

    function Tables(): Db
      reads this
    {
      Db(transactions, accountTokens, transfers)
    }

    constructor (db: Db)
      ensures Tables() == db
    {
      transactions, accountTokens, transfers := db.transactions, db.accountTokens, db.transfers;
    }

    method GetOrCreateTransaction(txId: string) returns (t: TxRow)
      modifies this`transactions
      ensures t == if txId in old(transactions) then old(transactions)[txId] else TxRow(Unknown, "")
      ensures transactions == old(transactions)[txId := t]
    {
      if txId !in transactions {
        transactions := transactions[txId := TxRow(Unknown, "")];
      }
      t := transactions[txId];
    }

    method InsertAccountToken(key: (string, string, string), typ: TokenType) returns (ok: bool)
      modifies this`accountTokens
      ensures ok <==> (key in old(accountTokens) ==> old(accountTokens)[key] == typ)
      ensures accountTokens == if ok then old(accountTokens)[key := typ] else old(accountTokens)
    {
      if key in accountTokens && accountTokens[key] != typ {
        return false;
      }
      accountTokens := accountTokens[key := typ];
      ok := true;
    }

    method TokenDeposit(d: Deposit) returns (found: bool)
      ensures found <==> FindsDeposit(Tables(), d)
    {
      var txType := TransferType(d.token.typ);
      if txType.None? || d.txId !in transactions || transactions[d.txId].typ != txType.value {
        return false;
      }
      found := false;
      for i := 0 to |transfers|
        invariant found <==> HasKey(transfers[..i], DepositKey(d))
      {
        assert transfers[..i + 1] == transfers[..i] + [transfers[i]];
        KeyOfExtension(transfers[..i], transfers[i], DepositKey(d));
        if KeyOf(transfers[i]) == DepositKey(d) {
          found := true;
        }
      }
      assert transfers[..|transfers|] == transfers;
    }

    method RegisterDeposit(d: Deposit) returns (r: Outcome)
      modifies this
      ensures (Tables(), r) == Register(old(Tables()), d)
      ensures r == Registered ==>
        && |transfers| == |old(transfers)| + 1 && transfers[..|old(transfers)|] == old(transfers)
        && Records(d, transfers[|old(transfers)|])
      ensures r != Registered ==> transfers == old(transfers)
    {
      RegisterRecords(Tables(), d);
      var amounts := Amounts(d);
      if amounts.None? {
        return Rejected;
      }
      var transaction := GetOrCreateTransaction(d.txId);
      if d.flowTx.None? {
        assert transactions == if d.txId in old(transactions) then old(transactions)
                               else old(transactions)[d.txId := TxRow(Unknown, "")];
        return NotOnChain;
      }
      if transaction.typ == Unknown {
        transaction := TxRow(FtTransfer, d.flowTx.value.proposer);
        transactions := transactions[d.txId := transaction];
      }
      assert transactions == Stamped(old(Tables()), d.txId, d.flowTx.value.proposer).transactions;
      var inserted := InsertAccountToken(AccountTokenKey(d), d.token.typ);
      if !inserted {
        return StoreError;
      }
      var found := TokenDeposit(d);
      if found {
        return AlreadyRegistered;
      }
      if d.flowTx.value.authorizers == [] {
        return NoAuthorizer;
      }
      transfers := transfers + [TransferOf(d)];
      r := Registered;
    }

    /**
      `sent` says whether the transaction is accepted and sealed without error, `stored` whether the row of
      the transfer can be written then.
     */
    method CreateWithdrawal(w: Withdrawal, sent: bool, stored: bool) returns (ok: bool)
      modifies this`transactions, this`transfers
      ensures ok <==> sent && stored && TransferType(w.token.typ).Some? && w.txId !in old(transactions)
      ensures ok ==> Tables() == EndWithdrawal(BeginWithdrawal(old(Tables()), w), w)
      ensures ok ==>
        && w.txId in transactions && transactions[w.txId].proposer == w.sender
        && transactions[w.txId].typ == (if w.token.typ == FT then FtTransfer else NftTransfer)
        && transfers == old(transfers) + [Transfer(w.txId, w.recipient, w.sender, w.ftAmount, w.nftId, w.token.name)]
      ensures !ok ==>
        Tables() == if TransferType(w.token.typ).Some? && w.txId !in old(transactions)
                    then BeginWithdrawal(old(Tables()), w) else old(Tables())
    {
      var txType := TransferType(w.token.typ);
      if txType.None? || w.txId in transactions {
        return false;
      }
      transactions := transactions[w.txId := TxRow(txType.value, w.sender)];
      if !sent || !stored {
        return false;
      }
      transfers := transfers + [Transfer(w.txId, w.recipient, w.sender, w.ftAmount, w.nftId, w.token.name)];
      ok := true;
    }
  }
}
