/**
  Registration of token deposits seen on chain, and of withdrawals made by the wallet: the two
  writers of the `token_transfers` table.
 */
module Deposits {
  import opened Prelude
  import opened Tokens

  datatype TxType = Unknown | General | FtSetup | FtTransfer | NftSetup | NftTransfer

  /** A row of `token_transfers`. */
  datatype Transfer = Transfer(
    txId: string, recipient: string, sender: string, ftAmount: string, nftId: nat, tokenName: string)

  datatype TxRow = TxRow(typ: TxType, proposer: string)

  /** The parts of a transaction on chain that are recorded. */
  datatype FlowTx = FlowTx(proposer: string, authorizers: seq<string>)

  /** One call of `RegisterDeposit`, with the transaction the chain returns for its id, if any. */
  datatype Deposit = Deposit(
    token: Token, txId: string, recipient: string, amountOrNftId: string, flowTx: Option<FlowTx>)

  /** `accountTokens` is keyed by its unique index: account, token name and token address. */
  datatype Db = Db(
    transactions: map<string, TxRow>,
    accountTokens: map<(string, string, string), TokenType>,
    transfers: seq<Transfer>)

  /** `NoAuthorizer`: the transaction has no first authorizer to record as the sender, an index out of range. */
  datatype Outcome = Registered | AlreadyRegistered | Rejected | NotOnChain | StoreError | NoAuthorizer

  predicate IsDigit(c: char) {
    '0' <= c <= '9'
  }

  function DecimalValue(s: string): nat
    requires forall i :: 0 <= i < |s| ==> IsDigit(s[i])
  {
    if s == "" then 0 else
      assert IsDigit(s[|s| - 1]);
      10 * DecimalValue(s[..|s| - 1]) + (s[|s| - 1] as int - '0' as int)
  }

  /** Unsigned 64-bit decimals without sign or separators. */
  function ParseUint64(s: string): Option<nat> {
    if s != "" && (forall i :: 0 <= i < |s| ==> IsDigit(s[i])) && DecimalValue(s) < TWO_TO_THE_64
    then Some(DecimalValue(s))
    else None
  }

  /** The transaction type the typed lookups join on. */
  function TransferType(t: TokenType): Option<TxType> {
    match t
    case FT => Some(FtTransfer)
    case NFT => Some(NftTransfer)
    case NotSpecified => None
  }

  /** The amount and the NFT id recorded for a deposit; an unsupported token or a malformed id is an error. */
  function Amounts(d: Deposit): Option<(string, nat)> {
    match d.token.typ
    case FT => Some((d.amountOrNftId, 0))
    case NFT =>
      (match ParseUint64(d.amountOrNftId)
       case None => None
       case Some(id) => Some(("", id)))
    case NotSpecified => None
  }

  /** The identity under which a deposit is looked up. */
  datatype Key = Key(recipient: string, txId: string, tokenName: string)

  function KeyOf(t: Transfer): Key {
    Key(t.recipient, t.txId, t.tokenName)
  }

  function DepositKey(d: Deposit): Key {
    Key(d.recipient, d.txId, d.token.name)
  }

  predicate HasKey(transfers: seq<Transfer>, k: Key) {
    exists i :: 0 <= i < |transfers| && KeyOf(transfers[i]) == k
  }

  /** The lookup joins the transfer with its transaction and filters on the type the token implies. */
  predicate FindsDeposit(db: Db, d: Deposit) {
    && TransferType(d.token.typ).Some?
    && d.txId in db.transactions && db.transactions[d.txId].typ == TransferType(d.token.typ).value
    && HasKey(db.transfers, DepositKey(d))
  }

  /** The type a transaction has once a deposit of it went through: unknown ones are stamped as FT transfers. */
  function EffectiveType(db: Db, txId: string): TxType {
    if txId !in db.transactions || db.transactions[txId].typ == Unknown then FtTransfer else db.transactions[txId].typ
  }

  function Stamped(db: Db, txId: string, proposer: string): Db {
    if txId !in db.transactions || db.transactions[txId].typ == Unknown
    then db.(transactions := db.transactions[txId := TxRow(FtTransfer, proposer)])
    else db
  }

  function AccountTokenKey(d: Deposit): (string, string, string) {
    (d.recipient, d.token.name, d.token.address)
  }

  /** First-or-create, unless the unique index already holds another type. */
  predicate AccountTokenInserts(db: Db, d: Deposit) {
    AccountTokenKey(d) in db.accountTokens ==> db.accountTokens[AccountTokenKey(d)] == d.token.typ
  }

  /** There is all a transfer's row needs. */
  predicate Complete(d: Deposit) {
    Amounts(d).Some? && d.flowTx.Some? && d.flowTx.value.authorizers != []
  }

  function TransferOf(d: Deposit): Transfer
    requires Complete(d)
  {
    var (ftAmount, nftId) := Amounts(d).value;
    Transfer(d.txId, d.recipient, d.flowTx.value.authorizers[0], ftAmount, nftId, d.token.name)
  }

  /** What one registration does, step by step; the writes made before an error remain. */
  function Register(db: Db, d: Deposit): (Db, Outcome) {
    if Amounts(d).None? then (db, Rejected)
    else if d.flowTx.None? then
      (if d.txId in db.transactions then db
       else db.(transactions := db.transactions[d.txId := TxRow(Unknown, "")]), NotOnChain)
    else
      var stamped := Stamped(db, d.txId, d.flowTx.value.proposer);
      if !AccountTokenInserts(stamped, d) then (stamped, StoreError)
      else
        var enabled := stamped.(accountTokens := stamped.accountTokens[AccountTokenKey(d) := d.token.typ]);
        if FindsDeposit(enabled, d) then (enabled, AlreadyRegistered)
        else if d.flowTx.value.authorizers == [] then (enabled, NoAuthorizer)
        else (enabled.(transfers := enabled.transfers + [TransferOf(d)]), Registered)
  }

  predicate Succeeds(db: Db, d: Deposit) {
    Register(db, d).1 in {Registered, AlreadyRegistered}
  }

  /** The stored transaction type agrees with the token's type, so that a repeated lookup finds what was stored. */
  predicate Typed(db: Db, d: Deposit) {
    TransferType(d.token.typ) == Some(EffectiveType(db, d.txId))
  }

  /** Registering any deposit leaves every effective transaction type as it was. */
  lemma EffectiveTypeStable(db: Db, d: Deposit, txId: string)
    ensures EffectiveType(Register(db, d).0, txId) == EffectiveType(db, txId)
  {
  }

  /**
    A redelivered deposit changes nothing if, and only if, the transaction's effective type is the
    one the token implies. FT deposits of absent, unknown or FT transfer transactions qualify; an NFT
    deposit made outside the wallet does not, since its transaction is stamped as an FT transfer.
   */
  lemma IdempotentExactly(db: Db, d: Deposit)
    requires Succeeds(db, d)
    ensures var once := Register(db, d).0;
            && (Register(once, d).0 == once <==> Typed(db, d))
            && (!Typed(db, d) ==>
                  d.flowTx.value.authorizers != []
                  && Register(once, d).0.transfers == once.transfers + [TransferOf(d)])
  {
    var once := Register(db, d).0;
    if Typed(db, d) {
      RegisterTyped(db, d);
      KeyIsLast(db.transfers, d, once.transfers);
    }
  }

  /** An NFT that arrives from outside the wallet is stored once for every time its deposit is delivered. */
  lemma OutsideNftStoredTwice(txId: string, recipient: string, name: string, address: string, sender: string)
    ensures var db := Db(map[], map[], []);
            var d := Deposit(Token(name, address, NFT), txId, recipient, "7", Some(FlowTx(sender, [sender])));
            var t := Transfer(txId, recipient, sender, "", 7, name);
            var once := Register(db, d).0;
            && Succeeds(db, d) && once.transfers == [t]
            && Succeeds(once, d) && Register(once, d).0.transfers == [t, t]
  {
    assert "7"[..0] == "" && DecimalValue("7") == 7;
    assert ParseUint64("7") == Some(7);
    var d := Deposit(Token(name, address, NFT), txId, recipient, "7", Some(FlowTx(sender, [sender])));
    IdempotentExactly(Db(map[], map[], []), d);
  }

  /** A fungible token that arrives from outside the wallet is stored once. */
  lemma OutsideFtStoredOnce(
      txId: string, recipient: string, name: string, address: string, sender: string, amount: string)
    ensures var db := Db(map[], map[], []);
            var d := Deposit(Token(name, address, FT), txId, recipient, amount, Some(FlowTx(sender, [sender])));
            var once := Register(db, d).0;
            && Succeeds(db, d) && once.transfers == [Transfer(txId, recipient, sender, amount, 0, name)]
            && Register(once, d) == (once, AlreadyRegistered)
  {
    var d := Deposit(Token(name, address, FT), txId, recipient, amount, Some(FlowTx(sender, [sender])));
    IdempotentExactly(Db(map[], map[], []), d);
  }

  lemma KeyIsLast(before: seq<Transfer>, d: Deposit, after: seq<Transfer>)
    requires Amounts(d).Some? && d.flowTx.Some?
    requires if HasKey(before, DepositKey(d)) then after == before
             else d.flowTx.value.authorizers != [] && after == before + [TransferOf(d)]
    ensures HasKey(after, DepositKey(d))
  {
    if !HasKey(before, DepositKey(d)) {
      assert KeyOf(after[|before|]) == DepositKey(d);
    }
  }

  /** A successful typed registration adds the deposit's row exactly when its key has none. */
  lemma RegisterTyped(db: Db, d: Deposit)
    requires Succeeds(db, d) && Typed(db, d)
    ensures Amounts(d).Some? && d.flowTx.Some?
    ensures if HasKey(db.transfers, DepositKey(d)) then Register(db, d).0.transfers == db.transfers
            else d.flowTx.value.authorizers != [] && Register(db, d).0.transfers == db.transfers + [TransferOf(d)]
  {
  }

  // What one registration records

  /**
    The transfer is that of the deposit: its parties, its transaction and its token, and the amount or id
    that was deposited.
   */
  ghost predicate Records(d: Deposit, t: Transfer) {
    && t.recipient == d.recipient && t.txId == d.txId && t.tokenName == d.token.name
    && d.flowTx.Some? && d.flowTx.value.authorizers != [] && t.sender == d.flowTx.value.authorizers[0]
    && ((d.token.typ == FT && t.ftAmount == d.amountOrNftId && t.nftId == 0)
        || (d.token.typ == NFT && t.ftAmount == "" && Denotes(d.amountOrNftId, t.nftId)))
  }

  /** The text has digits alone, which denote this number of 64 bits: its decimal notation after any number of zeros. */
  ghost predicate IsDecimal(text: string, n: nat) {
    exists zeros: nat :: text == Zeros(zeros) + Decimal(n)
  }

  function Zeros(n: nat): string {
    seq(n, _ => '0')
  }

  function Decimal(n: nat): (digits: string)
    ensures digits != "" && forall i :: 0 <= i < |digits| ==> IsDigit(digits[i])
  {
    var last := ['0' + (n % 10) as char];
    if n < 10 then last else Decimal(n / 10) + last
  }

  lemma {:induction false} ZerosDecimal(zeros: nat, n: nat)
    ensures forall i :: 0 <= i < |Zeros(zeros) + Decimal(n)| ==> IsDigit((Zeros(zeros) + Decimal(n))[i])
    ensures DecimalValue(Zeros(zeros) + Decimal(n)) == n
    decreases n, zeros
  {
    var s := Zeros(zeros) + Decimal(n);
    if n < 10 {
      assert s[..|s| - 1] == Zeros(zeros);
      ZerosAreZero(zeros);
    } else {
      assert s[..|s| - 1] == Zeros(zeros) + Decimal(n / 10);
      ZerosDecimal(zeros, n / 10);
    }
  }

  lemma {:induction false} ZerosAreZero(zeros: nat)
    ensures DecimalValue(Zeros(zeros)) == 0
  {
    if zeros > 0 {
      assert Zeros(zeros)[..zeros - 1] == Zeros(zeros - 1);
      ZerosAreZero(zeros - 1);
    }
  }

  lemma {:induction false} DigitsAreDecimal(s: string) returns (zeros: nat)
    requires s != "" && forall i :: 0 <= i < |s| ==> IsDigit(s[i])
    ensures s == Zeros(zeros) + Decimal(DecimalValue(s))
  {
    var front, c := s[..|s| - 1], s[|s| - 1];
    var n := DecimalValue(s);
    assert s == front + [c] && '0' + (n % 10) as char == c;
    if front == "" {
      zeros := 0;
    } else {
      var more := DigitsAreDecimal(front);
      if DecimalValue(front) == 0 {
        zeros := more + 1;
        assert Decimal(0) == "0";
        assert front == Zeros(zeros);
      } else {
        zeros := more;
        assert n / 10 == DecimalValue(front);
      }
    }
  }

  /**
    An id is accepted exactly if it is the decimal notation of a 64-bit number, leading zeros allowed, and
    read as that number.
   */
  lemma ParseExactly(text: string, n: nat)
    ensures ParseUint64(text) == Some(n) <==> n < TWO_TO_THE_64 && IsDecimal(text, n)
  {
    if ParseUint64(text) == Some(n) {
      var zeros := DigitsAreDecimal(text);
    }
    if n < TWO_TO_THE_64 && IsDecimal(text, n) {
      var zeros: nat :| text == Zeros(zeros) + Decimal(n);
      ZerosDecimal(zeros, n);
    }
  }

  ghost predicate Denotes(text: string, n: nat) {
    n < TWO_TO_THE_64 && IsDecimal(text, n)
  }

  /** Whatever a registration meets, it adds nothing or the transfer of its deposit. */
  lemma RegisterRecords(db: Db, d: Deposit)
    ensures var after := Register(db, d).0.transfers;
            if Register(db, d).1 == Registered
            then |after| == |db.transfers| + 1 && after[..|db.transfers|] == db.transfers
                 && Records(d, after[|db.transfers|])
            else after == db.transfers
  {
    if d.token.typ == NFT && ParseUint64(d.amountOrNftId).Some? {
      ParseExactly(d.amountOrNftId, ParseUint64(d.amountOrNftId).value);
    }
  }

  /** The deposit can be recorded as far as its own data go. */
  ghost predicate WellFormed(d: Deposit) {
    d.token.typ == FT || (d.token.typ == NFT && exists n: nat :: Denotes(d.amountOrNftId, n))
  }

  lemma AmountsExactly(d: Deposit)
    ensures Amounts(d).Some? <==> WellFormed(d)
  {
    var text := d.amountOrNftId;
    if ParseUint64(text).Some? {
      ParseExactly(text, ParseUint64(text).value);
      assert Denotes(text, ParseUint64(text).value);
    }
    forall n: nat | Denotes(text, n)
      ensures ParseUint64(text) == Some(n)
    {
      ParseExactly(text, n);
    }
  }

  /**
    When a registration fails, and how: before anything is stored, without the chain's transaction, or at
    the unique index.
   */
  lemma OutcomeExactly(db: Db, d: Deposit)
    ensures var r, k := Register(db, d).1, (d.recipient, d.token.name, d.token.address);
            && (r == Rejected <==> !WellFormed(d))
            && (r == NotOnChain <==> WellFormed(d) && d.flowTx == None)
            && (r == StoreError <==>
                  WellFormed(d) && d.flowTx.Some? && k in db.accountTokens && db.accountTokens[k] != d.token.typ)
            && (r == NoAuthorizer ==> d.flowTx.Some? && d.flowTx.value.authorizers == [])
            && (r in {Registered, AlreadyRegistered, NoAuthorizer} <==> r !in {Rejected, NotOnChain, StoreError})
  {
    AmountsExactly(d);
  }

  /**
    What becomes of the transactions: the deposit's own is known afterwards, unless the deposit was rejected;
    it is stamped with the proposer on chain if nobody had typed it; all others stay.
   */
  lemma TransactionsAfter(db: Db, d: Deposit, txId: string)
    ensures var before, after := db.transactions, Register(db, d).0.transactions;
            if txId != d.txId || !WellFormed(d) || (txId in before && before[txId].typ != Unknown)
            then (txId in after <==> txId in before) && (txId in before ==> after[txId] == before[txId])
            else txId in after
                 && if d.flowTx.Some? then after[txId] == TxRow(FtTransfer, d.flowTx.value.proposer)
                    else after[txId] == if txId in before then before[txId] else TxRow(Unknown, "")
  {
    AmountsExactly(d);
  }

  /** What becomes of the account's tokens: the deposited one is enabled if nothing fails before, all others stay. */
  lemma TokensAfter(db: Db, d: Deposit, account: string, name: string, address: string)
    ensures var before, after, k := db.accountTokens, Register(db, d).0.accountTokens, (account, name, address);
            if (account, name, address) == (d.recipient, d.token.name, d.token.address) && k !in before
            then if WellFormed(d) && d.flowTx.Some? then k in after && after[k] == d.token.typ else k !in after
            else (k in after <==> k in before) && (k in before ==> after[k] == before[k])
  {
    AmountsExactly(d);
  }

  // Many deliveries

  function RegisterAll(db: Db, ds: seq<Deposit>): Db {
    if ds == [] then db else Register(RegisterAll(db, ds[..|ds| - 1]), ds[|ds| - 1]).0
  }

  predicate AllSucceed(db: Db, ds: seq<Deposit>) {
    ds == [] || (AllSucceed(db, ds[..|ds| - 1]) && Succeeds(RegisterAll(db, ds[..|ds| - 1]), ds[|ds| - 1]))
  }

  predicate AllTyped(db: Db, ds: seq<Deposit>) {
    forall d :: d in ds ==> Typed(db, d)
  }

  /** All deliveries are typed and go through without error. */
  predicate Settles(db: Db, ds: seq<Deposit>) {
    AllSucceed(db, ds) && AllTyped(db, ds)
  }

  predicate HasDeposit(ds: seq<Deposit>, k: Key) {
    exists i :: 0 <= i < |ds| && DepositKey(ds[i]) == k
  }

  predicate IsRowOf(ds: seq<Deposit>, t: Transfer) {
    exists i :: 0 <= i < |ds| && Complete(ds[i]) && t == TransferOf(ds[i])
  }

  /**
    `transfers` extends `before` by exactly one row for each key delivered that had none, taken from a
    delivery of that key.
   */
  predicate OneRowEach(before: seq<Transfer>, ds: seq<Deposit>, transfers: seq<Transfer>) {
    && before <= transfers
    && (forall i :: |before| <= i < |transfers| ==> IsRowOf(ds, transfers[i]))
    && (forall i, j :: |before| <= i < |transfers| && 0 <= j < i ==> KeyOf(transfers[i]) != KeyOf(transfers[j]))
    && (forall i :: 0 <= i < |ds| ==> HasKey(transfers, DepositKey(ds[i])))
  }

  lemma {:induction false} RegisterAllTypes(db: Db, ds: seq<Deposit>, txId: string)
    ensures EffectiveType(RegisterAll(db, ds), txId) == EffectiveType(db, txId)
  {
    if ds == [] {
    } else {
      RegisterAllTypes(db, ds[..|ds| - 1], txId);
      EffectiveTypeStable(RegisterAll(db, ds[..|ds| - 1]), ds[|ds| - 1], txId);
    }
  }

  lemma RowOfPrefix(ds: seq<Deposit>, d: Deposit, t: Transfer)
    requires IsRowOf(ds, t)
    ensures IsRowOf(ds + [d], t)
  {
    var i :| 0 <= i < |ds| && Complete(ds[i]) && t == TransferOf(ds[i]);
    assert (ds + [d])[i] == ds[i];
  }

  lemma KeyOfExtension(transfers: seq<Transfer>, t: Transfer, k: Key)
    ensures HasKey(transfers + [t], k) <==> HasKey(transfers, k) || KeyOf(t) == k
  {
    if HasKey(transfers, k) {
      var i :| 0 <= i < |transfers| && KeyOf(transfers[i]) == k;
      assert KeyOf((transfers + [t])[i]) == k;
    }
    if KeyOf(t) == k {
      assert KeyOf((transfers + [t])[|transfers|]) == k;
    }
  }

  lemma {:induction false} DeliverOne(
      before: seq<Transfer>, ds: seq<Deposit>, transfers: seq<Transfer>, d: Deposit, next: seq<Transfer>)
    requires OneRowEach(before, ds, transfers) && Amounts(d).Some? && d.flowTx.Some?
    requires if HasKey(transfers, DepositKey(d)) then next == transfers
             else d.flowTx.value.authorizers != [] && next == transfers + [TransferOf(d)]
    ensures OneRowEach(before, ds + [d], next)
  {
    forall i | |before| <= i < |transfers|
      ensures IsRowOf(ds + [d], transfers[i])
    {
      RowOfPrefix(ds, d, transfers[i]);
    }
    KeyIsLast(transfers, d, next);
    if next != transfers {
      assert (ds + [d])[|ds|] == d;
      assert IsRowOf(ds + [d], TransferOf(d));
      forall k | HasKey(transfers, k)
        ensures HasKey(next, k)
      {
        KeyOfExtension(transfers, TransferOf(d), k);
      }
    }
  }

  lemma DeliverLast(db: Db, front: seq<Deposit>, d: Deposit)
    requires OneRowEach(db.transfers, front, RegisterAll(db, front).transfers)
    requires Succeeds(RegisterAll(db, front), d) && Typed(db, d)
    ensures OneRowEach(db.transfers, front + [d], Register(RegisterAll(db, front), d).0.transfers)
  {
    var mid := RegisterAll(db, front);
    RegisterAllTypes(db, front, d.txId);
    RegisterTyped(mid, d);
    DeliverOne(db.transfers, front, mid.transfers, d, Register(mid, d).0.transfers);
  }

  /**
    Any serial, successful, typed sequence of deliveries stores each deposit once, whatever the order and the
    repetitions.
   */
  lemma {:induction false} DeliveriesStoreOnce(db: Db, ds: seq<Deposit>)
    requires Settles(db, ds)
    ensures OneRowEach(db.transfers, ds, RegisterAll(db, ds).transfers)
  {
    if ds == [] {
    } else {
      var front, d := ds[..|ds| - 1], ds[|ds| - 1];
      DeliveriesStoreOnce(db, front);
      assert d in ds && ds == front + [d];
      DeliverLast(db, front, d);
    }
  }

  // Which rows

  /** Registering only adds rows. */
  lemma {:induction false} RegisterAllGrows(db: Db, ds: seq<Deposit>)
    ensures db.transfers <= RegisterAll(db, ds).transfers
  {
    if ds != [] {
      RegisterAllGrows(db, ds[..|ds| - 1]);
    }
  }

  /** The rows deliveries add. */
  function Added(db: Db, ds: seq<Deposit>): seq<Transfer> {
    RegisterAllGrows(db, ds);
    RegisterAll(db, ds).transfers[|db.transfers|..]
  }

  /** Delivered deposits with one key that has no row yet give one row, so that it does not matter which comes first. */
  predicate RowsDetermined(before: seq<Transfer>, ds: seq<Deposit>) {
    forall d, e :: d in ds && e in ds && Complete(d) && Complete(e)
                   && DepositKey(d) == DepositKey(e) && !HasKey(before, DepositKey(d))
      ==> TransferOf(d) == TransferOf(e)
  }

  ghost predicate SameMembers(ds: seq<Deposit>, es: seq<Deposit>) {
    forall d :: d in ds <==> d in es
  }

  ghost predicate SameRows(db: Db, ds: seq<Deposit>, es: seq<Deposit>) {
    forall t :: t in Added(db, ds) <==> t in Added(db, es)
  }

  /** An added row is that of a delivered deposit whose key had none. */
  lemma AddedIsRow(before: seq<Transfer>, ds: seq<Deposit>, transfers: seq<Transfer>, t: Transfer)
    requires OneRowEach(before, ds, transfers) && t in transfers[|before|..]
    ensures IsRowOf(ds, t) && !HasKey(before, KeyOf(t))
  {
    var i :| |before| <= i < |transfers| && transfers[i] == t;
    assert forall j :: 0 <= j < |before| ==> transfers[j] == before[j];
  }

  /** For a deposit whose key had none, the row of some delivered deposit with its key was added. */
  lemma KeyIsAdded(before: seq<Transfer>, ds: seq<Deposit>, transfers: seq<Transfer>, d: Deposit) returns (e: Deposit)
    requires OneRowEach(before, ds, transfers) && d in ds && !HasKey(before, DepositKey(d))
    ensures e in ds && Complete(e) && DepositKey(e) == DepositKey(d) && TransferOf(e) in transfers[|before|..]
  {
    var n :| 0 <= n < |ds| && ds[n] == d;
    assert HasKey(transfers, DepositKey(ds[n]));
    var i :| 0 <= i < |transfers| && KeyOf(transfers[i]) == DepositKey(d);
    assert forall j :: 0 <= j < |before| ==> transfers[j] == before[j];
    assert |before| <= i && IsRowOf(ds, transfers[i]);
    var m :| 0 <= m < |ds| && Complete(ds[m]) && transfers[i] == TransferOf(ds[m]);
    e := ds[m];
    assert transfers[|before|..][i - |before|] == TransferOf(e);
  }

  /** If rows are determined, the rows added are those of all delivered deposits whose keys had none. */
  lemma RowsStored(before: seq<Transfer>, ds: seq<Deposit>, transfers: seq<Transfer>, t: Transfer)
    requires OneRowEach(before, ds, transfers) && RowsDetermined(before, ds)
    ensures t in transfers[|before|..] <==> IsRowOf(ds, t) && !HasKey(before, KeyOf(t))
  {
    if t in transfers[|before|..] {
      AddedIsRow(before, ds, transfers, t);
    }
    if IsRowOf(ds, t) && !HasKey(before, KeyOf(t)) {
      var n :| 0 <= n < |ds| && Complete(ds[n]) && t == TransferOf(ds[n]);
      var e := KeyIsAdded(before, ds, transfers, ds[n]);
      assert TransferOf(e) == t;
    }
  }

  lemma RowOfSame(ds: seq<Deposit>, es: seq<Deposit>, t: Transfer)
    requires forall d :: d in ds ==> d in es
    ensures IsRowOf(ds, t) ==> IsRowOf(es, t)
  {
    if IsRowOf(ds, t) {
      var i :| 0 <= i < |ds| && Complete(ds[i]) && t == TransferOf(ds[i]);
      assert ds[i] in es;
    }
  }

  // How many rows each key has

  function CountKey(transfers: seq<Transfer>, k: Key): nat {
    if transfers == [] then 0
    else CountKey(transfers[..|transfers| - 1], k) + if KeyOf(transfers[|transfers| - 1]) == k then 1 else 0
  }

  lemma {:induction false} CountPositive(transfers: seq<Transfer>, k: Key)
    ensures HasKey(transfers, k) <==> CountKey(transfers, k) > 0
  {
    if transfers == [] {
    } else {
      var front, t := transfers[..|transfers| - 1], transfers[|transfers| - 1];
      CountPositive(front, k);
      KeyOfExtension(front, t, k);
      assert transfers == front + [t];
    }
  }

  lemma CountAppend(transfers: seq<Transfer>, t: Transfer, k: Key)
    ensures CountKey(transfers + [t], k) == CountKey(transfers, k) + if KeyOf(t) == k then 1 else 0
  {
    assert (transfers + [t])[..|transfers|] == transfers;
  }

  lemma KeyOfPrefix(before: seq<Transfer>, after: seq<Transfer>, k: Key)
    requires before <= after
    ensures HasKey(before, k) ==> HasKey(after, k)
  {
    if HasKey(before, k) {
      var j :| 0 <= j < |before| && KeyOf(before[j]) == k;
      assert after[j] == before[j];
    }
  }

  lemma {:induction false} CountStep(before: seq<Transfer>, after: seq<Transfer>, k: Key)
    requires before <= after
    requires forall i, j :: |before| <= i < |after| && 0 <= j < i ==> KeyOf(after[i]) != KeyOf(after[j])
    ensures CountKey(after, k) == if HasKey(before, k) then CountKey(before, k) else if HasKey(after, k) then 1 else 0
    decreases |after|
  {
    if |after| == |before| {
      assert after == before;
      CountPositive(before, k);
    } else {
      var front, t := after[..|after| - 1], after[|after| - 1];
      assert after == front + [t] && before <= front;
      assert forall i :: 0 <= i < |front| ==> front[i] == after[i];
      CountStep(before, front, k);
      CountAppend(front, t, k);
      KeyOfExtension(front, t, k);
      if HasKey(front, k) {
        var j :| 0 <= j < |front| && KeyOf(front[j]) == k;
        assert KeyOf(after[|front|]) != KeyOf(after[j]);
      }
      KeyOfPrefix(before, front, k);
    }
  }

  /**
    After typed deliveries, a key that had no row has one if it was delivered, and every other key has the
    rows it had.
   */
  lemma CountAfter(before: seq<Transfer>, ds: seq<Deposit>, transfers: seq<Transfer>, k: Key)
    requires OneRowEach(before, ds, transfers)
    ensures CountKey(transfers, k)
         == if HasKey(before, k) then CountKey(before, k) else if HasDeposit(ds, k) then 1 else 0
  {
    CountStep(before, transfers, k);
    KeysAfter(before, ds, transfers, k);
  }

  /**
    Two deliveries of the same deposits, in any order and with any repetitions, leave every key with
    equally many rows.
   */
  lemma SameDepositsSameCounts(db: Db, ds: seq<Deposit>, es: seq<Deposit>, k: Key)
    requires Settles(db, ds) && Settles(db, es)
    requires forall d :: d in ds <==> d in es
    ensures CountKey(RegisterAll(db, ds).transfers, k) == CountKey(RegisterAll(db, es).transfers, k)
  {
    DeliveriesStoreOnce(db, ds);
    DeliveriesStoreOnce(db, es);
    CountAfter(db.transfers, ds, RegisterAll(db, ds).transfers, k);
    CountAfter(db.transfers, es, RegisterAll(db, es).transfers, k);
    HasDepositOfSame(ds, es, k);
    HasDepositOfSame(es, ds, k);
  }

  lemma HasDepositOfSame(ds: seq<Deposit>, es: seq<Deposit>, k: Key)
    requires forall d :: d in ds ==> d in es
    ensures HasDeposit(ds, k) ==> HasDeposit(es, k)
  {
    if HasDeposit(ds, k) {
      var i :| 0 <= i < |ds| && DepositKey(ds[i]) == k;
      assert ds[i] in es;
    }
  }

  // Success does not depend on the order

  /** What makes a set of typed deliveries succeed, whatever their order. */
  predicate Compatible(db: Db, ds: seq<Deposit>) {
    && (forall d :: d in ds ==>
          && Amounts(d).Some? && d.flowTx.Some?
          && (d.flowTx.value.authorizers != [] || HasKey(db.transfers, DepositKey(d)))
          && AccountTokenInserts(db, d))
    && (forall d, e :: d in ds && e in ds && AccountTokenKey(d) == AccountTokenKey(e) ==> d.token.typ == e.token.typ)
  }

  /** The account tokens after deliveries `ds`: those before, and one for each delivery. */
  predicate TokensFrom(before: Db, ds: seq<Deposit>, after: Db) {
    && (forall d :: d in ds ==>
          AccountTokenKey(d) in after.accountTokens && after.accountTokens[AccountTokenKey(d)] == d.token.typ)
    && (forall k :: k in before.accountTokens ==>
          k in after.accountTokens && after.accountTokens[k] == before.accountTokens[k])
    && (forall k :: k in after.accountTokens && k !in before.accountTokens ==>
          exists i :: 0 <= i < |ds| && AccountTokenKey(ds[i]) == k)
  }

  lemma RegisterTokens(db: Db, d: Deposit)
    requires Succeeds(db, d)
    ensures AccountTokenInserts(db, d)
    ensures Register(db, d).0.accountTokens == db.accountTokens[AccountTokenKey(d) := d.token.typ]
  {
  }

  lemma TokensStep(before: Db, ds: seq<Deposit>, after: Db, d: Deposit)
    requires TokensFrom(before, ds, after) && Succeeds(after, d)
    ensures TokensFrom(before, ds + [d], Register(after, d).0)
  {
    RegisterTokens(after, d);
    var next := Register(after, d).0;
    forall k | k in next.accountTokens && k !in before.accountTokens
      ensures exists i :: 0 <= i < |ds + [d]| && AccountTokenKey((ds + [d])[i]) == k
    {
      if k in after.accountTokens {
        var i :| 0 <= i < |ds| && AccountTokenKey(ds[i]) == k;
        assert AccountTokenKey((ds + [d])[i]) == k;
      } else {
        assert AccountTokenKey((ds + [d])[|ds|]) == k;
      }
    }
  }

  /** A typed delivery that succeeds is complete, unless its key had a row. */
  lemma SuccessNeeds(db: Db, d: Deposit)
    requires Succeeds(db, d) && Typed(db, d)
    ensures Amounts(d).Some? && d.flowTx.Some?
    ensures d.flowTx.value.authorizers != [] || HasKey(db.transfers, DepositKey(d))
  {
    RegisterTyped(db, d);
  }

  /** The keys stored after deliveries are those stored before and those delivered. */
  lemma KeysAfter(before: seq<Transfer>, ds: seq<Deposit>, transfers: seq<Transfer>, k: Key)
    requires OneRowEach(before, ds, transfers)
    ensures HasKey(transfers, k) <==> HasKey(before, k) || HasDeposit(ds, k)
  {
    if HasKey(transfers, k) {
      var i :| 0 <= i < |transfers| && KeyOf(transfers[i]) == k;
      if i < |before| {
        assert KeyOf(before[i]) == k;
      } else {
        assert IsRowOf(ds, transfers[i]);
      }
    }
    if HasKey(before, k) {
      var i :| 0 <= i < |before| && KeyOf(before[i]) == k;
      assert KeyOf(transfers[i]) == k;
    }
  }

  /** A transaction id names one transaction on chain. */
  predicate OneTransactionPerId(ds: seq<Deposit>) {
    forall i, j :: 0 <= i < |ds| && 0 <= j < |ds| && ds[i].txId == ds[j].txId ==> ds[i].flowTx == ds[j].flowTx
  }

  lemma SameTransaction(ds: seq<Deposit>, d: Deposit, e: Deposit)
    requires OneTransactionPerId(ds) && d in ds && e in ds && d.txId == e.txId
    ensures d.flowTx == e.flowTx
  {
    var i :| 0 <= i < |ds| && ds[i] == d;
    var j :| 0 <= j < |ds| && ds[j] == e;
    assert ds[i].txId == ds[j].txId;
  }

  /** A deposit whose key was delivered before has the authorizers of the earlier one. */
  lemma EarlierIsComplete(db: Db, front: seq<Deposit>, d: Deposit)
    requires Compatible(db, front) && d.flowTx.Some? && HasDeposit(front, DepositKey(d))
    requires forall e :: e in front && e.txId == d.txId ==> e.flowTx == d.flowTx
    ensures d.flowTx.value.authorizers != [] || HasKey(db.transfers, DepositKey(d))
  {
    var i :| 0 <= i < |front| && DepositKey(front[i]) == DepositKey(d);
    assert front[i] in front;
  }

  /** What a delivery needs, after others that succeeded. */
  lemma LastIsComplete(db: Db, front: seq<Deposit>, d: Deposit)
    requires Settles(db, front) && Compatible(db, front)
    requires Succeeds(RegisterAll(db, front), d) && Typed(db, d)
    requires forall e :: e in front && e.txId == d.txId ==> e.flowTx == d.flowTx
    ensures Amounts(d).Some? && d.flowTx.Some?
    ensures d.flowTx.value.authorizers != [] || HasKey(db.transfers, DepositKey(d))
  {
    var mid := RegisterAll(db, front);
    RegisterAllTypes(db, front, d.txId);
    SuccessNeeds(mid, d);
    DeliveriesStoreOnce(db, front);
    KeysAfter(db.transfers, front, mid.transfers, DepositKey(d));
    if HasDeposit(front, DepositKey(d)) {
      EarlierIsComplete(db, front, d);
    }
  }

  lemma {:induction false} SucceedingIsCompatible(db: Db, ds: seq<Deposit>)
    requires Settles(db, ds) && OneTransactionPerId(ds)
    ensures Compatible(db, ds) && TokensFrom(db, ds, RegisterAll(db, ds))
  {
    if ds == [] {
    } else {
      var front, d := ds[..|ds| - 1], ds[|ds| - 1];
      assert ds == front + [d] && d in ds;
      SucceedingIsCompatible(db, front);
      var mid := RegisterAll(db, front);
      TokensStep(db, front, mid, d);
      RegisterTokens(mid, d);
      forall e | e in front && e.txId == d.txId
        ensures e.flowTx == d.flowTx
      {
        SameTransaction(ds, e, d);
      }
      LastIsComplete(db, front, d);
      CompatibleStep(db, front, mid, d);
    }
  }

  lemma CompatibleStep(db: Db, ds: seq<Deposit>, mid: Db, d: Deposit)
    requires Compatible(db, ds) && TokensFrom(db, ds, mid) && AccountTokenInserts(mid, d)
    requires Amounts(d).Some? && d.flowTx.Some?
    requires d.flowTx.value.authorizers != [] || HasKey(db.transfers, DepositKey(d))
    ensures Compatible(db, ds + [d])
  {
    assert forall e :: e in ds + [d] <==> e in ds || e == d;
  }

  lemma {:induction false} CompatibleSucceeds(db: Db, ds: seq<Deposit>)
    requires Compatible(db, ds) && AllTyped(db, ds)
    ensures AllSucceed(db, ds) && TokensFrom(db, ds, RegisterAll(db, ds))
  {
    if ds == [] {
    } else {
      var front, d := ds[..|ds| - 1], ds[|ds| - 1];
      assert ds == front + [d] && d in ds;
      assert forall e :: e in front ==> e in ds;
      CompatibleSucceeds(db, front);
      var mid := RegisterAll(db, front);
      RegisterAllTypes(db, front, d.txId);
      DeliveriesStoreOnce(db, front);
      KeysAfter(db.transfers, front, mid.transfers, DepositKey(d));
      if AccountTokenKey(d) in mid.accountTokens && AccountTokenKey(d) !in db.accountTokens {
        var i :| 0 <= i < |front| && AccountTokenKey(front[i]) == AccountTokenKey(d);
        assert front[i] in ds && front[i] in front;
      }
      assert AccountTokenInserts(mid, d);
      TypedSucceeds(mid, d);
      TokensStep(db, front, mid, d);
    }
  }

  lemma TypedSucceeds(db: Db, d: Deposit)
    requires Typed(db, d) && Amounts(d).Some? && d.flowTx.Some? && AccountTokenInserts(db, d)
    requires d.flowTx.value.authorizers != [] || HasKey(db.transfers, DepositKey(d))
    ensures Succeeds(db, d)
  {
  }

  /** If deposits can be delivered without error in one order, they can in every order. */
  lemma SuccessCarriesOver(db: Db, ds: seq<Deposit>, es: seq<Deposit>)
    requires Settles(db, ds) && OneTransactionPerId(ds)
    requires forall d :: d in es ==> d in ds
    ensures Settles(db, es)
  {
    SucceedingIsCompatible(db, ds);
    CompatibleSucceeds(db, es);
  }

  // What deliveries record

  /** Whatever fails on the way, every row that deliveries add is the transfer of one of them. */
  lemma {:induction false} AddedRecords(db: Db, ds: seq<Deposit>, t: Transfer)
    requires t in Added(db, ds)
    ensures exists d :: d in ds && Records(d, t)
  {
    RegisterAllGrows(db, ds);
    assert Added(db, []) == [];
    if ds != [] {
      var front, d := ds[..|ds| - 1], ds[|ds| - 1];
      RegisterAllGrows(db, front);
      var mid, after := RegisterAll(db, front).transfers, RegisterAll(db, ds).transfers;
      RegisterRecords(RegisterAll(db, front), d);
      var i :| |db.transfers| <= i < |after| && after[i] == t;
      if i < |mid| {
        assert mid[i] == t && t in Added(db, front);
        AddedRecords(db, front, t);
      } else {
        assert d in ds && Records(d, t);
      }
    }
  }

  /** Typed deliveries without error leave a transfer of every deposit's token to its recipient in its transaction. */
  lemma DeliveredIsRecorded(db: Db, ds: seq<Deposit>, d: Deposit)
    requires Settles(db, ds) && d in ds
    ensures exists t :: t in RegisterAll(db, ds).transfers
                        && t.recipient == d.recipient && t.txId == d.txId && t.tokenName == d.token.name
  {
    DeliveriesStoreOnce(db, ds);
    var n :| 0 <= n < |ds| && ds[n] == d;
    assert HasKey(RegisterAll(db, ds).transfers, DepositKey(ds[n]));
  }

  /** Of the transfers that typed deliveries add no two are of one token to one recipient in one transaction. */
  lemma AddedAreDistinct(db: Db, ds: seq<Deposit>, i: nat, j: nat)
    requires Settles(db, ds) && i < j < |Added(db, ds)|
    ensures var t, u := Added(db, ds)[i], Added(db, ds)[j];
            t.recipient != u.recipient || t.txId != u.txId || t.tokenName != u.tokenName
  {
    DeliveriesStoreOnce(db, ds);
    var after := RegisterAll(db, ds).transfers;
    assert Added(db, ds)[i] == after[|db.transfers| + i] && Added(db, ds)[j] == after[|db.transfers| + j];
    assert KeyOf(after[|db.transfers| + j]) != KeyOf(after[|db.transfers| + i]);
  }

  // When the order of delivery does not matter

  lemma DeterminedMeansSameRows(db: Db, ds: seq<Deposit>, es: seq<Deposit>)
    requires Settles(db, ds) && OneTransactionPerId(ds)
    requires RowsDetermined(db.transfers, ds) && SameMembers(ds, es)
    ensures SameRows(db, es, ds)
  {
    SuccessCarriesOver(db, ds, es);
    DeliveriesStoreOnce(db, ds);
    DeliveriesStoreOnce(db, es);
    forall t
      ensures t in Added(db, ds) <==> t in Added(db, es)
    {
      RowsStored(db.transfers, ds, RegisterAll(db, ds).transfers, t);
      RowsStored(db.transfers, es, RegisterAll(db, es).transfers, t);
      RowOfSame(ds, es, t);
      RowOfSame(es, ds, t);
    }
  }

  lemma {:induction false} RegisterAllFrom(db: Db, d: Deposit, ds: seq<Deposit>)
    ensures RegisterAll(db, [d] + ds) == RegisterAll(Register(db, d).0, ds)
  {
    var all := [d] + ds;
    if ds == [] {
      assert all[..0] == [] && all[0] == d;
    } else {
      assert all[..|all| - 1] == [d] + ds[..|ds| - 1];
      RegisterAllFrom(db, d, ds[..|ds| - 1]);
    }
  }

  /** The first delivery of a key without a row is the one whose row is stored. */
  lemma FirstIsAdded(db: Db, d: Deposit, ds: seq<Deposit>)
    requires Succeeds(db, d) && Typed(db, d) && !HasKey(db.transfers, DepositKey(d))
    ensures Complete(d) && TransferOf(d) in Added(db, [d] + ds)
  {
    RegisterTyped(db, d);
    RegisterAllFrom(db, d, ds);
    RegisterAllGrows(Register(db, d).0, ds);
    var after := RegisterAll(db, [d] + ds).transfers;
    assert db.transfers + [TransferOf(d)] <= after;
    assert after[|db.transfers|] == TransferOf(d);
  }

  lemma AddedAt(before: seq<Transfer>, ds: seq<Deposit>, transfers: seq<Transfer>, i: nat, j: nat)
    requires OneRowEach(before, ds, transfers)
    requires |before| <= i < |transfers| && |before| <= j < |transfers| && KeyOf(transfers[i]) == KeyOf(transfers[j])
    ensures i == j
  {
  }

  /** Two rows added under one key are one. */
  lemma AddedOnce(before: seq<Transfer>, ds: seq<Deposit>, transfers: seq<Transfer>, t: Transfer, u: Transfer)
    requires OneRowEach(before, ds, transfers)
    requires t in transfers[|before|..] && u in transfers[|before|..] && KeyOf(t) == KeyOf(u)
    ensures t == u
  {
    var i :| |before| <= i < |transfers| && transfers[i] == t;
    var j :| |before| <= j < |transfers| && transfers[j] == u;
    AddedAt(before, ds, transfers, i, j);
  }

  /** If it makes no difference to the rows which of two deposits with one key is delivered first, they give one row. */
  lemma SameRowsDetermine(db: Db, ds: seq<Deposit>, d: Deposit, e: Deposit)
    requires Settles(db, ds) && OneTransactionPerId(ds) && d in ds && e in ds
    requires DepositKey(d) == DepositKey(e) && !HasKey(db.transfers, DepositKey(d))
    requires SameRows(db, [d] + ds, ds) && SameRows(db, [e] + ds, ds)
    ensures Complete(d) && Complete(e) && TransferOf(d) == TransferOf(e)
  {
    SuccessCarriesOver(db, ds, [d]);
    SuccessCarriesOver(db, ds, [e]);
    assert [d][..0] == [] && [e][..0] == [];
    FirstIsAdded(db, d, ds);
    FirstIsAdded(db, e, ds);
    DeliveriesStoreOnce(db, ds);
    assert TransferOf(d) in Added(db, ds) && TransferOf(e) in Added(db, ds);
    AddedOnce(db.transfers, ds, RegisterAll(db, ds).transfers, TransferOf(d), TransferOf(e));
  }

  ghost predicate AlwaysSameRows(db: Db, ds: seq<Deposit>) {
    forall es :: SameMembers(ds, es) ==> SameRows(db, es, ds)
  }

  lemma FirstAgain(db: Db, ds: seq<Deposit>, d: Deposit)
    requires AlwaysSameRows(db, ds) && d in ds
    ensures SameRows(db, [d] + ds, ds)
  {
    assert SameMembers(ds, [d] + ds);
  }

  /**
    Deposits that can be delivered without error add the same rows in every order and with any
    repetitions if and only if their rows are determined.
   */
  lemma SameRowsExactly(db: Db, ds: seq<Deposit>)
    requires Settles(db, ds) && OneTransactionPerId(ds)
    ensures AlwaysSameRows(db, ds) <==> RowsDetermined(db.transfers, ds)
  {
    if RowsDetermined(db.transfers, ds) {
      forall es | SameMembers(ds, es)
        ensures SameRows(db, es, ds)
      {
        DeterminedMeansSameRows(db, ds, es);
      }
    }
    if AlwaysSameRows(db, ds) {
      forall d, e | d in ds && e in ds && DepositKey(d) == DepositKey(e) && !HasKey(db.transfers, DepositKey(d))
        ensures Complete(d) && Complete(e) && TransferOf(d) == TransferOf(e)
      {
        FirstAgain(db, ds, d);
        FirstAgain(db, ds, e);
        SameRowsDetermine(db, ds, d, e);
      }
    }
  }

  // Withdrawals

  /** A withdrawal by the wallet: its transaction row is stored before sending, its transfer row after the seal. */
  datatype Withdrawal = Withdrawal(
    token: Token, txId: string, sender: string, recipient: string, ftAmount: string, nftId: nat)

  function BeginWithdrawal(db: Db, w: Withdrawal): Db
    requires TransferType(w.token.typ).Some?
  {
    db.(transactions := db.transactions[w.txId := TxRow(TransferType(w.token.typ).value, w.sender)])
  }

  function EndWithdrawal(db: Db, w: Withdrawal): Db {
    db.(transfers := db.transfers + [Transfer(w.txId, w.recipient, w.sender, w.ftAmount, w.nftId, w.token.name)])
  }

  /** The deposit event of a withdrawal to a wallet account finds the withdrawal's own row, if it is there already. */
  lemma DepositAfterWithdrawal(db: Db, w: Withdrawal, d: Deposit)
    requires TransferType(w.token.typ).Some? && d.token == w.token && d.txId == w.txId && d.recipient == w.recipient
    requires CountKey(db.transfers, DepositKey(d)) == 0
    requires Succeeds(EndWithdrawal(BeginWithdrawal(db, w), w), d)
    ensures CountKey(Register(EndWithdrawal(BeginWithdrawal(db, w), w), d).0.transfers, DepositKey(d)) == 1
  {
    var before := EndWithdrawal(BeginWithdrawal(db, w), w);
    CountAppend(db.transfers, before.transfers[|db.transfers|], DepositKey(d));
    CountPositive(before.transfers, DepositKey(d));
  }

  /** An event handled between the seal and the withdrawal's last write leaves the transfer recorded twice. */
  lemma DepositDuringWithdrawal(db: Db, w: Withdrawal, d: Deposit)
    requires TransferType(w.token.typ).Some? && d.token == w.token && d.txId == w.txId && d.recipient == w.recipient
    requires CountKey(db.transfers, DepositKey(d)) == 0
    requires Succeeds(BeginWithdrawal(db, w), d)
    ensures CountKey(EndWithdrawal(Register(BeginWithdrawal(db, w), d).0, w).transfers, DepositKey(d)) == 2
  {
    var started := BeginWithdrawal(db, w);
    CountPositive(db.transfers, DepositKey(d));
    RegisterTyped(started, d);
    CountAppend(db.transfers, TransferOf(d), DepositKey(d));
    var registered := Register(started, d).0;
    var ended := EndWithdrawal(registered, w);
    CountAppend(registered.transfers, ended.transfers[|registered.transfers|], DepositKey(d));
  }

  // What does not hold

  /** Two deposits of one token to one account in one transaction have one key: the second is taken for a redelivery. */
  lemma SecondDepositOfTransactionSwallowed(db: Db, d: Deposit, e: Deposit)
    requires Succeeds(db, d) && Typed(db, d) && e == d.(amountOrNftId := e.amountOrNftId) && Amounts(e).Some?
    ensures Register(Register(db, d).0, e) == (Register(db, d).0, AlreadyRegistered)
  {
    var once := Register(db, d).0;
    if Register(db, d).1 == Registered {
      assert KeyOf(once.transfers[|once.transfers| - 1]) == DepositKey(d);
    }
    assert HasKey(once.transfers, DepositKey(e));
    var enabled := once.(accountTokens := once.accountTokens[AccountTokenKey(e) := e.token.typ]);
    assert enabled.accountTokens == once.accountTokens;
    assert FindsDeposit(enabled, e);
  }
}
