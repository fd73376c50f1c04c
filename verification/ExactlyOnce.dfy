/**
  The listener and the deposit registration together: failed, rolled-back and repeated ticks store
  the same transfers as one scan that never failed.
 */
module ExactlyOnce {
  import opened Prelude
  import opened ChainListener
  import opened ChainEvents
  import T = Tokens
  import D = Deposits
  import E = EventTypes
  import S = TokenService

  /**
    What the wallet knows when it handles an event: its tokens by event type, its accounts, and the
    chain's transactions.
   */
  datatype Wallet = Wallet(tokens: map<string, T.Token>, accounts: set<string>, flowTxs: map<string, D.FlowTx>)

  /** Deposits of known tokens to known accounts are registered; every other event is ignored. */
  function Resolve(w: Wallet, e: ChainEvent): Option<D.Deposit> {
    if E.Contains(e.typ, "Deposit") && e.typ in w.tokens && e.to in w.accounts then
      Some(D.Deposit(w.tokens[e.typ], e.txId, e.to, e.payload.text,
                     if e.txId in w.flowTxs then Some(w.flowTxs[e.txId]) else None))
    else None
  }

  /**
    If tokens are found by the types of their deposit events, as they are for the listened types of a store,
    the deposit events of each stored token to known accounts are registered for that token.
   */
  lemma DepositsAreResolved(store: E.Store, w: Wallet, t: T.Token, e: ChainEvent)
    requires E.FindsByType(store, w.tokens) && E.Stored(store, t) && t.typ != T.NotSpecified
    requires e.typ == E.DepositEventType(t) && e.to in w.accounts
    ensures Resolve(w, e).Some? && Resolve(w, e).value.token == t
    ensures Resolve(w, e).value.recipient == e.to && Resolve(w, e).value.txId == e.txId
  {
    E.DepositTypeContains(t);
  }

  /**
    The deposit an event announces: of a listened token to an account of the wallet, with what the chain
    has of its transaction.
   */
  predicate Announces(w: Wallet, e: ChainEvent, d: D.Deposit) {
    && (exists i :: 0 <= i <= |e.typ| && "Deposit" <= e.typ[i..])
    && e.typ in w.tokens && d.token == w.tokens[e.typ]
    && e.to in w.accounts && d.recipient == e.to
    && d.txId == e.txId && d.amountOrNftId == e.payload.text
    && (e.txId in w.flowTxs ==> d.flowTx == Some(w.flowTxs[e.txId]))
    && (e.txId !in w.flowTxs ==> d.flowTx == None)
  }

  lemma ResolvesExactly(w: Wallet, e: ChainEvent, d: D.Deposit)
    ensures Resolve(w, e) == Some(d) <==> Announces(w, e, d)
  {
    E.ContainsExactly(e.typ, "Deposit");
  }

  /** The registrations a sequence of events causes. */
  function Handled(w: Wallet, es: seq<ChainEvent>): seq<D.Deposit> {
    if es == [] then []
    else Handled(w, es[..|es| - 1]) + match Resolve(w, es[|es| - 1]) case None => [] case Some(d) => [d]
  }

  lemma {:induction false} HandledMembers(w: Wallet, es: seq<ChainEvent>, d: D.Deposit)
    ensures d in Handled(w, es) <==> exists i :: 0 <= i < |es| && Resolve(w, es[i]) == Some(d)
  {
    if es == [] {
    } else {
      HandledMembers(w, es[..|es| - 1], d);
    }
  }

  /** The deposits registered are exactly those the delivered events announce. */
  lemma HandledExactly(w: Wallet, es: seq<ChainEvent>, d: D.Deposit)
    ensures d in Handled(w, es) <==> exists i :: 0 <= i < |es| && Announces(w, es[i], d)
  {
    HandledMembers(w, es, d);
    if i :| 0 <= i < |es| && Resolve(w, es[i]) == Some(d) {
      ResolvesExactly(w, es[i], d);
    }
    if i :| 0 <= i < |es| && Announces(w, es[i], d) {
      ResolvesExactly(w, es[i], d);
    }
  }

  /** The event concerns nobody's account or no known token. */
  predicate Foreign(w: Wallet, e: ChainEvent) {
    e.to !in w.accounts || e.typ !in w.tokens
  }

  /** Foreign events change no table, wherever they stand among the others. */
  lemma {:induction false} ForeignIgnored(w: Wallet, es: seq<ChainEvent>, fs: seq<ChainEvent>)
    requires forall e :: e in fs ==> Foreign(w, e)
    ensures Handled(w, es + fs) == Handled(w, es)
  {
    if fs == [] {
      assert es + fs == es;
    } else {
      assert (es + fs)[..|es + fs| - 1] == es + fs[..|fs| - 1];
      assert fs[|fs| - 1] in fs;
      ForeignIgnored(w, es, fs[..|fs| - 1]);
    }
  }

  /**
    Whatever is delivered and whatever fails, every transfer added belongs to an account of the wallet, and
    records the deposit one of the events announces.
   */
  lemma AddedAreAnnounced(w: Wallet, db: D.Db, es: seq<ChainEvent>, t: D.Transfer)
    requires t in D.Added(db, Handled(w, es))
    ensures t.recipient in w.accounts
    ensures exists i, d :: 0 <= i < |es| && Announces(w, es[i], d) && D.Records(d, t)
  {
    D.AddedRecords(db, Handled(w, es), t);
    var d :| d in Handled(w, es) && D.Records(d, t);
    HandledExactly(w, es, d);
    var i :| 0 <= i < |es| && Announces(w, es[i], d);
  }

  /** Nor is a token enabled for any other account. */
  lemma EnabledAreKnown(
      w: Wallet, db: D.Db, es: seq<ChainEvent>, account: string, name: string, address: string)
    requires account !in w.accounts
    ensures var before, after := db.accountTokens, D.RegisterAll(db, Handled(w, es)).accountTokens;
            (account, name, address) in after <==> (account, name, address) in before
  {
    forall d | d in Handled(w, es)
      ensures d.recipient != account
    {
      HandledExactly(w, es, d);
    }
    TokensOfOthers(db, Handled(w, es), account, name, address);
  }

  lemma {:induction false} TokensOfOthers(db: D.Db, ds: seq<D.Deposit>, account: string, name: string, address: string)
    requires forall d :: d in ds ==> d.recipient != account
    ensures (account, name, address) in D.RegisterAll(db, ds).accountTokens
       <==> (account, name, address) in db.accountTokens
  {
    if ds != [] {
      var front := ds[..|ds| - 1];
      TokensOfOthers(db, front, account, name, address);
      D.TokensAfter(D.RegisterAll(db, front), ds[|ds| - 1], account, name, address);
    }
  }

  /** The events some dispatched window emitted. */
  predicate Dispatched(chain: Chain, types: seq<string>, ws: seq<Window>, e: ChainEvent) {
    e.typ in types && exists w :: w in ws && EmittedIn(chain, w.start, w.end, e)
  }

  /** The events were delivered exactly as the windows dispatched them, in whatever order and however often. */
  ghost predicate Delivers(chain: Chain, types: seq<string>, ws: seq<Window>, es: seq<ChainEvent>) {
    forall e :: e in es <==> Dispatched(chain, types, ws, e)
  }

  /** A run of ticks within this chain, none of whose windows wraps, delivered these events. */
  ghost predicate RunDelivers(
      chain: Chain, types: seq<string>, latest: nat, startingHeight: nat, steps: seq<Step>, es: seq<ChainEvent>)
  {
    && Initialised(latest, startingHeight, steps) && Fitting(latest, steps)
    && Top(latest, Run(latest, steps).dispatched) < |chain|
    && Delivers(chain, types, Run(latest, steps).dispatched, es)
  }

  /** One failure-free scan of the heights above `latest` up to `top`. */
  function ScanUpTo(chain: Chain, types: seq<string>, latest: nat, top: nat): seq<ChainEvent>
    requires top < |chain|
  {
    if latest < top then Scan(chain, types, latest + 1, top) else []
  }

  /** All windows of a run together emitted what one scan up to the highest dispatched height emits. */
  lemma DispatchedIsOneScan(
      chain: Chain, types: seq<string>, latest: nat, startingHeight: nat, steps: seq<Step>, e: ChainEvent)
    requires Initialised(latest, startingHeight, steps) && Fitting(latest, steps)
    requires Top(latest, Run(latest, steps).dispatched) < |chain|
    ensures Dispatched(chain, types, Run(latest, steps).dispatched, e)
       <==> e in ScanUpTo(chain, types, latest, Top(latest, Run(latest, steps).dispatched))
  {
    var ws := Run(latest, steps).dispatched;
    var top := Top(latest, ws);
    if latest < top {
      ScanMembers(chain, types, latest + 1, top, e);
      if e.typ in types && EmittedIn(chain, latest + 1, top, e) {
        var h :| latest + 1 <= h <= top && h < |chain| && e in chain[h];
        DispatchedCoverage(latest, startingHeight, steps, h);
        var w :| w in ws && InWindow(w, h);
        assert EmittedIn(chain, w.start, w.end, e);
      }
    }
    if Dispatched(chain, types, ws, e) {
      var w :| w in ws && EmittedIn(chain, w.start, w.end, e);
      var h :| w.start <= h <= w.end && h < |chain| && e in chain[h];
      assert InWindow(w, h);
      DispatchedCoverage(latest, startingHeight, steps, h);
    }
  }

  /** The deliveries of a run and one failure-free scan of the same heights register the same deposits. */
  lemma SameDeposits(
      chain: Chain, types: seq<string>, w: Wallet, es: seq<ChainEvent>, fs: seq<ChainEvent>, d: D.Deposit)
    requires forall e :: e in es <==> e in fs
    ensures d in Handled(w, es) <==> d in Handled(w, fs)
  {
    HandledMembers(w, es, d);
    HandledMembers(w, fs, d);
    if i :| 0 <= i < |es| && Resolve(w, es[i]) == Some(d) {
      assert es[i] in fs;
    }
    if i :| 0 <= i < |fs| && Resolve(w, fs[i]) == Some(d) {
      assert fs[i] in es;
    }
  }

  /** All handled deposits of a transaction carry what the chain has under its id. */
  lemma HandledTransactions(w: Wallet, es: seq<ChainEvent>)
    ensures D.OneTransactionPerId(Handled(w, es))
  {
    var ds := Handled(w, es);
    forall i | 0 <= i < |ds|
      ensures ds[i].flowTx == if ds[i].txId in w.flowTxs then Some(w.flowTxs[ds[i].txId]) else None
    {
      HandledMembers(w, es, ds[i]);
    }
  }

  /** The handled deposits of a run of ticks, and those of one failure-free scan of the same heights. */
  lemma RunHandlesOneScan(
      chain: Chain, types: seq<string>, w: Wallet,
      latest: nat, startingHeight: nat, steps: seq<Step>, es: seq<ChainEvent>, d: D.Deposit)
    requires RunDelivers(chain, types, latest, startingHeight, steps, es)
    ensures d in Handled(w, es)
       <==> d in Handled(w, ScanUpTo(chain, types, latest, Top(latest, Run(latest, steps).dispatched)))
  {
    var fs := ScanUpTo(chain, types, latest, Top(latest, Run(latest, steps).dispatched));
    forall e
      ensures e in es <==> e in fs
    {
      DispatchedIsOneScan(chain, types, latest, startingHeight, steps, e);
    }
    SameDeposits(chain, types, w, es, fs, d);
  }

  /**
    Exactly once: after any run of ticks by any number of listeners, with handlers that run one after
    another without error, in any order, on typed deposits, every recipient, transaction and token has
    as many transfers as after one failure-free scan, which succeeds too, and none got a second one.
   */
  lemma ExactlyOnce(
      chain: Chain, types: seq<string>, w: Wallet, db: D.Db,
      latest: nat, startingHeight: nat, steps: seq<Step>, es: seq<ChainEvent>, k: D.Key)
    requires RunDelivers(chain, types, latest, startingHeight, steps, es)
    requires D.Settles(db, Handled(w, es))
    ensures var scan := Handled(w, ScanUpTo(chain, types, latest, Top(latest, Run(latest, steps).dispatched)));
            var after, ideal := D.RegisterAll(db, Handled(w, es)).transfers, D.RegisterAll(db, scan).transfers;
            && D.Settles(db, scan)
            && D.CountKey(after, k) == D.CountKey(ideal, k)
            && D.OneRowEach(db.transfers, Handled(w, es), after)
            && D.OneRowEach(db.transfers, scan, ideal)
  {
    var ds := Handled(w, es);
    var scan := Handled(w, ScanUpTo(chain, types, latest, Top(latest, Run(latest, steps).dispatched)));
    forall d
      ensures d in ds <==> d in scan
    {
      RunHandlesOneScan(chain, types, w, latest, startingHeight, steps, es, d);
    }
    HandledTransactions(w, es);
    D.SuccessCarriesOver(db, ds, scan);
    D.SameDepositsSameCounts(db, ds, scan, k);
    D.DeliveriesStoreOnce(db, ds);
    D.DeliveriesStoreOnce(db, scan);
  }

  lemma {:induction false} HandledFirst(w: Wallet, e: ChainEvent, es: seq<ChainEvent>, d: D.Deposit)
    requires Resolve(w, e) == Some(d)
    ensures Handled(w, [e] + es) == [d] + Handled(w, es)
  {
    var all := [e] + es;
    if es == [] {
      assert all[..0] == [] && all[0] == e;
    } else {
      assert all[..|all| - 1] == [e] + es[..|es| - 1];
      HandledFirst(w, e, es[..|es| - 1], d);
    }
  }

  /** The deliveries of a run store the rows of one failure-free scan, whatever their order and repetitions. */
  ghost predicate AlwaysScanRows(
      chain: Chain, types: seq<string>, w: Wallet, db: D.Db, ws: seq<Window>, fs: seq<ChainEvent>)
  {
    forall es :: Delivers(chain, types, ws, es) ==> D.SameRows(db, Handled(w, es), Handled(w, fs))
  }

  lemma DeliversAgain(chain: Chain, types: seq<string>, ws: seq<Window>, es: seq<ChainEvent>, e: ChainEvent)
    requires Delivers(chain, types, ws, es) && e in es
    ensures Delivers(chain, types, ws, [e] + es)
  {
    forall f
      ensures f in [e] + es <==> Dispatched(chain, types, ws, f)
    {
      assert f in [e] + es <==> f in es;
    }
  }

  /** For every registration of a delivery there is a delivery that makes it first, and then all of them. */
  lemma FirstAgain(chain: Chain, types: seq<string>, w: Wallet, ws: seq<Window>, fs: seq<ChainEvent>, d: D.Deposit)
    returns (es: seq<ChainEvent>)
    requires Delivers(chain, types, ws, fs) && d in Handled(w, fs)
    ensures Delivers(chain, types, ws, es) && Handled(w, es) == [d] + Handled(w, fs)
  {
    HandledMembers(w, fs, d);
    var i :| 0 <= i < |fs| && Resolve(w, fs[i]) == Some(d);
    DeliversAgain(chain, types, ws, fs, fs[i]);
    HandledFirst(w, fs[i], fs, d);
    es := [fs[i]] + fs;
  }

  lemma RowsOfDelivery(
      chain: Chain, types: seq<string>, w: Wallet, db: D.Db, ws: seq<Window>, fs: seq<ChainEvent>, es: seq<ChainEvent>)
    requires AlwaysScanRows(chain, types, w, db, ws, fs) && Delivers(chain, types, ws, es)
    ensures D.SameRows(db, Handled(w, es), Handled(w, fs))
  {
  }

  /**
    The rows themselves are those of one failure-free scan, in every order and with any repetitions, if and
    only if the rows of the scan's deposits are determined: no two of them with one key that had no row differ
    in what is recorded.
   */
  lemma ExactlyOnceRows(
      chain: Chain, types: seq<string>, w: Wallet, db: D.Db, latest: nat, startingHeight: nat, steps: seq<Step>)
    requires Initialised(latest, startingHeight, steps) && Fitting(latest, steps)
    requires Top(latest, Run(latest, steps).dispatched) < |chain|
    requires var scan := Handled(w, ScanUpTo(chain, types, latest, Top(latest, Run(latest, steps).dispatched)));
             D.Settles(db, scan)
    ensures var ws := Run(latest, steps).dispatched;
            var fs := ScanUpTo(chain, types, latest, Top(latest, ws));
            AlwaysScanRows(chain, types, w, db, ws, fs) <==> D.RowsDetermined(db.transfers, Handled(w, fs))
  {
    var ws := Run(latest, steps).dispatched;
    var fs := ScanUpTo(chain, types, latest, Top(latest, ws));
    var scan := Handled(w, fs);
    forall e
      ensures e in fs <==> Dispatched(chain, types, ws, e)
    {
      DispatchedIsOneScan(chain, types, latest, startingHeight, steps, e);
    }
    HandledTransactions(w, fs);
    if D.RowsDetermined(db.transfers, scan) {
      forall es | Delivers(chain, types, ws, es)
        ensures D.SameRows(db, Handled(w, es), scan)
      {
        forall d
          ensures d in Handled(w, es) <==> d in scan
        {
          SameDeposits(chain, types, w, es, fs, d);
        }
        D.DeterminedMeansSameRows(db, scan, Handled(w, es));
      }
    }
    if AlwaysScanRows(chain, types, w, db, ws, fs) {
      forall d, e | d in scan && e in scan
                    && D.DepositKey(d) == D.DepositKey(e) && !D.HasKey(db.transfers, D.DepositKey(d))
        ensures D.Complete(d) && D.Complete(e) && D.TransferOf(d) == D.TransferOf(e)
      {
        var es := FirstAgain(chain, types, w, ws, fs, d);
        RowsOfDelivery(chain, types, w, db, ws, fs, es);
        es := FirstAgain(chain, types, w, ws, fs, e);
        RowsOfDelivery(chain, types, w, db, ws, fs, es);
        D.SameRowsDetermine(db, scan, d, e);
      }
    }
  }

  /** The handler of one event. */
  method Handle(service: S.Service, w: Wallet, e: ChainEvent)
    modifies service
    ensures service.Tables() == match Resolve(w, e)
                                case None => old(service.Tables())
                                case Some(d) => D.Register(old(service.Tables()), d).0
    ensures Foreign(w, e) ==> service.Tables() == old(service.Tables())
    ensures service.transfers != old(service.transfers) ==>
      && |service.transfers| == |old(service.transfers)| + 1
      && service.transfers[..|old(service.transfers)|] == old(service.transfers)
      && exists d :: Announces(w, e, d) && D.Records(d, service.transfers[|old(service.transfers)|])
  {
    if !E.Contains(e.typ, "Deposit") || e.typ !in w.tokens || e.to !in w.accounts {
      return;
    }
    var d := D.Deposit(w.tokens[e.typ], e.txId, e.to, e.payload.text,
                       if e.txId in w.flowTxs then Some(w.flowTxs[e.txId]) else None);
    ResolvesExactly(w, e, d);
    var _ := service.RegisterDeposit(d);
  }
}
