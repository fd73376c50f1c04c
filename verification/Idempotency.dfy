/**
  The stores of idempotency keys, one deleting expired keys as it meets them and one filtering them
  by timestamp, and the middleware that rejects a repeated key.
 */
module Idempotency {

  /** Expiry dates by key. A lifetime may be configured negative. */
  type Keys = map<string, int>

  predicate Unexpired(keys: Keys, key: string, now: int) {
    key in keys && keys[key] > now
  }

  /** The in-memory lookup reads the clock twice: an expired key is dropped if the second reading is past its date. */
  function LocalGet(keys: Keys, key: string, now: int, later: int): (Keys, bool) {
    if key !in keys then (keys, false)
    else if keys[key] > now then (keys, true)
    else if keys[key] < later then (keys - {key}, false)
    else (keys, false)
  }

  function TableGet(keys: Keys, key: string, now: int): bool {
    Unexpired(keys, key, now)
  }

  function WithKey(keys: Keys, key: string, now: int, expiry: int): Keys {
    keys[key := now + expiry]
  }

  function Pruned(keys: Keys, now: int): Keys {
    map k | k in keys && keys[k] >= now :: keys[k]
  }

  // Simulation

  /** A call, with the clock readings it makes; only the table is pruned. */
  datatype Call = Get(key: string, now: int, later: int) | Put(key: string, now: int, expiry: int) | PruneAll(now: int)

  function StartOf(c: Call): int {
    c.now
  }

  function EndOf(c: Call): int {
    if c.Get? then c.later else c.now
  }

  /** The clock does not go back, within a call or between calls. */
  predicate Monotone(calls: seq<Call>) {
    && (forall i :: 0 <= i < |calls| ==> StartOf(calls[i]) <= EndOf(calls[i]))
    && (forall i, j :: 0 <= i < j < |calls| ==> EndOf(calls[i]) <= StartOf(calls[j]))
  }

  function LocalStep(keys: Keys, c: Call): (Keys, bool) {
    match c
    case Get(key, now, later) => LocalGet(keys, key, now, later)
    case Put(key, now, expiry) => (WithKey(keys, key, now, expiry), false)
    case PruneAll(_) => (keys, false)
  }

  function TableStep(keys: Keys, c: Call): (Keys, bool) {
    match c
    case Get(key, now, _) => (keys, TableGet(keys, key, now))
    case Put(key, now, expiry) => (WithKey(keys, key, now, expiry), false)
    case PruneAll(now) => (Pruned(keys, now), false)
  }

  function LocalAnswers(keys: Keys, calls: seq<Call>): seq<bool>
    decreases |calls|
  {
    if calls == [] then []
    else [LocalStep(keys, calls[0]).1] + LocalAnswers(LocalStep(keys, calls[0]).0, calls[1..])
  }

  function TableAnswers(keys: Keys, calls: seq<Call>): seq<bool>
    decreases |calls|
  {
    if calls == [] then []
    else [TableStep(keys, calls[0]).1] + TableAnswers(TableStep(keys, calls[0]).0, calls[1..])
  }

  /** The stores agree on every key that has not expired. */
  ghost predicate Alike(local: Keys, table: Keys, now: int) {
    forall k :: (Unexpired(local, k, now) || Unexpired(table, k, now)) ==>
      k in local && k in table && local[k] == table[k]
  }

  lemma AlikeLater(local: Keys, table: Keys, now: int, later: int)
    requires Alike(local, table, now) && now <= later
    ensures Alike(local, table, later)
  {
    forall k | Unexpired(local, k, later) || Unexpired(table, k, later)
      ensures k in local && k in table && local[k] == table[k]
    {
      assert Unexpired(local, k, now) || Unexpired(table, k, now);
    }
  }

  lemma StepKeepsAlike(local: Keys, table: Keys, c: Call)
    requires Alike(local, table, StartOf(c)) && StartOf(c) <= EndOf(c)
    ensures LocalStep(local, c).1 == TableStep(table, c).1
    ensures Alike(LocalStep(local, c).0, TableStep(table, c).0, EndOf(c))
  {
    if c.Get? {
      assert Unexpired(local, c.key, c.now) <==> Unexpired(table, c.key, c.now);
    }
    var l, t := LocalStep(local, c).0, TableStep(table, c).0;
    forall k | Unexpired(l, k, EndOf(c)) || Unexpired(t, k, EndOf(c))
      ensures k in l && k in t && l[k] == t[k]
    {
      assert !(c.Put? && k == c.key) ==> Unexpired(local, k, StartOf(c)) || Unexpired(table, k, StartOf(c));
    }
  }

  /** Over any calls under a clock that does not go back, the two stores answer alike. */
  lemma {:induction false} StoresAnswerAlike(local: Keys, table: Keys, calls: seq<Call>)
    requires Monotone(calls) && (calls != [] ==> Alike(local, table, StartOf(calls[0])))
    ensures LocalAnswers(local, calls) == TableAnswers(table, calls)
    decreases |calls|
  {
    if calls == [] {
    } else {
      StepKeepsAlike(local, table, calls[0]);
      var rest := calls[1..];
      assert forall i :: 0 <= i < |rest| ==> rest[i] == calls[i + 1];
      var l, t := LocalStep(local, calls[0]).0, TableStep(table, calls[0]).0;
      if rest != [] {
        assert rest[0] == calls[1];
        AlikeLater(l, t, EndOf(calls[0]), StartOf(rest[0]));
      }
      StoresAnswerAlike(l, t, rest);
    }
  }

  // The middleware

  datatype Response = Served | BadRequest | Conflict | ServerError

  /** One request, with the clock readings of its lookup and its insertion, and the store faults it meets. */
  datatype Request = Request(
    ignored: bool, post: bool, key: string, getAt: int, setAt: int, getFails: bool, setFails: bool)

  predicate Keyed(r: Request) {
    !r.ignored && r.post && r.key != ""
  }

  function Handle(keys: Keys, r: Request, expiry: int): (Keys, Response) {
    if r.ignored || !r.post then (keys, Served)
    else if r.key == "" then (keys, BadRequest)
    else if r.getFails then (keys, ServerError)
    else if TableGet(keys, r.key, r.getAt) then (keys, Conflict)
    else if r.setFails then (keys, ServerError)
    else (WithKey(keys, r.key, r.setAt, expiry), Served)
  }

  /** The table serves requests, and is pruned at any time in between. */
  datatype Use = Serve(request: Request) | Prune(now: int)

  function StartOfUse(u: Use): int {
    if u.Serve? then u.request.getAt else u.now
  }

  function EndOfUse(u: Use): int {
    if u.Serve? then u.request.setAt else u.now
  }

  /**
    What a request meets: only keyed POSTs outside the ignored paths are looked at; one without a key is bad,
    a failing store is an error, and a key in use is a conflict. Only a keyed request that is served is
    remembered, from its insertion on and for the given time.
   */
  lemma ResponseExactly(keys: Keys, r: Request, expiry: int)
    ensures var (after, response) := Handle(keys, r, expiry);
            && (response == BadRequest <==> !r.ignored && r.post && r.key == "")
            && (response == Conflict <==> Keyed(r) && !r.getFails && r.key in keys && keys[r.key] > r.getAt)
            && (response == ServerError <==>
                  Keyed(r) && (r.getFails || (r.setFails && !(r.key in keys && keys[r.key] > r.getAt))))
            && (r.ignored || !r.post ==> response == Served)
            && (forall k :: k in after <==> k in keys || (k == r.key && Keyed(r) && response == Served))
            && (forall k :: k in after ==>
                  after[k] == if k == r.key && Keyed(r) && response == Served then r.setAt + expiry else keys[k])
  {
  }

  function KeysAfterUse(keys: Keys, u: Use, expiry: int): Keys {
    if u.Serve? then Handle(keys, u.request, expiry).0 else Pruned(keys, u.now)
  }

  function KeysAfter(keys: Keys, us: seq<Use>, expiry: int): Keys {
    if us == [] then keys else KeysAfterUse(KeysAfter(keys, us[..|us| - 1], expiry), us[|us| - 1], expiry)
  }

  function ResponseTo(keys: Keys, us: seq<Use>, i: nat, expiry: int): Response
    requires i < |us| && us[i].Serve?
  {
    Handle(KeysAfter(keys, us[..i], expiry), us[i].request, expiry).1
  }

  /** One use of the table follows another. */
  predicate Serial(us: seq<Use>) {
    && (forall i :: 0 <= i < |us| ==> StartOfUse(us[i]) <= EndOfUse(us[i]))
    && (forall i, j :: 0 <= i < j < |us| ==> EndOfUse(us[i]) <= StartOfUse(us[j]))
  }

  /** Request `j` was let through under its key. */
  predicate Admitted(keys: Keys, us: seq<Use>, j: nat, expiry: int)
    requires j < |us|
  {
    us[j].Serve? && Keyed(us[j].request) && ResponseTo(keys, us, j, expiry) == Served
  }

  /** One of the first `n` requests was let through under this key, which it holds at this time. */
  predicate HeldBy(keys: Keys, us: seq<Use>, n: nat, expiry: int, key: string, now: int)
    requires n <= |us|
  {
    exists j :: 0 <= j < n && Admitted(keys, us, j, expiry) && us[j].request.key == key
             && us[j].request.setAt + expiry > now
  }

  lemma UnexpiredAfterUse(keys: Keys, u: Use, expiry: int, key: string, now: int)
    requires EndOfUse(u) <= now
    ensures Unexpired(KeysAfterUse(keys, u, expiry), key, now)
       <==> if u.Serve? && Keyed(u.request) && u.request.key == key && Handle(keys, u.request, expiry).1 == Served
            then u.request.setAt + expiry > now else Unexpired(keys, key, now)
  {
  }

  lemma AdmittedWasFree(keys: Keys, r: Request, expiry: int)
    requires Keyed(r) && Handle(keys, r, expiry).1 == Served
    ensures !Unexpired(keys, r.key, r.getAt)
  {
  }

  lemma {:induction false} HeldMeansAdmitted(keys: Keys, us: seq<Use>, n: nat, expiry: int, key: string, now: int)
    requires Serial(us) && n <= |us| && (forall i :: 0 <= i < n ==> EndOfUse(us[i]) <= now)
    ensures Unexpired(KeysAfter(keys, us[..n], expiry), key, now)
       <==> Unexpired(keys, key, now) || HeldBy(keys, us, n, expiry, key, now)
    decreases n
  {
    if n == 0 {
      assert us[..n] == [];
    } else {
      var u, before := us[n - 1], KeysAfter(keys, us[..n - 1], expiry);
      assert us[..n][..n - 1] == us[..n - 1];
      assert KeysAfter(keys, us[..n], expiry) == KeysAfterUse(before, u, expiry);
      UnexpiredAfterUse(before, u, expiry, key, now);
      HeldMeansAdmitted(keys, us, n - 1, expiry, key, now);
      HeldStep(keys, us, n - 1, expiry, key, now);
      if Admitted(keys, us, n - 1, expiry) && u.request.key == key {
        AdmittedWasFree(before, u.request, expiry);
        HeldMeansAdmitted(keys, us, n - 1, expiry, key, u.request.getAt);
        HeldEarlier(keys, us, n - 1, expiry, key, u.request.getAt, now);
        assert StartOfUse(u) <= EndOfUse(u) <= now;
      }
    }
  }

  lemma HeldStep(keys: Keys, us: seq<Use>, n: nat, expiry: int, key: string, now: int)
    requires n < |us|
    ensures HeldBy(keys, us, n + 1, expiry, key, now)
       <==> HeldBy(keys, us, n, expiry, key, now)
            || (Admitted(keys, us, n, expiry) && us[n].request.key == key && us[n].request.setAt + expiry > now)
  {
  }

  lemma HeldEarlier(keys: Keys, us: seq<Use>, n: nat, expiry: int, key: string, before: int, now: int)
    requires n <= |us| && before <= now
    ensures HeldBy(keys, us, n, expiry, key, now) ==> HeldBy(keys, us, n, expiry, key, before)
  {
  }

  /**
    Of requests handled one after another, with the table pruned at any times in between, one is rejected
    with a conflict exactly when it carries a key that was stored at the start, or that an earlier request was
    let through with, and that has not expired since.
   */
  lemma ConflictExactly(keys: Keys, us: seq<Use>, i: nat, expiry: int)
    requires Serial(us) && i < |us| && us[i].Serve?
    ensures var r := us[i].request;
            ResponseTo(keys, us, i, expiry) == Conflict <==>
              && Keyed(r) && !r.getFails
              && (Unexpired(keys, r.key, r.getAt) || HeldBy(keys, us, i, expiry, r.key, r.getAt))
  {
    HeldMeansAdmitted(keys, us, i, expiry, us[i].request.key, us[i].request.getAt);
  }

  // The stores and the handler as objects

  class LocalStore {
    var keys: Keys

    constructor ()
      ensures keys == map[]
    {
      keys := map[];
    }

    method Get(key: string, now: int, later: int) returns (found: bool)
      modifies this
      ensures (keys, found) == LocalGet(old(keys), key, now, later)
      ensures found <==> Unexpired(old(keys), key, now)
    {
      if key !in keys {
        return false;
      }
      var v := keys[key];
      if v > now {
        return true;
      }
      if v < later {
        keys := keys - {key};
        return false;
      }
      return false;
    }

    method Set(key: string, now: int, expiry: int)
      modifies this
      ensures keys == WithKey(old(keys), key, now, expiry)
    {
      keys := keys[key := now + expiry];
    }
  }

  class TableStore {
    var keys: Keys

    constructor ()
      ensures keys == map[]
    {
      keys := map[];
    }

    method Get(key: string, now: int) returns (found: bool)
      ensures found <==> Unexpired(keys, key, now)
    {
      found := key in keys && keys[key] > now;
    }

    method Set(key: string, now: int, expiry: int)
      modifies this
      ensures keys == WithKey(old(keys), key, now, expiry)
    {
      keys := keys[key := now + expiry];
    }

    /** Pruning answers no lookup differently, now or later. */
    method Prune(now: int)
      modifies this
      ensures keys == Pruned(old(keys), now)
      ensures forall k, t :: now <= t ==> (Unexpired(keys, k, t) <==> Unexpired(old(keys), k, t))
    {
      keys := map k | k in keys && keys[k] >= now :: keys[k];
    }

    method HandleRequest(r: Request, expiry: int) returns (response: Response)
      modifies this
      ensures (keys, response) == Handle(old(keys), r, expiry)
    {
      if r.ignored || !r.post {
        return Served;
      }
      if r.key == "" {
        return BadRequest;
      }
      if r.getFails {
        return ServerError;
      }
      var found := Get(r.key, r.getAt);
      if found {
        return Conflict;
      }
      if r.setFails {
        return ServerError;
      }
      Set(r.key, r.setAt, expiry);
      response := Served;
    }
  }
}
