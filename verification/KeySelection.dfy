/**
  Least-recently-used key selection: each call locks the row with the oldest stamp among its
  candidates and stamps it with the current time. Equal stamps may be resolved either way.
 */
module KeySelection {

  /** The stamp of each row, by position; rows are in the order of their ids. */
  type Stamps = seq<nat>

  predicate IsOldest(stamps: Stamps, candidates: set<nat>, p: nat) {
    && p in candidates && p < |stamps|
    && forall q :: q in candidates && q < |stamps| ==> stamps[p] <= stamps[q]
  }

  /** One call: which row it picked, and when. */
  datatype Call = Call(pick: nat, time: nat)

  function StampsAfter(stamps: Stamps, calls: seq<Call>): Stamps {
    if calls == [] then stamps
    else
      var s, c := StampsAfter(stamps, calls[..|calls| - 1]), calls[|calls| - 1];
      if c.pick < |s| then s[c.pick := c.time] else s
  }

  /** A history of calls on fixed candidates, under a clock that every call finds later than all their stamps. */
  predicate History(stamps: Stamps, candidates: set<nat>, calls: seq<Call>) {
    calls == []
    || (&& History(stamps, candidates, calls[..|calls| - 1])
        && var s, c := StampsAfter(stamps, calls[..|calls| - 1]), calls[|calls| - 1];
           && IsOldest(s, candidates, c.pick)
           && forall q :: q in candidates && q < |s| ==> s[q] < c.time)
  }

  lemma {:induction false} StampsAfterLength(stamps: Stamps, calls: seq<Call>)
    ensures |StampsAfter(stamps, calls)| == |stamps|
  {
    if calls == [] {
    } else {
      StampsAfterLength(stamps, calls[..|calls| - 1]);
    }
  }

  predicate Picked(calls: seq<Call>, from: nat, end: nat, q: nat) {
    exists k :: from <= k < end && k < |calls| && calls[k].pick == q
  }

  lemma {:induction false} HistoryPrefix(stamps: Stamps, candidates: set<nat>, calls: seq<Call>, n: nat)
    requires History(stamps, candidates, calls) && n <= |calls|
    ensures History(stamps, candidates, calls[..n])
  {
    if n == |calls| {
      assert calls[..n] == calls;
    } else {
      HistoryPrefix(stamps, candidates, calls[..|calls| - 1], n);
      assert calls[..|calls| - 1][..n] == calls[..n];
    }
  }

  /** What call `i` did, and found. */
  lemma CallAt(stamps: Stamps, candidates: set<nat>, calls: seq<Call>, i: nat)
    requires History(stamps, candidates, calls) && i < |calls|
    ensures var s := StampsAfter(stamps, calls[..i]);
            && |s| == |stamps| && IsOldest(s, candidates, calls[i].pick)
            && (forall q :: q in candidates && q < |s| ==> s[q] < calls[i].time)
            && StampsAfter(stamps, calls[..i + 1]) == s[calls[i].pick := calls[i].time]
  {
    HistoryPrefix(stamps, candidates, calls, i + 1);
    assert calls[..i + 1][..i] == calls[..i];
    StampsAfterLength(stamps, calls[..i]);
  }

  /** A row not picked between two calls keeps its stamp; a stamp never decreases. */
  lemma {:induction false} StampsBetween(stamps: Stamps, candidates: set<nat>, calls: seq<Call>, i: nat, j: nat, q: nat)
    requires History(stamps, candidates, calls) && i <= j <= |calls| && q < |stamps| && q in candidates
    ensures |StampsAfter(stamps, calls[..i])| == |StampsAfter(stamps, calls[..j])| == |stamps|
    ensures StampsAfter(stamps, calls[..i])[q] <= StampsAfter(stamps, calls[..j])[q]
    ensures !Picked(calls, i, j, q) ==> StampsAfter(stamps, calls[..i])[q] == StampsAfter(stamps, calls[..j])[q]
    decreases j - i
  {
    StampsAfterLength(stamps, calls[..i]);
    if i < j {
      StampsBetween(stamps, candidates, calls, i, j - 1, q);
      CallAt(stamps, candidates, calls, j - 1);
      if Picked(calls, i, j - 1, q) {
        var k :| i <= k < j - 1 && calls[k].pick == q;
        assert Picked(calls, i, j, q);
      }
      if calls[j - 1].pick == q {
        assert Picked(calls, i, j, q);
      }
    }
  }

  /** Between two picks of a row, every other candidate is picked. */
  lemma OthersBetween(stamps: Stamps, candidates: set<nat>, calls: seq<Call>, i: nat, j: nat, q: nat)
    requires History(stamps, candidates, calls) && i < j < |calls| && calls[i].pick == calls[j].pick
    requires q in candidates && q < |stamps| && q != calls[i].pick
    ensures Picked(calls, i + 1, j, q)
  {
    var p := calls[i].pick;
    CallAt(stamps, candidates, calls, i);
    CallAt(stamps, candidates, calls, j);
    StampsBetween(stamps, candidates, calls, i + 1, j, p);
    StampsBetween(stamps, candidates, calls, i + 1, j, q);
  }

  function Picks(calls: seq<Call>, from: nat, end: nat): set<nat>
    requires from <= end <= |calls|
  {
    set k | from <= k < end :: calls[k].pick
  }

  lemma {:induction false} PicksSize(calls: seq<Call>, from: nat, end: nat)
    requires from <= end <= |calls|
    ensures |Picks(calls, from, end)| <= end - from
    ensures (forall i, j :: from <= i < j < end ==> calls[i].pick != calls[j].pick) ==>
      |Picks(calls, from, end)| == end - from
    decreases end - from
  {
    if from < end {
      PicksSize(calls, from, end - 1);
      assert Picks(calls, from, end) == Picks(calls, from, end - 1) + {calls[end - 1].pick};
    }
  }

  lemma SubsetSize(a: set<nat>, b: set<nat>)
    requires a <= b
    ensures |a| <= |b|
    ensures |a| == |b| ==> a == b
  {
    assert b == a + (b - a);
  }

  /** The same row is picked again only after all the others. */
  lemma RepeatsFarApart(stamps: Stamps, candidates: set<nat>, calls: seq<Call>, i: nat, j: nat)
    requires History(stamps, candidates, calls) && i < j < |calls| && calls[i].pick == calls[j].pick
    requires forall q :: q in candidates ==> q < |stamps|
    ensures j - i >= |candidates|
  {
    var p := calls[i].pick;
    CallAt(stamps, candidates, calls, i);
    forall q | q in candidates - {p}
      ensures q in Picks(calls, i + 1, j)
    {
      OthersBetween(stamps, candidates, calls, i, j, q);
      var k :| i + 1 <= k < j && calls[k].pick == q;
    }
    SubsetSize(candidates - {p}, Picks(calls, i + 1, j));
    PicksSize(calls, i + 1, j);
  }

  /** Any `n` consecutive calls, for `n` candidates, pick each candidate exactly once. */
  lemma RoundRobin(stamps: Stamps, candidates: set<nat>, calls: seq<Call>, from: nat)
    requires History(stamps, candidates, calls) && from + |candidates| <= |calls|
    requires forall q :: q in candidates ==> q < |stamps|
    ensures forall i, j :: from <= i < j < from + |candidates| ==> calls[i].pick != calls[j].pick
    ensures Picks(calls, from, from + |candidates|) == candidates
  {
    var end := from + |candidates|;
    forall i, j | from <= i < j < end
      ensures calls[i].pick != calls[j].pick
    {
      if calls[i].pick == calls[j].pick {
        RepeatsFarApart(stamps, candidates, calls, i, j);
      }
    }
    PicksSize(calls, from, end);
    forall i | from <= i < end
      ensures calls[i].pick in candidates
    {
      CallAt(stamps, candidates, calls, i);
    }
    SubsetSize(Picks(calls, from, end), candidates);
  }

  /** How often the calls from `from` on picked `p`. */
  function Uses(calls: seq<Call>, from: nat, end: nat, p: nat): nat
    requires from <= end <= |calls|
    decreases end - from
  {
    if from == end then 0 else Uses(calls, from, end - 1, p) + if calls[end - 1].pick == p then 1 else 0
  }

  lemma {:induction false} UsesSplit(calls: seq<Call>, from: nat, mid: nat, end: nat, p: nat)
    requires from <= mid <= end <= |calls|
    ensures Uses(calls, from, end, p) == Uses(calls, from, mid, p) + Uses(calls, mid, end, p)
    decreases end - mid
  {
    if mid < end {
      UsesSplit(calls, from, mid, end - 1, p);
    }
  }

  /** Pairwise different picks use a row once if it is among them, and never otherwise. */
  lemma {:induction false} DistinctUses(calls: seq<Call>, from: nat, end: nat, p: nat)
    requires from <= end <= |calls|
    requires forall i, j :: from <= i < j < end ==> calls[i].pick != calls[j].pick
    ensures Uses(calls, from, end, p) == if p in Picks(calls, from, end) then 1 else 0
    decreases end - from
  {
    if from < end {
      DistinctUses(calls, from, end - 1, p);
      assert Picks(calls, from, end) == Picks(calls, from, end - 1) + {calls[end - 1].pick};
    }
  }

  lemma MultiplyStep(k: nat, n: nat)
    ensures (k + 1) * n == k * n + n && 0 <= k * n
  {
  }

  /** In a part of a round a candidate is used at most once. */
  lemma FirstRound(stamps: Stamps, candidates: set<nat>, calls: seq<Call>, m: nat, p: nat)
    requires History(stamps, candidates, calls) && m <= |calls| && m < |candidates|
    requires forall q :: q in candidates ==> q < |stamps|
    ensures Uses(calls, 0, m, p) <= 1
  {
    forall i, j | 0 <= i < j < m
      ensures calls[i].pick != calls[j].pick
    {
      if calls[i].pick == calls[j].pick {
        RepeatsFarApart(stamps, candidates, calls, i, j);
      }
    }
    DistinctUses(calls, 0, m, p);
  }

  /** A full round uses every candidate once. */
  lemma LastRound(stamps: Stamps, candidates: set<nat>, calls: seq<Call>, m: nat, p: nat)
    requires History(stamps, candidates, calls) && |candidates| <= m <= |calls| && p in candidates
    requires forall q :: q in candidates ==> q < |stamps|
    ensures Uses(calls, 0, m, p) == Uses(calls, 0, m - |candidates|, p) + 1
  {
    RoundRobin(stamps, candidates, calls, m - |candidates|);
    DistinctUses(calls, m - |candidates|, m, p);
    UsesSplit(calls, 0, m - |candidates|, m, p);
  }

  /** After `k` full rounds and part of the next, every candidate was used `k` times or once more. */
  lemma {:induction false} EvenUsage(stamps: Stamps, candidates: set<nat>, calls: seq<Call>, k: nat, m: nat, p: nat)
    requires History(stamps, candidates, calls) && m <= |calls| && p in candidates
    requires forall q :: q in candidates ==> q < |stamps|
    requires k * |candidates| <= m < k * |candidates| + |candidates|
    ensures k <= Uses(calls, 0, m, p) <= k + 1
    decreases k
  {
    if k == 0 {
      FirstRound(stamps, candidates, calls, m, p);
    } else {
      MultiplyStep(k - 1, |candidates|);
      EvenUsage(stamps, candidates, calls, k - 1, m - |candidates|, p);
      LastRound(stamps, candidates, calls, m, p);
    }
  }

  lemma {:induction false} Quotient(m: nat, n: nat) returns (k: nat)
    requires 0 < n
    ensures k * n <= m < k * n + n
    decreases m
  {
    if m < n {
      k := 0;
    } else {
      k := Quotient(m - n, n);
      MultiplyStep(k, n);
      k := k + 1;
    }
  }

  lemma UsageInRound(stamps: Stamps, candidates: set<nat>, calls: seq<Call>, k: nat, m: nat, p: nat, q: nat)
    requires History(stamps, candidates, calls) && m <= |calls| && p in candidates && q in candidates
    requires forall r :: r in candidates ==> r < |stamps|
    requires k * |candidates| <= m < k * |candidates| + |candidates|
    ensures Uses(calls, 0, m, p) <= Uses(calls, 0, m, q) + 1
  {
    EvenUsage(stamps, candidates, calls, k, m, p);
    EvenUsage(stamps, candidates, calls, k, m, q);
  }

  /** At no point of a history do the usage counts of two candidates differ by more than one. */
  lemma UsageDiffersByOne(stamps: Stamps, candidates: set<nat>, calls: seq<Call>, m: nat, p: nat, q: nat)
    requires History(stamps, candidates, calls) && m <= |calls| && p in candidates && q in candidates
    requires forall r :: r in candidates ==> r < |stamps|
    ensures Uses(calls, 0, m, p) <= Uses(calls, 0, m, q) + 1
  {
    SubsetSize({p}, candidates);
    var k := Quotient(m, |candidates|);
    UsageInRound(stamps, candidates, calls, k, m, p, q);
  }

  // The two tables

  /** A row of `storable_keys` or `proposal_keys`; the latter have no owner. */
  datatype KeyRow = KeyRow(owner: string, keyIndex: nat, updatedAt: nat)

  function StampsOf(rows: seq<KeyRow>): Stamps {
    seq(|rows|, i requires 0 <= i < |rows| => rows[i].updatedAt)
  }

  /** The keys stored for an address. */
  function AccountCandidates(rows: seq<KeyRow>, address: string): set<nat> {
    set i | 0 <= i < |rows| && rows[i].owner == address
  }

  function FirstRows(n: nat): (rows: set<nat>)
    ensures |rows| == n && forall i: nat :: i in rows <==> i < n
  {
    if n == 0 then {} else FirstRows(n - 1) + {n - 1}
  }

  /** The first `limit` rows by id; a limit of zero or less is no limit. */
  function ProposalCandidates(rows: seq<KeyRow>, limit: int): (candidates: set<nat>)
    ensures |candidates| == if limit <= 0 || |rows| < limit then |rows| else limit
    ensures forall q: nat :: q in candidates <==> q < |rows| && (limit > 0 ==> q < limit)
  {
    FirstRows(if limit <= 0 || |rows| < limit then |rows| else limit)
  }

  lemma {:induction false} OldestExists(stamps: Stamps, candidates: set<nat>)
    requires candidates != {} && forall q :: q in candidates ==> q < |stamps|
    ensures exists p :: p in candidates && IsOldest(stamps, candidates, p)
    decreases |candidates|
  {
    var c :| c in candidates;
    var rest := candidates - {c};
    if rest == {} {
      assert candidates == {c};
      assert IsOldest(stamps, candidates, c);
    } else {
      OldestExists(stamps, rest);
      var p :| p in rest && IsOldest(stamps, rest, p);
      assert IsOldest(stamps, candidates, if stamps[c] < stamps[p] then c else p);
    }
  }

  /** The table shows the candidates as this history left them, whatever was done to other rows. */
  predicate Shows(rows: seq<KeyRow>, stamps: Stamps, candidates: set<nat>, calls: seq<Call>) {
    && |rows| == |stamps|
    && forall q :: q in candidates && q < |rows| && q < |StampsAfter(stamps, calls)| ==>
         StampsAfter(stamps, calls)[q] == rows[q].updatedAt
  }

  /** A selection made by the store, at a time later than the candidates' stamps, continues their history. */
  lemma SelectionContinues(stamps: Stamps, candidates: set<nat>, calls: seq<Call>, rows: seq<KeyRow>, call: Call)
    requires History(stamps, candidates, calls) && Shows(rows, stamps, candidates, calls)
    requires IsOldest(StampsOf(rows), candidates, call.pick)
    requires forall q :: q in candidates && q < |rows| ==> rows[q].updatedAt < call.time
    ensures History(stamps, candidates, calls + [call])
    ensures Shows(rows[call.pick := rows[call.pick].(updatedAt := call.time)], stamps, candidates, calls + [call])
  {
    assert (calls + [call])[..|calls|] == calls;
    StampsAfterLength(stamps, calls);
  }

  class KeyStore {
    var rows: seq<KeyRow>

    constructor (rows: seq<KeyRow>)
      ensures this.rows == rows
    {
      this.rows := rows;
    }

    /** The query and the update of one selection; without candidates the update has no row to address. */
    method Select(candidates: set<nat>, now: nat) returns (ok: bool, call: Call)
      requires forall q :: q in candidates ==> q < |rows|
      modifies this
      ensures ok <==> candidates != {}
      ensures !ok ==> rows == old(rows)
      ensures ok ==>
        && call.time == now && IsOldest(StampsOf(old(rows)), candidates, call.pick)
        && rows == old(rows)[call.pick := old(rows)[call.pick].(updatedAt := now)]
        && StampsOf(rows) == StampsAfter(StampsOf(old(rows)), [call])
    {
      if candidates == {} {
        return false, Call(0, now);
      }
      var stamps := StampsOf(rows);
      OldestExists(stamps, candidates);
      var p: nat :| p in candidates && IsOldest(stamps, candidates, p);
      call := Call(p, now);
      rows := rows[p := rows[p].(updatedAt := now)];
      ok := true;
      assert [call][..0] == [];
      assert StampsOf(rows) == stamps[p := now];
    }

    method AccountKey(address: string, now: nat) returns (ok: bool, key: KeyRow, call: Call)
      modifies this
      ensures ok <==> exists i :: 0 <= i < |old(rows)| && old(rows)[i].owner == address
      ensures ok ==>
        && call.time == now && IsOldest(StampsOf(old(rows)), AccountCandidates(old(rows), address), call.pick)
        && key == old(rows)[call.pick] && key.owner == address
        && rows == old(rows)[call.pick := key.(updatedAt := now)]
      ensures !ok ==> rows == old(rows)
    {
      key := KeyRow("", 0, 0);
      var before := rows;
      var candidates := AccountCandidates(rows, address);
      assert forall i :: 0 <= i < |before| && before[i].owner == address ==> i in candidates;
      ok, call := Select(candidates, now);
      if ok {
        key := before[call.pick];
      }
    }

    method ProposalKeyIndex(limitKeyCount: int, now: nat) returns (ok: bool, keyIndex: nat, call: Call)
      modifies this
      ensures ok <==> old(rows) != []
      ensures ok ==>
        && call.time == now && IsOldest(StampsOf(old(rows)), ProposalCandidates(old(rows), limitKeyCount), call.pick)
        && (limitKeyCount > 0 ==> call.pick < limitKeyCount)
        && keyIndex == old(rows)[call.pick].keyIndex
        && rows == old(rows)[call.pick := old(rows)[call.pick].(updatedAt := now)]
      ensures !ok ==> rows == old(rows)
    {
      keyIndex := 0;
      ok, call := Select(ProposalCandidates(rows, limitKeyCount), now);
      if ok {
        keyIndex := rows[call.pick].keyIndex;
      } else {
        assert |rows| > 0 ==> 0 in ProposalCandidates(rows, limitKeyCount);
      }
    }
  }
}
