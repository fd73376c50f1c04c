/**
  The chain as the listener sees it, and the listener as the object it is: one status row, and a
  list of the events handed to the handlers.
 */
module ChainEvents {
  import opened Prelude
  import opened ChainListener

  /** The value a deposit event carries: an amount of a fungible token, or the id of an NFT. */
  datatype Payload = Amount(text: string) | NftId(text: string)

  datatype ChainEvent = ChainEvent(typ: string, txId: string, to: string, payload: Payload)

  /** Sealed blocks by height; sealed blocks never change. */
  type Chain = seq<seq<ChainEvent>>

  function OfType(events: seq<ChainEvent>, typ: string): seq<ChainEvent> {
    if events == [] then []
    else (if events[0].typ == typ then [events[0]] else []) + OfType(events[1..], typ)
  }

  /** What a height range query answers, block by block. */
  function RangeQuery(chain: Chain, typ: string, start: nat, end: nat): seq<seq<ChainEvent>>
    requires start <= end < |chain|
  {
    seq(end - start + 1, i requires 0 <= i <= end - start => OfType(chain[start + i], typ))
  }

  function Concat(blocks: seq<seq<ChainEvent>>): seq<ChainEvent> {
    if blocks == [] then [] else Concat(blocks[..|blocks| - 1]) + blocks[|blocks| - 1]
  }

  /** The events of a window in the order `run` dispatches them: type by type, then height by height. */
  function Scan(chain: Chain, types: seq<string>, start: nat, end: nat): seq<ChainEvent>
    requires start <= end < |chain|
  {
    if types == [] then []
    else Scan(chain, types[..|types| - 1], start, end) + Concat(RangeQuery(chain, types[|types| - 1], start, end))
  }

  /** The event types can be listed, and all queries of a run over this window are answered. */
  predicate CanScan(chain: Chain, types: seq<string>, w: Window, typesFail: bool, failing: Option<nat>) {
    !typesFail && (types == [] || (w.start <= w.end < |chain| && (failing == None || failing.value >= |types|)))
  }

  // What a scan contains

  lemma {:induction false} OfTypeMembers(events: seq<ChainEvent>, typ: string, e: ChainEvent)
    ensures e in OfType(events, typ) <==> e in events && e.typ == typ
  {
    if events == [] {
    } else {
      OfTypeMembers(events[1..], typ, e);
      assert events == [events[0]] + events[1..];
    }
  }

  lemma {:induction false} ConcatMembers(blocks: seq<seq<ChainEvent>>, e: ChainEvent)
    ensures e in Concat(blocks) <==> exists i :: 0 <= i < |blocks| && e in blocks[i]
  {
    if blocks == [] {
    } else {
      ConcatMembers(blocks[..|blocks| - 1], e);
    }
  }

  /** The event was emitted at a height of the range. */
  predicate EmittedIn(chain: Chain, start: nat, end: nat, e: ChainEvent) {
    exists h :: start <= h <= end && h < |chain| && e in chain[h]
  }

  lemma {:induction false} RangeMembers(chain: Chain, typ: string, start: nat, end: nat, e: ChainEvent)
    requires start <= end < |chain|
    ensures e in Concat(RangeQuery(chain, typ, start, end)) <==> e.typ == typ && EmittedIn(chain, start, end, e)
  {
    var r := RangeQuery(chain, typ, start, end);
    ConcatMembers(r, e);
    forall i | 0 <= i < |r|
      ensures e in r[i] <==> e in chain[start + i] && e.typ == typ
    {
      OfTypeMembers(chain[start + i], typ, e);
    }
    if e.typ == typ && EmittedIn(chain, start, end, e) {
      var h :| start <= h <= end && h < |chain| && e in chain[h];
      assert e in r[h - start];
    }
  }

  /** A scan dispatches exactly the events of the listened types emitted in its window. */
  lemma {:induction false} ScanMembers(chain: Chain, types: seq<string>, start: nat, end: nat, e: ChainEvent)
    requires start <= end < |chain|
    ensures e in Scan(chain, types, start, end) <==> e.typ in types && EmittedIn(chain, start, end, e)
  {
    if types == [] {
    } else {
      ScanMembers(chain, types[..|types| - 1], start, end, e);
      RangeMembers(chain, types[|types| - 1], start, end, e);
      assert types == types[..|types| - 1] + [types[|types| - 1]];
    }
  }

  /** How often the event was emitted in a range of heights. */
  function EmittedCount(chain: Chain, start: nat, end: nat, e: ChainEvent): nat
    requires start <= end + 1 && end < |chain|
    decreases end + 1 - start
  {
    if start > end then 0 else multiset(chain[start])[e] + EmittedCount(chain, start + 1, end, e)
  }

  lemma {:induction false} OfTypeCount(events: seq<ChainEvent>, typ: string, e: ChainEvent)
    ensures multiset(OfType(events, typ))[e] == if e.typ == typ then multiset(events)[e] else 0
  {
    if events != [] {
      OfTypeCount(events[1..], typ, e);
      assert events == [events[0]] + events[1..];
    }
  }

  lemma {:induction false} ConcatSplit(a: seq<seq<ChainEvent>>, b: seq<seq<ChainEvent>>)
    ensures Concat(a + b) == Concat(a) + Concat(b)
  {
    if b == [] {
      assert a + b == a;
    } else {
      var front, last := b[..|b| - 1], b[|b| - 1];
      assert (a + b)[..|a + b| - 1] == a + front && (a + b)[|a + b| - 1] == last;
      ConcatSplit(a, front);
      assert Concat(a) + Concat(front) + last == Concat(a) + (Concat(front) + last);
    }
  }

  /** A query answers the blocks in the order of their heights. */
  lemma RangeInOrder(chain: Chain, typ: string, start: nat, mid: nat, end: nat)
    requires start <= mid < end < |chain|
    ensures Concat(RangeQuery(chain, typ, start, end))
         == Concat(RangeQuery(chain, typ, start, mid)) + Concat(RangeQuery(chain, typ, mid + 1, end))
  {
    var a, b := RangeQuery(chain, typ, start, mid), RangeQuery(chain, typ, mid + 1, end);
    assert RangeQuery(chain, typ, start, end) == a + b;
    ConcatSplit(a, b);
  }

  lemma OneBlock(chain: Chain, typ: string, h: nat)
    requires h < |chain|
    ensures Concat(RangeQuery(chain, typ, h, h)) == OfType(chain[h], typ)
  {
    assert RangeQuery(chain, typ, h, h) == [OfType(chain[h], typ)];
    assert Concat([]) == [] && [OfType(chain[h], typ)][..0] == [];
  }

  lemma {:induction false} RangeCount(chain: Chain, typ: string, start: nat, end: nat, e: ChainEvent)
    requires start <= end < |chain|
    ensures multiset(Concat(RangeQuery(chain, typ, start, end)))[e]
         == if e.typ == typ then EmittedCount(chain, start, end, e) else 0
    decreases end - start
  {
    OneBlock(chain, typ, start);
    OfTypeCount(chain[start], typ, e);
    if start < end {
      RangeInOrder(chain, typ, start, start, end);
      RangeCount(chain, typ, start + 1, end, e);
    }
  }

  lemma ScanCountStep(chain: Chain, front: seq<string>, typ: string, start: nat, end: nat, e: ChainEvent)
    requires start <= end < |chain|
    ensures multiset(Scan(chain, front + [typ], start, end))[e]
         == multiset(Scan(chain, front, start, end))[e]
            + if e.typ == typ then EmittedCount(chain, start, end, e) else 0
  {
    assert (front + [typ])[..|front|] == front;
    RangeCount(chain, typ, start, end, e);
    CountConcat(Scan(chain, front, start, end), Concat(RangeQuery(chain, typ, start, end)), e);
  }

  /** A scan dispatches every event as often as it was emitted in the window, for each time its type is listened to. */
  lemma {:induction false} ScanCounts(chain: Chain, types: seq<string>, start: nat, end: nat, e: ChainEvent)
    requires start <= end < |chain|
    ensures multiset(Scan(chain, types, start, end))[e]
         == multiset(types)[e.typ] * EmittedCount(chain, start, end, e)
  {
    if types != [] {
      var front, typ := types[..|types| - 1], types[|types| - 1];
      assert types == front + [typ];
      ScanCounts(chain, front, start, end, e);
      ScanCountStep(chain, front, typ, start, end, e);
      CountLast(front, typ, e.typ);
      TimesOneMore(multiset(front)[e.typ], EmittedCount(chain, start, end, e));
    }
  }

  lemma CountLast(front: seq<string>, typ: string, x: string)
    ensures multiset(front + [typ])[x] == multiset(front)[x] + if x == typ then 1 else 0
  {
  }

  lemma CountConcat<T>(a: seq<T>, b: seq<T>, x: T)
    ensures multiset(a + b)[x] == multiset(a)[x] + multiset(b)[x]
  {
  }

  lemma TimesOneMore(a: nat, n: nat)
    ensures (a + 1) * n == a * n + n
  {
  }

  class Listener {
    const maxBlocks: nat
    const startingHeight: nat
    /** The locked status row. */
    var latestHeight: nat
    /** The events triggered so far. */
    var triggered: seq<ChainEvent>

    constructor (maxBlocks: nat, startingHeight: nat, latestHeight: nat)
      ensures this.maxBlocks == maxBlocks && this.startingHeight == startingHeight
      ensures this.latestHeight == latestHeight && triggered == []
    {
      this.maxBlocks, this.startingHeight, this.latestHeight := maxBlocks, startingHeight, latestHeight;
      triggered := [];
    }

    /** All events of the blocks a query answers with. */
    method Gather(blocks: seq<seq<ChainEvent>>) returns (events: seq<ChainEvent>)
      ensures events == Concat(blocks)
    {
      events := [];
      for k := 0 to |blocks|
        invariant events == Concat(blocks[..k])
      {
        events := events + blocks[k];
        assert blocks[..k + 1][..k] == blocks[..k];
      }
      assert blocks[..|blocks|] == blocks;
    }

    /** The queries of a run. `failing` is the index of one that fails, if any. */
    method Query(chain: Chain, types: seq<string>, start: nat, end: nat, failing: Option<nat>)
      returns (ok: bool, events: seq<ChainEvent>)
      ensures ok <==> CanScan(chain, types, Window(start, end), false, failing)
      ensures ok ==> events == if types == [] then [] else Scan(chain, types, start, end)
    {
      events := [];
      for i := 0 to |types|
        invariant i > 0 ==> start <= end < |chain| && events == Scan(chain, types[..i], start, end)
        invariant i == 0 ==> events == []
        invariant failing.Some? ==> i <= failing.value
      {
        if failing == Some(i) || start > end || end >= |chain| {
          return false, events;
        }
        var r := RangeQuery(chain, types[i], start, end);
        var found := Gather(r);
        events := events + found;
        assert types[..i + 1][..i] == types[..i];
      }
      assert types[..|types|] == types;
      ok := true;
    }

    method Dispatch(events: seq<ChainEvent>)
      modifies this`triggered
      ensures triggered == old(triggered) + events
    {
      for i := 0 to |events|
        invariant triggered == old(triggered) + events[..i]
      {
        triggered := triggered + [events[i]];
      }
      assert events[..|events|] == events;
    }

    /** All queries are made before anything is dispatched. */
    method Run(chain: Chain, types: seq<string>, start: nat, end: nat, typesFail: bool, failing: Option<nat>)
      returns (ok: bool)
      modifies this`triggered
      ensures ok <==> CanScan(chain, types, Window(start, end), typesFail, failing)
      ensures ok && types != [] ==> triggered == old(triggered) + Scan(chain, types, start, end)
      ensures !ok || types == [] ==> triggered == old(triggered)
    {
      if typesFail {
        return false;
      }
      var events;
      ok, events := Query(chain, types, start, end, failing);
      if ok {
        Dispatch(events);
      }
    }

    /**
      The body of one tick. The flags say whether the row lock, the header query, the listing of event
      types and the final save fail; the result says how the tick ended.
     */
    method OnTick(
        chain: Chain, types: seq<string>, head: nat,
        locked: bool, headerFails: bool, typesFail: bool, failing: Option<nat>, saveFails: bool)
      returns (fault: Fault)
      modifies this`latestHeight, this`triggered
      ensures var w := NextWindow(old(latestHeight), head, maxBlocks);
              fault == if locked then Locked
                       else if headerFails then HeaderError
                       else if w.Some? && !CanScan(chain, types, w.value, typesFail, failing) then RunError
                       else if saveFails then SaveError
                       else NoFault
      ensures var p := Apply(Progress(old(latestHeight), [], []), Tick(maxBlocks, head, fault));
              && latestHeight == p.latest
              && (p.dispatched == [] || types == [] ==> triggered == old(triggered))
              && (p.dispatched != [] && types != [] ==>
                    && CanScan(chain, types, p.dispatched[0], typesFail, failing)
                    && triggered == old(triggered) + Scan(chain, types, p.dispatched[0].start, p.dispatched[0].end))
    {
      if locked {
        return Locked;
      }
      var status := latestHeight;
      if headerFails {
        return HeaderError;
      }
      if head > status {
        var start := Add64(status, 1);
        var end := Min(head, Add64(start, maxBlocks));
        var ok := Run(chain, types, start, end, typesFail, failing);
        if !ok {
          return RunError;
        }
        status := end;
      }
      if saveFails {
        return SaveError;
      }
      latestHeight := status;
      fault := NoFault;
    }

    /** The initialisation at start-up; a failed header query or save leaves the row as it was. */
    method InitHeight(head: nat, headerFails: bool, saveFails: bool) returns (ok: bool)
      modifies this`latestHeight
      ensures ok <==> !saveFails && (headerFails ==> InitialHeight(old(latestHeight), startingHeight, 0) != 0)
      ensures ok ==> latestHeight == InitialHeight(old(latestHeight), startingHeight, head)
      ensures !ok ==> latestHeight == old(latestHeight)
    {
      var status := latestHeight;
      if startingHeight > 0 && status < startingHeight - 1 {
        status := startingHeight - 1;
      }
      if status == 0 {
        if headerFails {
          return false;
        }
        status := head;
      }
      if saveFails {
        return false;
      }
      latestHeight := status;
      ok := true;
    }
  }
}
