/**
  The chain event listener: ticks scan windows of sealed heights under a lock on one status row, and
  either commit the window, fail before dispatching, or dispatch and then roll back.
 */
module ChainListener {
  import opened Prelude

  /** Addition of unsigned 64-bit integers. */
  function Add64(x: nat, y: nat): nat {
    (x + y) % TWO_TO_THE_64
  }

  function Min(x: nat, y: nat): nat {
    if x > y then y else x
  }

  /** A closed interval of block heights. */
  datatype Window = Window(start: nat, end: nat)

  /** The window a tick scans when the sealed head is ahead of the status row. */
  function NextWindow(latest: nat, head: nat, maxBlocks: nat): Option<Window> {
    if head > latest then
      var start := Add64(latest, 1);
      Some(Window(start, Min(head, Add64(start, maxBlocks))))
    else None
  }

  /**
    The window is non-empty, ends at or below the head and has at most `maxBlocks + 1` heights, unless the
    addition wraps.
   */
  lemma WindowSoundExactly(latest: nat, head: nat, maxBlocks: nat)
    requires latest < head < TWO_TO_THE_64 && maxBlocks < TWO_TO_THE_64
    ensures var w := NextWindow(latest, head, maxBlocks).value;
            (w.start <= w.end <= head && w.end - w.start <= maxBlocks) <==> latest + 1 + maxBlocks < TWO_TO_THE_64
  {
    var start := Add64(latest, 1);
    assert start == latest + 1;
    if start + maxBlocks >= TWO_TO_THE_64 {
      assert Add64(start, maxBlocks) == start + maxBlocks - TWO_TO_THE_64;
    }
  }

  /** A window size near the limit wraps at once: the window ends before it starts, and the row is set back. */
  lemma WrappedWindow()
    ensures var maxBlocks := TWO_TO_THE_64 - 5;
            && NextWindow(10, 100, maxBlocks) == Some(Window(11, 6))
            && Apply(Progress(10, [], []), Tick(maxBlocks, 100, NoFault)).latest == 6
  {
    assert Add64(11, TWO_TO_THE_64 - 5) == 6;
  }

  /** What can go wrong in one tick, in the order it can go wrong. */
  datatype Fault = NoFault | Locked | HeaderError | RunError | SaveError

  /** One use of the status row by some listener. */
  datatype Step =
    | Tick(maxBlocks: nat, head: nat, fault: Fault)
    | InitHeight(startingHeight: nat, head: nat, fault: Fault)

  /** The status row, and the windows scanned so far: committed ones, and all whose events were dispatched. */
  datatype Progress = Progress(latest: nat, committed: seq<Window>, dispatched: seq<Window>)

  function InitialHeight(latest: nat, startingHeight: nat, head: nat): nat {
    var raised := if startingHeight > 0 && latest < startingHeight - 1 then startingHeight - 1 else latest;
    if raised == 0 then head else raised
  }

  function Apply(p: Progress, s: Step): Progress {
    match s
    case Tick(maxBlocks, head, fault) =>
      if fault in {Locked, HeaderError, RunError} then p
      else
        (match NextWindow(p.latest, head, maxBlocks)
         case None => p
         case Some(w) =>
           if fault == SaveError then p.(dispatched := p.dispatched + [w])
           else Progress(w.end, p.committed + [w], p.dispatched + [w]))
    case InitHeight(startingHeight, head, fault) =>
      if fault in {Locked, SaveError} then p
      else if fault == HeaderError && InitialHeight(p.latest, startingHeight, 0) == 0 then p
      else p.(latest := InitialHeight(p.latest, startingHeight, head))
  }

  function Run(latest: nat, steps: seq<Step>): Progress {
    if steps == [] then Progress(latest, [], [])
    else Apply(Run(latest, steps[..|steps| - 1]), steps[|steps| - 1])
  }

  /** The addition in this step's window, if it scans one, does not wrap. */
  predicate Fits(p: Progress, s: Step) {
    s.Tick? && s.fault in {NoFault, SaveError} && p.latest < s.head ==> p.latest + 1 + s.maxBlocks < TWO_TO_THE_64
  }

  /** No window of the run wraps. */
  predicate Fitting(latest: nat, steps: seq<Step>) {
    steps == []
    || (Fitting(latest, steps[..|steps| - 1]) && Fits(Run(latest, steps[..|steps| - 1]), steps[|steps| - 1]))
  }

  /** All listeners are configured with one starting height, and the row was initialised for it. */
  predicate Initialised(latest: nat, startingHeight: nat, steps: seq<Step>) {
    && 0 < latest && startingHeight <= latest + 1
    && forall s :: s in steps && s.InitHeight? ==> s.startingHeight == startingHeight
  }

  /**
    The first successful initialisation puts the row where the starting height demands; a listener
    started later with the same configuration changes nothing.
   */
  lemma InitHeightOnce(latest: nat, startingHeight: nat, head: nat, later: nat, laterHead: nat)
    requires 0 < InitialHeight(latest, startingHeight, head) <= later
    ensures latest <= InitialHeight(latest, startingHeight, head)
    ensures Initialised(later, startingHeight, [InitHeight(startingHeight, laterHead, NoFault)])
    ensures InitialHeight(later, startingHeight, laterHead) == later
  {
  }

  /**
    The height at which a listener starts scanning: after the stored height, but not before the configured
    one; a fresh listener without a configured height starts after the head it found.
   */
  lemma FirstWindowStart(latest: nat, startingHeight: nat, head: nat, laterHead: nat, maxBlocks: nat)
    requires var row := InitialHeight(latest, startingHeight, head); row < laterHead && row + 1 < TWO_TO_THE_64
    ensures var w := NextWindow(InitialHeight(latest, startingHeight, head), laterHead, maxBlocks);
            w.Some? && w.value.start == if startingHeight >= 2 && latest + 1 < startingHeight then startingHeight
                                        else if latest > 0 then latest + 1
                                        else head + 1
  {
  }

  /**
    A fresh listener starts at its configured height if and only if that is not the first one, which is
    taken for none.
   */
  lemma StartsAsConfiguredExactly(startingHeight: nat, head: nat, laterHead: nat, maxBlocks: nat)
    requires 1 <= startingHeight && 1 <= head
    requires var row := InitialHeight(0, startingHeight, head); row < laterHead && row + 1 < TWO_TO_THE_64
    ensures NextWindow(InitialHeight(0, startingHeight, head), laterHead, maxBlocks).value.start == startingHeight
       <==> startingHeight >= 2
  {
    FirstWindowStart(0, startingHeight, head, laterHead, maxBlocks);
  }

  // Tiling

  function Heights(from: nat, end: nat): seq<nat>
    decreases end + 1 - from
  {
    if from > end then [] else [from] + Heights(from + 1, end)
  }

  lemma {:induction false} HeightsAppend(from: nat, mid: nat, end: nat)
    requires from <= mid + 1 && mid <= end
    ensures Heights(from, end) == Heights(from, mid) + Heights(mid + 1, end)
    decreases mid + 1 - from
  {
    if from > mid {
    } else {
      HeightsAppend(from + 1, mid, end);
    }
  }

  function Flatten(ws: seq<Window>): seq<nat> {
    if ws == [] then [] else Flatten(ws[..|ws| - 1]) + Heights(ws[|ws| - 1].start, ws[|ws| - 1].end)
  }

  /** The listener's arithmetic without the wrap-around. */
  function PlainWindow(latest: nat, head: nat, maxBlocks: nat): Window {
    Window(latest + 1, Min(head, latest + 1 + maxBlocks))
  }

  lemma NoWrap(latest: nat, head: nat, maxBlocks: nat)
    requires latest < head && latest + 1 + maxBlocks < TWO_TO_THE_64
    ensures NextWindow(latest, head, maxBlocks) == Some(PlainWindow(latest, head, maxBlocks))
  {
  }

  /** A step that fits changes nothing, or dispatches the plain window and perhaps commits it. */
  lemma StepShape(p: Progress, s: Step, startingHeight: nat)
    requires Fits(p, s) && 0 < p.latest && startingHeight <= p.latest + 1
    requires s.InitHeight? ==> s.startingHeight == startingHeight
    ensures || Apply(p, s) == p
            || (&& s.Tick? && p.latest < s.head
                && var w := PlainWindow(p.latest, s.head, s.maxBlocks);
                   || (s.fault == NoFault && Apply(p, s) == Progress(w.end, p.committed + [w], p.dispatched + [w]))
                   || (s.fault == SaveError && Apply(p, s) == p.(dispatched := p.dispatched + [w])))
  {
    if s.Tick? && s.fault in {NoFault, SaveError} && p.latest < s.head {
      NoWrap(p.latest, s.head, s.maxBlocks);
    }
  }

  /** Listing the heights of the committed windows in order lists every height from the initial one to the latest. */
  predicate Tiled(latest: nat, p: Progress) {
    && latest <= p.latest
    && Flatten(p.committed) == Heights(latest + 1, p.latest)
    && (forall w :: w in p.committed ==> w.start <= w.end)
  }

  lemma FlattenAppend(ws: seq<Window>, w: Window)
    ensures Flatten(ws + [w]) == Flatten(ws) + Heights(w.start, w.end)
  {
    assert (ws + [w])[..|ws|] == ws;
  }

  /** A window that continues the latest height extends the tiling. */
  lemma WindowKeepsTiled(latest: nat, p: Progress, w: Window, dispatched: seq<Window>)
    requires Tiled(latest, p) && w.start == p.latest + 1 <= w.end
    ensures Tiled(latest, Progress(w.end, p.committed + [w], dispatched))
  {
    FlattenAppend(p.committed, w);
    HeightsAppend(latest + 1, p.latest, w.end);
  }

  lemma StepKeepsTiled(latest: nat, p: Progress, s: Step, startingHeight: nat)
    requires Tiled(latest, p) && Fits(p, s) && 0 < latest && startingHeight <= latest + 1
    requires s.InitHeight? ==> s.startingHeight == startingHeight
    ensures Tiled(latest, Apply(p, s))
  {
    StepShape(p, s, startingHeight);
    if Apply(p, s).committed != p.committed {
      WindowKeepsTiled(latest, p, PlainWindow(p.latest, s.head, s.maxBlocks), Apply(p, s).dispatched);
    }
  }

  /**
    Whatever mix of ticks fails, rolls back or commits, the committed windows are consecutive, disjoint
    and without gaps.
   */
  lemma {:induction false} WindowsTile(latest: nat, startingHeight: nat, steps: seq<Step>)
    requires Initialised(latest, startingHeight, steps) && Fitting(latest, steps)
    ensures Tiled(latest, Run(latest, steps))
  {
    if steps == [] {
    } else {
      var front, s := steps[..|steps| - 1], steps[|steps| - 1];
      assert s in steps;
      WindowsTile(latest, startingHeight, front);
      StepKeepsTiled(latest, Run(latest, front), s, startingHeight);
    }
  }

  /**
    A committed window is at most `maxBlocks + 1` long and ends at or below the sealed head; every other
    tick leaves the row alone.
   */
  lemma TickCommitsOrLeaves(p: Progress, s: Step)
    requires s.Tick? && Fits(p, s)
    ensures var q := Apply(p, s);
            if q.committed == p.committed then q.latest == p.latest
            else exists w ::
              && q.committed == p.committed + [w] && s.fault == NoFault
              && w.start == p.latest + 1 <= w.end == q.latest <= s.head
              && w.end - w.start <= s.maxBlocks
              && (w.end == s.head || w.end - w.start == s.maxBlocks)
  {
    var q := Apply(p, s);
    if s.fault == NoFault && s.head > p.latest {
      assert q.committed == p.committed + [NextWindow(p.latest, s.head, s.maxBlocks).value];
    } else {
      assert q.committed == p.committed;
    }
  }

  // Redelivery

  function Max(x: nat, y: nat): nat {
    if x < y then y else x
  }

  /** The highest height ever dispatched, committed or not. */
  function Top(latest: nat, ws: seq<Window>): nat {
    if ws == [] then latest else Max(Top(latest, ws[..|ws| - 1]), ws[|ws| - 1].end)
  }

  lemma TopAppend(latest: nat, ws: seq<Window>, w: Window)
    ensures Top(latest, ws + [w]) == Max(Top(latest, ws), w.end)
  {
    assert (ws + [w])[..|ws|] == ws;
  }

  predicate InWindow(w: Window, h: nat) {
    w.start <= h <= w.end
  }

  predicate Covers(ws: seq<Window>, h: nat) {
    exists w :: w in ws && InWindow(w, h)
  }

  lemma CoversAppend(ws: seq<Window>, w: Window, h: nat)
    ensures Covers(ws + [w], h) <==> Covers(ws, h) || InWindow(w, h)
  {
    if Covers(ws, h) {
      var v :| v in ws && InWindow(v, h);
      assert v in ws + [w];
    }
    if InWindow(w, h) {
      assert w in ws + [w];
    }
  }

  /** The dispatched windows cover exactly the heights above the initial one up to the highest dispatched. */
  ghost predicate CoversUpToTop(latest: nat, ws: seq<Window>) {
    forall h: nat :: Covers(ws, h) <==> latest < h <= Top(latest, ws)
  }

  ghost predicate Contiguous(latest: nat, p: Progress) {
    latest <= p.latest <= Top(latest, p.dispatched) && CoversUpToTop(latest, p.dispatched)
  }

  /** So they do with a window that overlaps or continues them. */
  lemma WindowKeepsCovers(latest: nat, ws: seq<Window>, w: Window)
    requires CoversUpToTop(latest, ws) && latest < w.start <= Top(latest, ws) + 1
    ensures CoversUpToTop(latest, ws + [w])
  {
    TopAppend(latest, ws, w);
    forall h: nat
      ensures Covers(ws + [w], h) <==> latest < h <= Top(latest, ws + [w])
    {
      CoversAppend(ws, w, h);
    }
  }

  lemma StepKeepsContiguous(latest: nat, p: Progress, s: Step, startingHeight: nat)
    requires Contiguous(latest, p) && Fits(p, s) && 0 < latest && startingHeight <= latest + 1
    requires s.InitHeight? ==> s.startingHeight == startingHeight
    ensures Contiguous(latest, Apply(p, s))
  {
    StepShape(p, s, startingHeight);
    if Apply(p, s) != p {
      var w := PlainWindow(p.latest, s.head, s.maxBlocks);
      TopAppend(latest, p.dispatched, w);
      WindowKeepsCovers(latest, p.dispatched, w);
    }
  }

  lemma {:induction false} RunContiguous(latest: nat, startingHeight: nat, steps: seq<Step>)
    requires Initialised(latest, startingHeight, steps) && Fitting(latest, steps)
    ensures Contiguous(latest, Run(latest, steps))
  {
    if steps == [] {
    } else {
      var front, s := steps[..|steps| - 1], steps[|steps| - 1];
      assert s in steps;
      RunContiguous(latest, startingHeight, front);
      StepKeepsContiguous(latest, Run(latest, front), s, startingHeight);
    }
  }

  /** Together, the dispatched windows cover exactly the heights above the initial one up to the highest dispatched. */
  lemma DispatchedCoverage(latest: nat, startingHeight: nat, steps: seq<Step>, h: nat)
    requires Initialised(latest, startingHeight, steps) && Fitting(latest, steps)
    ensures var p := Run(latest, steps);
            && p.latest <= Top(latest, p.dispatched)
            && (Covers(p.dispatched, h) <==> latest < h <= Top(latest, p.dispatched))
  {
    RunContiguous(latest, startingHeight, steps);
  }

  /** All listeners use one window size, and the sealed head they see does not go back. */
  predicate Steady(steps: seq<Step>, maxBlocks: nat, head: nat) {
    steps == []
    || (var s := steps[|steps| - 1];
        if s.Tick? then s.maxBlocks == maxBlocks && s.head <= head && Steady(steps[..|steps| - 1], maxBlocks, s.head)
        else Steady(steps[..|steps| - 1], maxBlocks, head))
  }

  /** What was dispatched lies within the next window. */
  predicate WithinReach(latest: nat, p: Progress, maxBlocks: nat, head: nat) {
    latest <= p.latest && Top(latest, p.dispatched) <= Max(p.latest, Min(head, p.latest + 1 + maxBlocks))
  }

  lemma StepKeepsWithinReach(latest: nat, p: Progress, s: Step, startingHeight: nat, maxBlocks: nat, head: nat)
    requires Fits(p, s) && 0 < latest && startingHeight <= latest + 1
    requires if s.Tick? then s.maxBlocks == maxBlocks && s.head <= head else s.startingHeight == startingHeight
    requires WithinReach(latest, p, maxBlocks, if s.Tick? then s.head else head)
    ensures WithinReach(latest, Apply(p, s), maxBlocks, head)
  {
    StepShape(p, s, startingHeight);
    if Apply(p, s) != p {
      TopAppend(latest, p.dispatched, PlainWindow(p.latest, s.head, s.maxBlocks));
    }
  }

  lemma {:induction false} DispatchedWithinReach(
      latest: nat, startingHeight: nat, steps: seq<Step>, maxBlocks: nat, head: nat)
    requires Initialised(latest, startingHeight, steps) && Fitting(latest, steps)
    requires Steady(steps, maxBlocks, head)
    ensures WithinReach(latest, Run(latest, steps), maxBlocks, head)
  {
    if steps == [] {
    } else {
      var front, s := steps[..|steps| - 1], steps[|steps| - 1];
      assert s in steps;
      DispatchedWithinReach(latest, startingHeight, front, maxBlocks, if s.Tick? then s.head else head);
      StepKeepsWithinReach(latest, Run(latest, front), s, startingHeight, maxBlocks, head);
    }
  }

  /**
    A tick without fault commits everything dispatched before it, so that no rolled-back window is left
    ahead of the row.
   */
  lemma CommitCatchesUp(latest: nat, startingHeight: nat, steps: seq<Step>, tick: Step)
    requires Initialised(latest, startingHeight, steps + [tick]) && Fitting(latest, steps + [tick])
    requires tick.Tick? && tick.fault == NoFault && Steady(steps + [tick], tick.maxBlocks, tick.head)
    ensures var p := Run(latest, steps + [tick]);
            Top(latest, p.dispatched) == p.latest
  {
    var all := steps + [tick];
    assert all[..|steps|] == steps && tick in all;
    assert forall s :: s in steps ==> s in all;
    DispatchedWithinReach(latest, startingHeight, steps, tick.maxBlocks, tick.head);
    RunContiguous(latest, startingHeight, all);
    var p := Run(latest, steps);
    StepShape(p, tick, startingHeight);
    if p.latest < tick.head {
      var w := PlainWindow(p.latest, tick.head, tick.maxBlocks);
      NoWrap(p.latest, tick.head, tick.maxBlocks);
      TopAppend(latest, p.dispatched, w);
    }
  }

  // Catching up

  /** `n` ticks in a row that meet no fault and see the same head. */
  function SteadyTicks(n: nat, head: nat, maxBlocks: nat): seq<Step> {
    seq(n, _ => Tick(maxBlocks, head, NoFault))
  }

  lemma SteadyTick(p: Progress, head: nat, maxBlocks: nat)
    requires p.latest <= head && Fits(p, Tick(maxBlocks, head, NoFault))
    ensures Apply(p, Tick(maxBlocks, head, NoFault)).latest == Min(head, p.latest + maxBlocks + 1)
  {
    if p.latest < head {
      NoWrap(p.latest, head, maxBlocks);
    }
  }

  lemma SteadyStep(latest: nat, head: nat, maxBlocks: nat, n: nat)
    requires Fitting(latest, SteadyTicks(n + 1, head, maxBlocks))
    requires Run(latest, SteadyTicks(n, head, maxBlocks)).latest <= head
    ensures Run(latest, SteadyTicks(n + 1, head, maxBlocks)).latest
         == Min(head, Run(latest, SteadyTicks(n, head, maxBlocks)).latest + maxBlocks + 1)
  {
    var ticks := SteadyTicks(n + 1, head, maxBlocks);
    assert ticks[..n] == SteadyTicks(n, head, maxBlocks);
    SteadyTick(Run(latest, ticks[..n]), head, maxBlocks);
  }

  lemma {:induction false} SteadyProgress(latest: nat, head: nat, maxBlocks: nat, n: nat)
    requires latest <= head && Fitting(latest, SteadyTicks(n, head, maxBlocks))
    ensures Run(latest, SteadyTicks(n, head, maxBlocks)).latest == Min(head, latest + n * (maxBlocks + 1))
  {
    if n == 0 {
      assert SteadyTicks(0, head, maxBlocks) == [];
    } else {
      assert SteadyTicks(n, head, maxBlocks)[..n - 1] == SteadyTicks(n - 1, head, maxBlocks);
      SteadyProgress(latest, head, maxBlocks, n - 1);
      SteadyStep(latest, head, maxBlocks, n - 1);
      MultiplyStep(n - 1, maxBlocks + 1);
    }
  }

  lemma MultiplyStep(n: nat, k: nat)
    ensures (n + 1) * k == n * k + k
  {
  }

  function CeilDiv(x: nat, y: nat): nat
    requires 0 < y
  {
    (x + y - 1) / y
  }

  lemma MultiplyMonotone(a: nat, b: nat, k: nat)
    requires a <= b
    ensures a * k <= b * k
  {
  }

  lemma CeilDivBounds(x: nat, y: nat)
    requires 0 < y
    ensures x <= CeilDiv(x, y) * y < x + y
  {
  }

  lemma CeilDivIsLeast(x: nat, y: nat, n: nat)
    requires 0 < y
    ensures x <= n * y <==> CeilDiv(x, y) <= n
  {
    var q := CeilDiv(x, y);
    CeilDivBounds(x, y);
    if q <= n {
      MultiplyMonotone(q, n, y);
    } else {
      MultiplyMonotone(n + 1, q, y);
      MultiplyStep(n, y);
    }
  }

  /**
    The listener is at the head after exactly the ticks the window size demands, and not one earlier; from
    then on a tick changes nothing.
   */
  lemma CatchUpExactly(latest: nat, head: nat, maxBlocks: nat, n: nat, fault: Fault)
    requires latest <= head && Fitting(latest, SteadyTicks(n, head, maxBlocks))
    ensures var p := Run(latest, SteadyTicks(n, head, maxBlocks));
            && (p.latest == head <==> CeilDiv(head - latest, maxBlocks + 1) <= n)
            && (p.latest == head ==> Apply(p, Tick(maxBlocks, head, fault)) == p)
  {
    SteadyProgress(latest, head, maxBlocks, n);
    CeilDivIsLeast(head - latest, maxBlocks + 1, n);
  }
}
