/** The recalibration state machine of the main loop over every run of risk checks. */
module Recalibration {

  datatype Action = Recalibrate | EmergencyHalt | OtherAction

  /** One call: the risk action, whether the recalibrator says abort, whether it says recovered, and the clock. */
  datatype Call = Call(action: Action, abort: bool, recovered: bool, ts: int)

  /** What a call did, in order. */
  datatype Mark = Entered | Exited | Liquidated

  datatype Recal = Recal(
    active: bool, startNs: int, entries: nat, exits: nat, emergencyLiquidations: nat, lastCheckNs: int,
    trace: seq<Mark>)

  const IDLE := Recal(false, 0, 0, 0, 0, 0, [])

  function Liquidate(s: Recal): Recal {
    s.(emergencyLiquidations := s.emergencyLiquidations + 1, trace := s.trace + [Liquidated])
  }

  function Step(s: Recal, c: Call): Recal {
    if c.action.EmergencyHalt? then (if s.active then s else Liquidate(s))
    else if c.abort && !s.active then Liquidate(s)
    else
      var begun := if c.action.Recalibrate? && !s.active
                   then s.(active := true, startNs := c.ts, entries := s.entries + 1, trace := s.trace + [Entered])
                   else s;
      if !begun.active then begun
      else
        var ended := if c.recovered && c.action.OtherAction?
                     then begun.(active := false, startNs := 0, exits := begun.exits + 1,
                                 trace := begun.trace + [Exited])
                     else begun;
        ended.(lastCheckNs := c.ts)
  }

  function Run(cs: seq<Call>): Recal {
    if cs == [] then IDLE else Step(Run(cs[..|cs| - 1]), cs[|cs| - 1])
  }

  function Count(trace: seq<Mark>, m: Mark): nat {
    if trace == [] then 0 else Count(trace[..|trace| - 1], m) + (if trace[|trace| - 1] == m then 1 else 0)
  }

  /** An exit comes right after an entry, and nothing but an exit does. */
  ghost predicate WellOrdered(trace: seq<Mark>) {
    && (trace != [] ==> trace[0] != Exited)
    && forall i :: 0 < i < |trace| ==> (trace[i] == Exited <==> trace[i - 1] == Entered)
  }

  /** The last mark is an entry. */
  predicate Open(trace: seq<Mark>) {
    trace != [] && trace[|trace| - 1] == Entered
  }

  lemma WellOrderedAppend(trace: seq<Mark>, m: Mark)
    requires WellOrdered(trace) && (m == Exited <==> Open(trace))
    ensures WellOrdered(trace + [m])
  {
    var t := trace + [m];
    forall i | 0 < i < |t| ensures t[i] == Exited <==> t[i - 1] == Entered {
      assert i < |trace| ==> t[i] == trace[i] && t[i - 1] == trace[i - 1];
    }
  }

  lemma CountAppend(trace: seq<Mark>, m: Mark, n: Mark)
    ensures Count(trace + [m], n) == Count(trace, n) + (if m == n then 1 else 0)
  {
    assert (trace + [m])[..|trace|] == trace;
  }

  /** What every run keeps. */
  ghost predicate Inv(s: Recal) {
    && WellOrdered(s.trace) && (s.active <==> Open(s.trace))
    && s.entries == Count(s.trace, Entered) && s.exits == Count(s.trace, Exited)
    && s.emergencyLiquidations == Count(s.trace, Liquidated)
    && s.entries == s.exits + (if s.active then 1 else 0)
    && (!s.active ==> s.startNs == 0)
  }

  /** A call adds at most one mark: an entry, exit or liquidation under exactly these conditions. */
  lemma StepMarks(s: Recal, c: Call)
    ensures Step(s, c).trace == s.trace || exists m :: Step(s, c).trace == s.trace + [m]
    ensures Step(s, c).trace == s.trace + [Entered] <==> !s.active && c.action.Recalibrate? && !c.abort
    ensures Step(s, c).trace == s.trace + [Exited] <==> s.active && c.recovered && c.action.OtherAction?
    ensures Step(s, c).trace == s.trace + [Liquidated] <==> !s.active && (c.action.EmergencyHalt? || c.abort)
  {
    var t := Step(s, c).trace;
    assert t == s.trace || t == s.trace + [Entered] || t == s.trace + [Exited] || t == s.trace + [Liquidated];
    assert (s.trace + [Entered])[|s.trace|] == Entered && (s.trace + [Exited])[|s.trace|] == Exited;
    assert (s.trace + [Liquidated])[|s.trace|] == Liquidated;
  }

  /** One more mark that fits keeps the invariant. */
  lemma MarkInv(s: Recal, n: Recal, m: Mark)
    requires Inv(s) && n.trace == s.trace + [m] && (m == Exited <==> s.active) && (n.active <==> m == Entered)
    requires n.entries == s.entries + (if m == Entered then 1 else 0)
             && n.exits == s.exits + (if m == Exited then 1 else 0)
    requires n.emergencyLiquidations == s.emergencyLiquidations + (if m == Liquidated then 1 else 0)
    requires !n.active ==> n.startNs == 0
    ensures Inv(n)
  {
    WellOrderedAppend(s.trace, m);
    CountAppend(s.trace, m, Entered);
    CountAppend(s.trace, m, Exited);
    CountAppend(s.trace, m, Liquidated);
  }

  lemma StepInv(s: Recal, c: Call)
    requires Inv(s)
    ensures Inv(Step(s, c))
  {
    var n := Step(s, c);
    if !s.active && (c.action.EmergencyHalt? || c.abort) {
      MarkInv(s, n, Liquidated);
    } else if !s.active && c.action.Recalibrate? {
      MarkInv(s, n, Entered);
    } else if s.active && c.recovered && c.action.OtherAction? {
      MarkInv(s, n, Exited);
    } else {
      assert n == s.(lastCheckNs := n.lastCheckNs);
    }
  }

  /**
   * In every run entries and exits alternate, no liquidation falls inside a recalibration, the counters count the
   * marks, and the start time is zero when inactive.
   */
  lemma {:induction false} RunInv(cs: seq<Call>)
    ensures Inv(Run(cs))
  {
    if cs != [] {
      RunInv(cs[..|cs| - 1]);
      StepInv(Run(cs[..|cs| - 1]), cs[|cs| - 1]);
    }
  }

  /**
   * So entries and exits strictly alternate: two entries have an exit between them, two exits an entry, and no
   * liquidation falls between an entry and its exit.
   */
  lemma EntriesAndExitsAlternate(cs: seq<Call>, i: nat, j: nat)
    requires i < j < |Run(cs).trace|
    ensures var t := Run(cs).trace;
            && (t[i] == Entered && t[j] == Entered ==> exists k :: i < k < j && t[k] == Exited)
            && (t[i] == Exited && t[j] == Exited ==> exists k :: i < k < j && t[k] == Entered)
            && (t[i] == Entered && t[j] == Liquidated ==> exists k :: i < k < j && t[k] == Exited)
  {
    RunInv(cs);
    var t := Run(cs).trace;
    if t[i] == Entered && t[j] != Exited {
      assert t[i + 1] == Exited;
    } else if t[i] == Exited && t[j] == Exited {
      assert t[j - 1] == Entered;
    }
  }

  class RecalibrationLoop {
    var active: bool
    var startNs: int
    var entries: nat
    var exits: nat
    var emergencyLiquidations: nat
    var lastCheckNs: int
    var trace: seq<Mark>

    function State(): Recal
      reads this
    {
      Recal(active, startNs, entries, exits, emergencyLiquidations, lastCheckNs, trace)
    }

    constructor ()
      ensures State() == IDLE
    {
      active, startNs, entries, exits, emergencyLiquidations, lastCheckNs, trace := false, 0, 0, 0, 0, 0, [];
    }

    method AdvanceRecalibration(c: Call)
      modifies this
      ensures State() == Step(old(State()), c)
    {
      if c.action.EmergencyHalt? {
        if !active {
          emergencyLiquidations := emergencyLiquidations + 1;
          trace := trace + [Liquidated];
        }
        return;
      }
      if c.abort && !active {
        emergencyLiquidations := emergencyLiquidations + 1;
        trace := trace + [Liquidated];
        return;
      }
      if c.action.Recalibrate? && !active {
        active := true;
        startNs := c.ts;
        entries := entries + 1;
        trace := trace + [Entered];
      }
      if active {
        if c.recovered {
          if c.action.OtherAction? {
            active := false;
            startNs := 0;
            exits := exits + 1;
            trace := trace + [Exited];
          }
        }
        lastCheckNs := c.ts;
      }
    }
  }
}
