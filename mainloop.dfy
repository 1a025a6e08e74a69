/** The supervision loop of `main`: each pass checks the battery, then
    whether anything is plugged in, and starts, stops or keeps the inverter
    running, with three counters that carry over from pass to pass. The
    routines a pass calls are modelled on their own elsewhere; here a pass
    sees only what they report (a Check) and records the calls it makes (a
    list of Actions). */
module Supervisor {
  import opened Board

  /** The counters `main` keeps across passes. */
  datatype Counters = Counters(noLoad: nat, prevWasLoad: bool, lowBatt: nat)

  /** `no_load_counter = 0`, `prev_was_load = false`, `low_batt_counter = 0`. */
  function Initial(): Counters {
    Counters(0, false, 0)
  }

  /** What one pass learns: is_power_good, anything_plugged, the code
      start_inverter returns and enough_power_drawn. A pass reads only the
      fields it reaches. */
  datatype Check = Check(powerGood: bool, plugged: bool, status: bv8, loadDrawn: bool)

  /** The calls and power-state changes of a pass, in order. */
  datatype Action =
    | Stop(cutPower: bool)  // stop_inverter
    | Blink(code: bv8)      // show_error
    | Wait(rounds: nat)     // wait_if_plugged
    | Start                 // start_inverter
    | MeasureLoad     // enough_power_drawn
    | Wakeup          // LIN_wakeup, so the inverter does not cut its power by timeout
    | Sleep           // ENTER_IDLE until something is plugged in
    | PowerDown       // ENTER_PD and the endless loop after it

  /** The state after some passes, the calls made so far, and whether the
      controller has halted for good. */
  datatype Outcome = Outcome(next: Counters, actions: seq<Action>, halted: bool)

  /** Which of the two no-load intervals follows: past 60 no-load checks the
      inverter is stopped with its power cut and rechecked every ~15 s;
      before that it is stopped softly, and from the twentieth on the bus is
      woken too. */
  function NoLoadActions(noLoad: nat): seq<Action> {
    if noLoad >= 60 then [Stop(true), Wait(133)]
    else [Stop(false), Wait(18)] +
         (if noLoad + 1 >= 20 then [Wakeup, Wait(30)] else [])
  }

  /** One pass of the `for(;;)` loop of main. */
  function Step(c: Counters, r: Check, detect: bool): (o: Outcome)
    ensures o.halted <==> !r.powerGood && c.lowBatt + 1 >= 5
    ensures o.next.lowBatt == if r.powerGood then 0 else c.lowBatt + 1
    ensures c.noLoad <= 60 ==> o.next.noLoad <= 60
    ensures o.next.noLoad != c.noLoad || o.next.prevWasLoad != c.prevWasLoad ==>
              r.powerGood && r.plugged && r.status == 0 && detect
    ensures o.next.noLoad > c.noLoad <==>
              r.powerGood && r.plugged && r.status == 0 && detect && !r.loadDrawn && c.noLoad < 60
    ensures o.next.noLoad > c.noLoad ==> o.next.noLoad == c.noLoad + 1
    ensures o.next.noLoad < c.noLoad <==>
              r.powerGood && r.plugged && r.status == 0 && detect && r.loadDrawn && c.noLoad > 0 && c.prevWasLoad
    ensures o.next.noLoad < c.noLoad ==> o.next.noLoad == c.noLoad - 1
    ensures o.next.prevWasLoad && !c.prevWasLoad ==> c.noLoad > 0 && r.loadDrawn
    ensures r.powerGood && r.plugged && r.status == 0 && detect ==>
              (o.next.prevWasLoad <==> r.loadDrawn && (c.prevWasLoad || c.noLoad > 0))
    ensures o.actions != [] && o.actions[0] == if !r.powerGood then Stop(true) else if r.plugged then Start else Stop(true)
    ensures o.halted ==> o.actions[|o.actions| - 1] == PowerDown
  {
    if !r.powerGood then
      var lowBatt := c.lowBatt + 1;
      var alarm := [Stop(true), Blink(LowBattErr)];
      if lowBatt >= 5 then Outcome(c.(lowBatt := lowBatt), alarm + [PowerDown], true)
      else Outcome(c.(lowBatt := lowBatt), alarm + [Wait(30)], false)
    else
      var c := c.(lowBatt := 0);
      if !r.plugged then Outcome(c, [Stop(true), Sleep], false)
      else if r.status != 0 then
        var rounds := if r.status == PGoodError then 150 else 15;
        Outcome(c, [Start, Stop(true), Blink(r.status), Wait(rounds)], false)
      else if !detect then Outcome(c, [Start], false)
      else if !r.loadDrawn then
        var noLoad := if c.noLoad >= 60 then c.noLoad else c.noLoad + 1;
        Outcome(Counters(noLoad, false, 0), [Start, MeasureLoad] + NoLoadActions(c.noLoad), false)
      else if c.noLoad > 0 && c.prevWasLoad then
        Outcome(c.(noLoad := c.noLoad - 1), [Start, MeasureLoad], false)
      else if c.noLoad > 0 then
        Outcome(c.(prevWasLoad := true), [Start, MeasureLoad], false)
      else Outcome(c, [Start, MeasureLoad], false)
  }

  /** The passes over `rs`, in order, from the counters `init`; the passes
      after a halt do not happen. */
  function Run(init: Counters, rs: seq<Check>, detect: bool): Outcome
    decreases |rs|
  {
    if rs == [] then Outcome(init, [], false)
    else
      var before := Run(init, rs[..|rs| - 1], detect);
      if before.halted then before
      else
        var o := Step(before.next, rs[|rs| - 1], detect);
        Outcome(o.next, before.actions + o.actions, o.halted)
  }

  /** How many of the last checks in a row found the battery low. */
  function TrailingLow(rs: seq<Check>): (n: nat)
    ensures n <= |rs|
  {
    if rs == [] || rs[|rs| - 1].powerGood then 0 else TrailingLow(rs[..|rs| - 1]) + 1
  }

  /** A check on a good battery with something plugged in and the inverter
      started, reporting whether the load draws power. */
  function Measured(loadDrawn: bool): Check {
    Check(true, true, 0, loadDrawn)
  }

  /** Load hysteresis: two no-load checks raise `no_load_counter` by two;
      the first load after them only sets `prev_was_load`, and the second
      lowers the counter by one. */
  lemma LoadHysteresis(c: Counters)
    requires c.noLoad <= 58
    ensures Run(c, [Measured(false), Measured(false)], true).next == Counters(c.noLoad + 2, false, 0)
    ensures Run(c, [Measured(false), Measured(false), Measured(true)], true).next == Counters(c.noLoad + 2, true, 0)
    ensures Run(c, [Measured(false), Measured(false), Measured(true), Measured(true)], true).next ==
              Counters(c.noLoad + 1, true, 0)
  {
    var rs := [Measured(false), Measured(false), Measured(true), Measured(true)];
    assert rs[..4][..3] == rs[..3] && rs[..3][..2] == rs[..2] && rs[..2][..1] == rs[..1] && rs[..1][..0] == [];
    assert rs[..1] == [Measured(false)] && rs[..2] == [Measured(false), Measured(false)];
    assert rs[..3] == [Measured(false), Measured(false), Measured(true)] && rs[..4] == rs;
    assert Run(c, rs[..1], true).next == Counters(c.noLoad + 1, false, 0);
    assert Run(c, rs[..2], true).next == Counters(c.noLoad + 2, false, 0);
    assert Run(c, rs[..3], true).next == Counters(c.noLoad + 2, true, 0);
  }

  /** `no_load_counter` never passes 60. */
  lemma {:induction false} NoLoadBounded(init: Counters, rs: seq<Check>, detect: bool)
    requires init.noLoad <= 60
    ensures Run(init, rs, detect).next.noLoad <= 60
    decreases |rs|
  {
    if rs != [] {
      NoLoadBounded(init, rs[..|rs| - 1], detect);
    }
  }

  /** From a zero `low_batt_counter`, the counter is the number of low
      battery checks in a row just behind, and it stays below five until
      the controller halts. */
  lemma {:induction false} LowBattCounts(init: Counters, rs: seq<Check>, detect: bool)
    requires init.lowBatt == 0
    ensures !Run(init, rs, detect).halted ==>
              Run(init, rs, detect).next.lowBatt == TrailingLow(rs) < 5
    ensures Run(init, rs, detect).halted ==> Run(init, rs, detect).next.lowBatt == 5
    decreases |rs|
  {
    if rs != [] {
      LowBattCounts(init, rs[..|rs| - 1], detect);
    }
  }

  /** Five low battery checks in a row halt the controller for good. */
  lemma FiveLowHalt(init: Counters, rs: seq<Check>, detect: bool)
    requires init.lowBatt == 0 && TrailingLow(rs) >= 5
    ensures Run(init, rs, detect).halted
  {
    LowBattCounts(init, rs, detect);
  }

  /** A halt follows the fifth low battery check in a row: the check that
      halts the controller ends a run of five. */
  lemma {:induction false} HaltNeedsFiveLow(init: Counters, rs: seq<Check>, detect: bool)
    requires init.lowBatt == 0 && Run(init, rs, detect).halted
    ensures exists n :: 5 <= n <= |rs| && TrailingLow(rs[..n]) == 5
    decreases |rs|
  {
    var front := rs[..|rs| - 1];
    if Run(init, front, detect).halted {
      HaltNeedsFiveLow(init, front, detect);
      var n :| 5 <= n <= |front| && TrailingLow(front[..n]) == 5;
      assert rs[..n] == front[..n];
    } else {
      LowBattCounts(init, front, detect);
      assert rs[..|rs|] == rs;
      assert rs[..|rs|][..|rs| - 1] == front;
    }
  }

  /** The body of main's `for(;;)`: one pass from the counters `c`, the
      check results `r` it meets, and the calls it makes. */
  method Pass(c: Counters, r: Check, detect: bool) returns (o: Outcome)
    ensures o == Step(c, r, detect)
  {
    var noLoadCounter, prevWasLoad, lowBattCounter := c.noLoad, c.prevWasLoad, c.lowBatt;
    var pass: seq<Action>;
    if !r.powerGood {
      pass := [Stop(true), Blink(LowBattErr)];
      lowBattCounter := lowBattCounter + 1;
      if lowBattCounter >= 5 {
        pass := pass + [PowerDown];
        return Outcome(Counters(noLoadCounter, prevWasLoad, lowBattCounter), pass, true);
      }
      pass := pass + [Wait(30)];
      return Outcome(Counters(noLoadCounter, prevWasLoad, lowBattCounter), pass, false);
    }
    lowBattCounter := 0;
    if !r.plugged {
      pass := [Stop(true), Sleep];
    } else {
      pass := [Start];
      var status := r.status;
      if status != 0 {
        pass := pass + [Stop(true), Blink(status), Wait(if status == PGoodError then 150 else 15)];
      } else if detect {
        pass := pass + [MeasureLoad];
        if !r.loadDrawn {
          if noLoadCounter >= 60 {
            pass := pass + [Stop(true), Wait(133)];
          } else {
            pass := pass + [Stop(false)];
            noLoadCounter := noLoadCounter + 1;
            pass := pass + [Wait(18)];
            if noLoadCounter >= 20 {
              pass := pass + [Wakeup, Wait(30)];
            }
          }
          prevWasLoad := false;
        } else if noLoadCounter > 0 {
          if prevWasLoad {
            noLoadCounter := noLoadCounter - 1;
          } else {
            prevWasLoad := true;
          }
        }
      }
    }
    o := Outcome(Counters(noLoadCounter, prevWasLoad, lowBattCounter), pass, false);
  }

  /** `main`: the counters start at zero and `drawn_power_detect` is what
      the first anything_plugged reported. The loop is endless in the
      source; here it runs over the passes in `rs`, or until the halt. */
  method MainLoop(detect: bool, rs: seq<Check>) returns (o: Outcome, passes: nat)
    ensures passes <= |rs| && o == Run(Initial(), rs[..passes], detect)
    ensures o.halted || passes == |rs|
  {
    var counters := Initial();
    var actions: seq<Action> := [];
    for i := 0 to |rs|
      invariant Run(Initial(), rs[..i], detect) == Outcome(counters, actions, false)
    {
      assert rs[..i + 1][..i] == rs[..i];
      var step := Pass(counters, rs[i], detect);
      counters, actions := step.next, actions + step.actions;
      if step.halted {
        return Outcome(counters, actions, true), i + 1;
      }
    }
    assert rs[..|rs|] == rs;
    o, passes := Outcome(counters, actions, false), |rs|;
  }
}
