/** Pin sampling and the red-LED error display: the parts of the controller
    that only read the board's input pins and drive its LED. A pin is given
    as the level it shows on each successive read (`pin(k)` is the k-th read
    during one call); the delays between reads are not modelled. */
module Board {
  import opened Lin

  /** Error codes shown on the red LED. */
  const WakeupError: bv8 := 1
  const RespError: bv8 := 2
  const StartupError: bv8 := 3
  const PGoodError: bv8 := 4
  const LowBattErr: bv8 := 5

  /** Number of reads among the first `n` that saw the pin low. */
  function Lows(pin: nat -> bool, n: nat): (r: nat)
    ensures r <= n
  {
    if n == 0 then 0 else Lows(pin, n - 1) + (if pin(n - 1) then 0 else 1)
  }

  lemma {:induction false} LowsMonotone(pin: nat -> bool, m: nat, n: nat)
    requires m <= n
    ensures Lows(pin, m) <= Lows(pin, n)
    decreases n - m
  {
    if m < n {
      LowsMonotone(pin, m, n - 1);
    }
  }

  /** is_power_good: read P_GOOD up to ten times; give up on the fifth low
      read. The battery is good exactly when fewer than five of the ten reads
      are low, and a bad verdict is reached on the read that makes five. */
  method IsPowerGood(pGood: nat -> bool) returns (good: bool, samples: nat)
    ensures good <==> Lows(pGood, 10) < 5
    ensures good ==> samples == 10
    ensures !good ==> 5 <= samples <= 10 && Lows(pGood, samples) == 5 && !pGood(samples - 1)
  {
    var undervoltages: nat := 0;
    for i := 0 to 10
      invariant undervoltages == Lows(pGood, i) < 5
    {
      undervoltages := undervoltages + (if pGood(i) then 0 else 1);
      if undervoltages >= 5 {
        LowsMonotone(pGood, i + 1, 10);
        return false, i + 1;
      }
    }
    return true, 10;
  }

  /** Outcome of one plug check: the verdict and the index of the next read. */
  datatype PlugCheck = PlugCheck(plugged: bool, next: nat)

  /** anything_plugged on the (already inverted) PLUG level: a first read
      that shows nothing ends the check at once; otherwise a second read
      must agree. */
  function AnythingPlugged(plug: nat -> bool, at: nat): (c: PlugCheck)
    ensures c.plugged <==> plug(at) && plug(at + 1)
    ensures c.next == if plug(at) then at + 2 else at + 1
  {
    if !plug(at) then PlugCheck(false, at + 1)
    else if !plug(at + 1) then PlugCheck(false, at + 2)
    else PlugCheck(true, at + 2)
  }

  /** `m` plug checks in a row, starting at read `at`, each saw a load. */
  ghost predicate PluggedFor(plug: nat -> bool, at: nat, m: nat)
    decreases m
  {
    m == 0 || (plug(at) && plug(at + 1) && PluggedFor(plug, at + 2, m - 1))
  }

  lemma {:induction false} PluggedForExtend(plug: nat -> bool, at: nat, m: nat)
    requires PluggedFor(plug, at, m)
    requires plug(at + 2 * m) && plug(at + 2 * m + 1)
    ensures PluggedFor(plug, at, m + 1)
    decreases m
  {
    if m > 0 {
      PluggedForExtend(plug, at + 2, m - 1);
    }
  }

  /** wait_if_plugged: up to `rounds` waits of 80 ms, each after a plug check
      that saw a load; the first check that sees nothing ends the wait. */
  method WaitIfPlugged(rounds: nat, plug: nat -> bool, at: nat) returns (waited: nat, next: nat)
    ensures waited <= rounds && PluggedFor(plug, at, waited)
    ensures waited < rounds ==> !(plug(at + 2 * waited) && plug(at + 2 * waited + 1))
    ensures next == at + 2 * waited + (if waited == rounds then 0 else if plug(at + 2 * waited) then 2 else 1)
  {
    next := at;
    for i := 0 to rounds
      invariant next == at + 2 * i && PluggedFor(plug, at, i)
    {
      var check := AnythingPlugged(plug, next);
      if !check.plugged {
        return i, check.next;
      }
      PluggedForExtend(plug, at, i);
      next := check.next;
    }
    waited := rounds;
  }

  /** The three LED pulses of an error code, most significant of its low
      three bits first; `true` is a long (500 ms) pulse, `false` a short
      (250 ms) one. */
  function BlinkPattern(code: bv8): (p: seq<bool>)
    ensures |p| == 3
  {
    [code & 0x04 != 0, code & 0x02 != 0, code & 0x01 != 0]
  }

  /** Reading a code back off the LED. */
  function PatternCode(p: seq<bool>): bv8
    requires |p| == 3
  {
    (if p[0] then 4 else 0) + (if p[1] then 2 else 0) + (if p[2] then 1 else 0)
  }

  /** The LED shows the low three bits of a code exactly, so the five
      error codes (and any two codes below eight) blink differently. */
  lemma BlinkRoundTrip(code: bv8)
    ensures PatternCode(BlinkPattern(code)) == code & 0x07
  {
  }

  lemma BlinkDistinct(a: bv8, b: bv8)
    requires a < 8 && b < 8
    ensures BlinkPattern(a) == BlinkPattern(b) <==> a == b
  {
    BlinkRoundTrip(a);
    BlinkRoundTrip(b);
  }

  /** The patterns listed beside the error codes. */
  lemma ErrorPatterns()
    ensures BlinkPattern(WakeupError) == [false, false, true]
    ensures BlinkPattern(RespError) == [false, true, false]
    ensures BlinkPattern(StartupError) == [false, true, true]
    ensures BlinkPattern(PGoodError) == [true, false, false]
    ensures BlinkPattern(LowBattErr) == [true, false, true]
  {
  }

  /** show_error: wake the LIN transceiver first if the 5 V rail is off (it
      powers the LED), then blink three pulses, testing bit 2 of the code and
      shifting it left after each pulse. */
  method ShowError(code: bv8, pow5v: bool) returns (wakeup: bool, pulses: seq<bool>)
    ensures wakeup == !pow5v
    ensures pulses == BlinkPattern(code)
  {
    wakeup := !pow5v;
    var errCode := code;
    pulses := [];
    for i := 0 to 3
      invariant errCode == code << i
      invariant pulses == BlinkPattern(code)[..i]
    {
      pulses := pulses + [errCode & 0x04 != 0];
      errCode := errCode << 1;
    }
  }
}
