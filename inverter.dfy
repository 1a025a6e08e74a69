/** The LIN master's conversations with the inverter's own controller:
    starting the 230 V output, stopping it (and cutting the controller's
    power), and checking whether a load draws power. Each status poll is a
    status request (identifier 0x3B) followed by a read of the slave's
    response into `resp_buff`. */
module Control {
  import opened Uart
  import opened Lin
  import opened Board

  /** Identifier of command frames and of status requests. */
  const CommandId: bv8 := 0x3A
  const StatusId: bv8 := 0x3B

  /** `power_on_data`: its first two bytes are the start command's payload,
      its last two the stop command's. */
  const PowerOnData: seq<bv8> := [0x02, 0x00, 0x00]

  function StartData(): seq<bv8> {
    PowerOnData[0..2]
  }

  function StopData(): seq<bv8> {
    PowerOnData[1..3]
  }

  /** The complete command frame for a two-byte payload. */
  function Command(data: seq<bv8>): seq<bv8>
    requires |data| == 2
  {
    RequestFrame(CommandId) + DataFrame(ProtectedId(CommandId), data)
  }

  function StatusRequest(): seq<bv8> {
    RequestFrame(StatusId)
  }

  /** The payload of the start command (`start`) or of the stop command. */
  function CommandData(start: bool): (data: seq<bv8>)
    ensures |data| == 2
  {
    if start then StartData() else StopData()
  }

  /** What the controller puts on the bus, frame by frame: the start or
      the stop command, a status request, or a wake-up pulse, which is
      driven on the TX pin directly and queues no byte. */
  datatype Frame = CommandFrame(start: bool) | StatusFrame | WakeupPulse

  /** The bytes each frame queues, as they appear on the wire. */
  function FrameBytes(f: Frame): seq<bv8> {
    match f
    case CommandFrame(start) =>
      if start then [0x00, 0x55, 0xBA, 0x02, 0x00, 0x43] else [0x00, 0x55, 0xBA, 0x00, 0x00, 0x45]
    case StatusFrame => [0x00, 0x55, 0xFB]
    case WakeupPulse => []
  }

  /** These are the bytes LIN_send_request and LIN_send_data produce: the
      start command is 00 55 BA 02 00 43, the stop command 00 55 BA 00 00 45
      and a status request 00 55 FB. */
  lemma CommandBytes()
    ensures FrameBytes(CommandFrame(true)) == Command(CommandData(true))
    ensures FrameBytes(CommandFrame(false)) == Command(CommandData(false))
    ensures FrameBytes(StatusFrame) == StatusRequest()
  {
    assert StartData() == [0x02, 0x00] && StopData() == [0x00, 0x00];
    CommandFrames();
    StatusBytes();
  }

  lemma StatusBytes()
    ensures FrameBytes(StatusFrame) == StatusRequest()
  {
    KnownProtectedIds();
  }

  /** The bytes of a run of frames. */
  function Bytes(fs: seq<Frame>): seq<bv8> {
    if fs == [] then [] else FrameBytes(fs[0]) + Bytes(fs[1..])
  }

  /** The bytes of frames sent one after another are the bytes of each in turn. */
  lemma {:induction false} BytesAppend(a: seq<Frame>, b: seq<Frame>)
    ensures Bytes(a + b) == Bytes(a) + Bytes(b)
    decreases |a|
  {
    if a == [] {
      assert a + b == b;
    } else {
      assert (a + b)[0] == a[0] && (a + b)[1..] == a[1..] + b;
      BytesAppend(a[1..], b);
      Assoc(FrameBytes(a[0]), Bytes(a[1..]), Bytes(b));
    }
  }

  lemma BytesStep(fs: seq<Frame>, f: Frame)
    ensures Bytes(fs + [f]) == Bytes(fs) + FrameBytes(f)
  {
    var one := [f];
    assert one[0] == f && one[1..] == [];
    assert Bytes(one) == FrameBytes(f) + Bytes(one[1..]);
    assert FrameBytes(f) + [] == FrameBytes(f);
    BytesAppend(fs, one);
  }

  function StartCommand(): Frame {
    CommandFrame(true)
  }

  function StopCommand(): Frame {
    CommandFrame(false)
  }

  /** `n` status requests. */
  function Requests(n: nat): (fs: seq<Frame>)
    ensures |fs| == n
  {
    if n == 0 then [] else Requests(n - 1) + [StatusFrame]
  }

  /** `n` wake-up pulses. */
  function Wakeups(n: nat): (fs: seq<Frame>)
    ensures |fs| == n
  {
    if n == 0 then [] else Wakeups(n - 1) + [WakeupPulse]
  }

  lemma WakeupsSnoc(sent: seq<Frame>, n: nat)
    ensures sent + Wakeups(n) + [WakeupPulse] == sent + Wakeups(n + 1)
  {
    Assoc(sent, Wakeups(n), [WakeupPulse]);
  }

  lemma RequestsSnoc(sent: seq<Frame>, n: nat)
    ensures sent + Requests(n) + [StatusFrame] == sent + Requests(n + 1)
  {
    Assoc(sent, Requests(n), [StatusFrame]);
  }

  /** The frames of `n` status polls in rounds of ten, each round opened by
      the command `cmd`. */
  function Traffic(cmd: Frame, n: nat): seq<Frame> {
    if n == 0 then [] else Traffic(cmd, n - 1) + (if (n - 1) % 10 == 0 then [cmd] else []) + [StatusFrame]
  }

  lemma {:induction false} TrafficRound(cmd: Frame, a: nat, j: nat)
    requires 1 <= j <= 10
    ensures Traffic(cmd, 10 * a + j) == Traffic(cmd, 10 * a) + [cmd] + Requests(j)
  {
    if j > 1 {
      TrafficRound(cmd, a, j - 1);
      assert (10 * a + j - 1) % 10 == j - 1;
    } else {
      assert (10 * a) % 10 == 0;
    }
  }

  /** The frames before a round (`m` polls in `a` full rounds), the
      round's command and its `j` polls make up the traffic of all `n` polls. */
  lemma RoundTraffic(before: seq<Frame>, cmd: Frame, a: nat, m: nat, j: nat, n: nat)
    requires m == 10 * a && 1 <= j <= 10 && n == m + j
    ensures before + Traffic(cmd, m) + [cmd] + Requests(j) == before + Traffic(cmd, n)
  {
    TrafficRound(cmd, a, j);
    Assoc(before + Traffic(cmd, m), [cmd], Requests(j));
    Assoc(before, Traffic(cmd, m) + [cmd], Requests(j));
    Assoc(before, Traffic(cmd, m), [cmd]);
  }

  /** `a` copies of `s`, one after another. */
  function Repeat(s: seq<Frame>, a: nat): seq<Frame> {
    if a == 0 then [] else Repeat(s, a - 1) + s
  }

  /** `a` full rounds of polling send the command `a` times, each followed
      by ten status requests. */
  lemma {:induction false} FullRounds(cmd: Frame, a: nat)
    ensures Traffic(cmd, 10 * a) == Repeat([cmd] + Requests(10), a)
  {
    if a > 0 {
      var m := 10 * (a - 1);
      assert m + 10 == 10 * a;
      FullRounds(cmd, a - 1);
      TrafficRound(cmd, a - 1, 10);
      assert Traffic(cmd, 10 * a) == Traffic(cmd, m) + [cmd] + Requests(10);
      Assoc(Traffic(cmd, m), [cmd], Requests(10));
    }
  }

  /** What one status poll leaves behind: how many bytes it reported and the
      bytes of `resp_buff` the controller then inspects (0: drawn power in
      units of 5 W, 1: status, 3: a guard byte that reads 0xFF in a sound
      response). */
  datatype PollObs = PollObs(count: nat, power: bv8, status: bv8, guard: bv8)

  function ObsOf(count: nat, buf: seq<bv8>): PollObs
    requires |buf| == RespBuffSize
  {
    PollObs(count, buf[0], buf[1], buf[3])
  }

  /** Status bits of the slave's response: bit 0 operating, bit 1 output
      good. */
  predicate Operating(status: bv8) {
    status & 0x01 != 0
  }

  predicate OutputGood(status: bv8) {
    status & 0x02 != 0
  }

  /** The tests the controller applies to a poll. */
  datatype Test =
    | Answered  // any byte came back
    | Runs      // start_inverter's success test (the guard byte is not looked at)
    | NotGood   // operating, but the output not good (yet)
    | Stopped   // stop_inverter's test that the inverter has stopped
    | Load      // enough_power_drawn's test for a poll that reports a load

  predicate Passes(t: Test, o: PollObs) {
    match t
    case Answered => o.count > 0
    case Runs => o.count >= 3 && Operating(o.status) && OutputGood(o.status)
    case NotGood => o.count >= 3 && Operating(o.status) && !OutputGood(o.status)
    case Stopped => o.count >= 3 && o.guard == 0xFF && !Operating(o.status)
    case Load => o.count >= 3 && Operating(o.status) && o.guard == 0xFF && o.power > 0
  }

  /** How many polls of `os` pass `t`; they need not be consecutive. */
  function Tally(os: seq<PollObs>, t: Test): (c: nat)
    ensures c <= |os|
  {
    if os == [] then 0 else Tally(os[..|os| - 1], t) + (if Passes(t, os[|os| - 1]) then 1 else 0)
  }

  lemma TallyStep(os: seq<PollObs>, o: PollObs, t: Test)
    ensures Tally(os + [o], t) == Tally(os, t) + if Passes(t, o) then 1 else 0
  {
    assert (os + [o])[..|os|] == os;
  }

  /** A run of polls that none passes ends in a poll that does not pass. */
  lemma TallyLast(os: seq<PollObs>, t: Test)
    requires os != [] && Tally(os, t) == 0
    ensures !Passes(t, os[|os| - 1])
  {
  }

  /** Tallies of two runs of polls add up. */
  lemma {:induction false} TallyAppend(a: seq<PollObs>, b: seq<PollObs>, t: Test)
    ensures Tally(a + b, t) == Tally(a, t) + Tally(b, t)
    decreases |b|
  {
    if b != [] {
      assert (a + b)[..|a + b| - 1] == a + b[..|b| - 1];
      TallyAppend(a, b[..|b| - 1], t);
    } else {
      assert a + b == a;
    }
  }

  /** No poll passes exactly when the tally is zero. */
  lemma {:induction false} TallyNone(os: seq<PollObs>, t: Test)
    ensures Tally(os, t) == 0 <==> forall k :: 0 <= k < |os| ==> !Passes(t, os[k])
  {
    if os != [] {
      TallyNone(os[..|os| - 1], t);
    }
  }

  /** Every poll that shows the output not good was answered. */
  lemma {:induction false} NotGoodAnswered(os: seq<PollObs>)
    ensures Tally(os, NotGood) <= Tally(os, Answered)
  {
    if os != [] {
      NotGoodAnswered(os[..|os| - 1]);
    }
  }

  /** The tests of start_inverter, stop_inverter and enough_power_drawn
      exclude one another on a single poll, except Runs and Load. */
  lemma TestsExclusive(o: PollObs)
    ensures !(Passes(Runs, o) && Passes(NotGood, o))
    ensures !(Passes(Stopped, o) && (Passes(Runs, o) || Passes(NotGood, o) || Passes(Load, o)))
  {
  }

  /** A three-byte response is trusted on the strength of byte 3 of an
      earlier response: a short read does not refresh `resp_buff[3]`, so a
      stale 0xFF there passes the guard. */
  lemma StaleGuardCounts(buf: seq<bv8>, s: seq<bv8>)
    requires |buf| == RespBuffSize && |s| == 3 && buf[3] == 0xFF
    requires Operating(s[1]) && s[0] > 0
    ensures Passes(Load, ObsOf(ReadCount(s), Store(buf, s)))
  {
    StoreKeepsStaleGuard(buf, s);
  }

  /** The bytes that come in during the delays of poll `k`'s read (none
      beyond the end of `bus`). */
  function Arrival(bus: seq<seq<seq<bv8>>>, k: nat): seq<seq<bv8>> {
    if k < |bus| then bus[k] else []
  }

  /** The receive ring as poll `k` finds it: what was buffered at the start
      for the first poll; every read leaves the ring empty. */
  function RingAt(q: seq<bv8>, k: nat): seq<bv8> {
    if k == 0 then q else []
  }

  /** The bytes poll `k` consumes, when `q` was buffered before the first
      poll and `bus` lists what arrives during each poll's read. */
  function Reply(q: seq<bv8>, bus: seq<seq<seq<bv8>>>, k: nat): seq<bv8> {
    Response(RingAt(q, k), Arrival(bus, k))
  }

  /** `rs` are the bytes consumed by polls `first`, `first + 1`, ... in
      order. */
  ghost predicate Heard(q: seq<bv8>, bus: seq<seq<seq<bv8>>>, first: nat, rs: seq<seq<bv8>>) {
    forall k {:trigger Reply(q, bus, k)} :: first <= k < first + |rs| ==> Reply(q, bus, k) == rs[k - first]
  }

  /** The replies of two runs of polls, one right after the other. */
  lemma HeardAppend(q: seq<bv8>, bus: seq<seq<seq<bv8>>>, first: nat, a: seq<seq<bv8>>, b: seq<seq<bv8>>)
    requires Heard(q, bus, first, a) && Heard(q, bus, first + |a|, b)
    ensures Heard(q, bus, first, a + b)
  {
    forall k | first <= k < first + |a + b|
      ensures Reply(q, bus, k) == (a + b)[k - first]
    {
      if k < first + |a| {
        assert Reply(q, bus, k) == a[k - first];
      } else {
        assert Reply(q, bus, k) == b[k - first - |a|];
      }
    }
  }

  /** The next poll's reply extends what a run of polls heard. */
  lemma HeardSnoc(q: seq<bv8>, bus: seq<seq<seq<bv8>>>, first: nat, rs: seq<seq<bv8>>)
    requires Heard(q, bus, first, rs)
    ensures Heard(q, bus, first, rs + [Reply(q, bus, first + |rs|)])
  {
    var rs' := rs + [Reply(q, bus, first + |rs|)];
    forall k | first <= k < first + |rs'|
      ensures Reply(q, bus, k) == rs'[k - first]
    {
      if k < first + |rs| {
        assert Reply(q, bus, k) == rs[k - first];
      }
    }
  }

  /** `resp_buff` after polls that consumed `rs`, from the contents `buf`. */
  function Fill(buf: seq<bv8>, rs: seq<seq<bv8>>): (b: seq<bv8>)
    requires |buf| == RespBuffSize
    ensures |b| == RespBuffSize
  {
    if rs == [] then buf else Store(Fill(buf, rs[..|rs| - 1]), rs[|rs| - 1])
  }

  /** What polls that consumed `rs` see, from `resp_buff` = `buf`: each
      its own byte count and `resp_buff` as its reply left it. */
  function Seen(buf: seq<bv8>, rs: seq<seq<bv8>>): (os: seq<PollObs>)
    requires |buf| == RespBuffSize
    ensures |os| == |rs|
  {
    if rs == [] then []
    else Seen(buf, rs[..|rs| - 1]) + [ObsOf(ReadCount(rs[|rs| - 1]), Fill(buf, rs))]
  }

  /** Filling with two runs of replies is filling with the first, then
      with the second. */
  lemma {:induction false} FillAppend(buf: seq<bv8>, a: seq<seq<bv8>>, b: seq<seq<bv8>>)
    requires |buf| == RespBuffSize
    ensures Fill(buf, a + b) == Fill(Fill(buf, a), b)
    decreases |b|
  {
    if b == [] {
      assert a + b == a;
    } else {
      var front := b[..|b| - 1];
      FillAppend(buf, a, front);
      assert (a + b)[..|a + b| - 1] == a + front;
    }
  }

  /** Two runs of polls see what the first sees, then what the second
      sees from the buffer the first left. */
  lemma {:induction false} SeenAppend(buf: seq<bv8>, a: seq<seq<bv8>>, b: seq<seq<bv8>>)
    requires |buf| == RespBuffSize
    ensures Seen(buf, a + b) == Seen(buf, a) + Seen(Fill(buf, a), b)
    decreases |b|
  {
    if b == [] {
      assert a + b == a;
    } else {
      var front := b[..|b| - 1];
      SeenAppend(buf, a, front);
      FillAppend(buf, a, b);
      assert (a + b)[..|a + b| - 1] == a + front;
      var last := [ObsOf(ReadCount(b[|b| - 1]), Fill(buf, a + b))];
      Assoc(Seen(buf, a), Seen(Fill(buf, a), front), last);
    }
  }

  /** Poll `k` sees the byte count of its reply and the buffer as the
      replies up to its own left it. */
  lemma {:induction false} SeenAt(buf: seq<bv8>, rs: seq<seq<bv8>>, k: nat)
    requires |buf| == RespBuffSize && k < |rs|
    ensures Seen(buf, rs)[k] == ObsOf(ReadCount(rs[k]), Fill(buf, rs[..k + 1]))
    decreases |rs|
  {
    var front := rs[..|rs| - 1];
    if k < |rs| - 1 {
      SeenAt(buf, front, k);
      assert front[..k + 1] == rs[..k + 1];
    } else {
      assert rs[..k + 1] == rs;
    }
  }

  /** A round of polls that follows earlier ones: together they heard
      and saw what their concatenation heard and saw, and left the buffer
      as filling with all the replies does. */
  lemma Compose(buf: seq<bv8>, q: seq<bv8>, bus: seq<seq<seq<bv8>>>, os: seq<PollObs>, rs: seq<seq<bv8>>,
                round: seq<PollObs>, replies: seq<seq<bv8>>)
    requires |buf| == RespBuffSize && Heard(q, bus, 0, rs) && os == Seen(buf, rs)
    requires Heard(q, bus, |rs|, replies) && round == Seen(Fill(buf, rs), replies)
    ensures Heard(q, bus, 0, rs + replies) && os + round == Seen(buf, rs + replies)
    ensures Fill(Fill(buf, rs), replies) == Fill(buf, rs + replies)
  {
    HeardAppend(q, bus, 0, rs, replies);
    SeenAppend(buf, rs, replies);
    FillAppend(buf, rs, replies);
  }

  /** On a silent bus with nothing buffered no poll is answered, so none
      reports the output running and the last ten of thirty polls have no
      answer either. */
  lemma SilentBusStart(buf: seq<bv8>, rs: seq<seq<bv8>>, os: seq<PollObs>)
    requires |buf| == RespBuffSize && Heard([], [], 0, rs) && os == Seen(buf, rs)
    ensures Tally(os, Runs) == 0
    ensures |os| == 30 ==> Tally(os[20..], Answered) == 0
  {
    ResponseEmptyIff([], []);
    forall k | 0 <= k < |os|
      ensures !Passes(Answered, os[k]) && !Passes(Runs, os[k])
    {
      assert Reply([], [], k) == rs[k] == [];
      SeenAt(buf, rs, k);
    }
    TallyNone(os, Runs);
    if |os| == 30 {
      TallyNone(os[20..], Answered);
    }
  }

  /** A reply 00 03 00 FF to the first poll, one byte per delay: no drawn
      power, operating and output good, guard byte 0xFF. */
  function RunningReply(): seq<seq<seq<bv8>>> {
    [[[0x00], [0x03], [0x00], [0xFF]]]
  }

  /** That reply reports the output running at the first poll. */
  lemma RunningReplyStart(buf: seq<bv8>, rs: seq<seq<bv8>>, os: seq<PollObs>)
    requires |buf| == RespBuffSize && Heard([], RunningReply(), 0, rs) && os == Seen(buf, rs) && os != []
    ensures Passes(Runs, os[0]) && Tally(os, Runs) > 0
  {
    var arr := RunningReply()[0];
    ResponseToSteadyStream(arr);
    assert Flatten(arr) == [0x00, 0x03, 0x00, 0xFF] by {
      assert arr[1..][1..][1..][1..] == [];
    }
    assert Reply([], RunningReply(), 0) == rs[0] == [0x00, 0x03, 0x00, 0xFF];
    SeenAt(buf, rs, 0);
    assert rs[..1] == [rs[0]];
    TallyNone(os, Runs);
  }

  /** The 5 V rail read three times while waking the transceiver. */
  predicate Unpowered(pow5v: nat -> bool) {
    !pow5v(0) && !pow5v(1) && !pow5v(2)
  }

  /** Wake-up pulses sent before the 5 V rail is seen up (three when it never is). */
  function WakeupsSent(pow5v: nat -> bool): (n: nat)
    ensures n <= 3
    ensures n == 3 <==> Unpowered(pow5v)
    ensures n < 3 ==> pow5v(n)
    ensures forall m :: 0 <= m < n ==> !pow5v(m)
  {
    if pow5v(0) then 0 else if pow5v(1) then 1 else if pow5v(2) then 2 else 3
  }

  /** How many reads of `pin`, from read `from` on and at most `limit` of
      them, come out high before the first low one. */
  function HighRun(pin: nat -> bool, from: nat, limit: nat): (k: nat)
    ensures k <= limit
    ensures k < limit ==> !pin(from + k)
    decreases limit
  {
    if limit == 0 || !pin(from) then 0 else 1 + HighRun(pin, from + 1, limit - 1)
  }

  /** Every read of a high run is high. */
  lemma {:induction false} RunIsHigh(pin: nat -> bool, from: nat, limit: nat, m: nat)
    requires from <= m < from + HighRun(pin, from, limit)
    ensures pin(m)
    decreases limit
  {
    if m > from {
      RunIsHigh(pin, from + 1, limit - 1, m);
    }
  }

  /** One more high read lengthens a run of high reads. */
  lemma RunContinues(pin: nat -> bool, from: nat, limit: nat, k: nat)
    requires k < limit && k <= HighRun(pin, from, limit) && pin(from + k)
    ensures k + 1 <= HighRun(pin, from, limit)
  {
  }

  /** A low read right after `k` high ones ends the run there. */
  lemma RunStops(pin: nat -> bool, from: nat, limit: nat, k: nat)
    requires k <= HighRun(pin, from, limit) && !pin(from + k)
    ensures HighRun(pin, from, limit) == k
  {
    if HighRun(pin, from, limit) > k {
      RunIsHigh(pin, from, limit, from + k);
    }
  }

  /** The final wait of stop_inverter: up to ten reads of the 5 V rail,
      read `from` first, ending at the first low one. */
  method FinalWait(pow5v: nat -> bool, from: nat) returns (waits: nat, dropped: bool)
    ensures waits == Min(HighRun(pow5v, from, 10) + 1, 10)
    ensures dropped <==> HighRun(pow5v, from, 10) < 10
  {
    for i := 0 to 10
      invariant i <= HighRun(pow5v, from, 10)
    {
      if !pow5v(from + i) {
        RunStops(pow5v, from, 10, i);
        return i + 1, true;
      }
      RunContinues(pow5v, from, 10, i);
    }
    return 10, false;
  }

  /** LIN_send_request(0x3A) followed by LIN_send_data with the identifier
      byte it returns and the start or stop payload: the whole command frame
      is queued. */
  method TransmitCommand(u: Uart, start: bool)
    requires u.Valid()
    modifies u, u.trBuff
    ensures u.Valid() && u.RxQ == old(u.RxQ)
    ensures u.Outbound() == old(u.Outbound()) + FrameBytes(CommandFrame(start))
  {
    var data := CommandData(start);
    var idWord := LinSendRequest(u, CommandId);
    LinSendData(u, data, idWord);
    Assoc(old(u.Outbound()), RequestFrame(CommandId), DataFrame(idWord, data));
    CommandBytes();
  }

  /** How a stop ends. */
  datatype StopEnd =
    | NoPower       // the controller was unpowered: nothing sent
    | SoftStop      // stop confirmed, power left on as asked
    | PowerCut      // a forced cut took the 5 V rail down
    | PowerDropped  // the rail went down during the final wait
    | StillPowered  // the rail was still up after the final wait

  /** The inverter-side state the controller drives: the serial port, the
      LIN response buffer and the EN_OV pin that force-cuts the inverter
      controller's supply (low except during a cut pulse). */
  class Inverter {
    const uart: Uart
    const respBuff: array<bv8>
    var enOv: bool
    /** Every frame put on the bus so far, oldest first. */
    ghost var Frames: seq<Frame>
    /** How many times EN_OV has been pulsed high so far. */
    ghost var CutPulses: nat

    ghost predicate Valid()
      reads this`enOv, uart, uart.rcvBuff, uart.trBuff, respBuff
    {
      uart.Valid() && respBuff.Length == RespBuffSize &&
      respBuff != uart.rcvBuff && respBuff != uart.trBuff && !enOv
    }

    /** The serial port has queued exactly the bytes of the logged frames
        (none of them was dropped). */
    ghost predicate Logged()
      reads this`Frames, uart
    {
      uart.Outbound() == Bytes(Frames)
    }

    /** `resp_buff` and the receive ring are as polls `first`, ... that
        consumed `rs` leave them, when `resp_buff` held `buf` before them and
        the receive ring held `q` before poll 0. */
    ghost predicate Tracks(buf: seq<bv8>, q: seq<bv8>, first: nat, rs: seq<seq<bv8>>)
      reads uart`RxQ, respBuff
    {
      |buf| == RespBuffSize && respBuff[..] == Fill(buf, rs) && uart.RxQ == RingAt(q, first + |rs|)
    }

    /** At reset `resp_buff`, a static array, is all zeros and EN_OV is low. */
    constructor ()
      ensures Valid() && fresh(uart) && fresh(respBuff) && fresh(uart.rcvBuff) && fresh(uart.trBuff)
      ensures forall i :: 0 <= i < respBuff.Length ==> respBuff[i] == 0
      ensures Logged() && Frames == [] && CutPulses == 0 && uart.RxQ == []
    {
      uart := new Uart();
      respBuff := new bv8[RespBuffSize](_ => 0);
      enOv := false;
      Frames, CutPulses := [], 0;
    }

    /** LIN_wakeup: one wake-up pulse on the bus. */
    method Wake()
      requires Valid() && Logged()
      modifies this`Frames
      ensures Valid() && Logged()
      ensures Frames == old(Frames) + [WakeupPulse]
    {
      BytesStep(Frames, WakeupPulse);
      Frames := Frames + [WakeupPulse];
    }

    /** A command frame: LIN_send_request(0x3A) then LIN_send_data with the
        returned identifier byte and two bytes of `power_on_data` (from the
        first for the start command, from the second for the stop command). */
    method SendCommand(start: bool)
      requires Valid() && Logged()
      modifies this`Frames, uart, uart.trBuff
      ensures Valid() && Logged() && uart.RxQ == old(uart.RxQ)
      ensures Frames == old(Frames) + [CommandFrame(start)]
    {
      TransmitCommand(uart, start);
      BytesStep(Frames, CommandFrame(start));
      Frames := Frames + [CommandFrame(start)];
    }

    /** A status poll: LIN_send_request(0x3B) then LIN_read_response into
        `resp_buff`, with `arr` arriving during the read's delays. */
    method StatusPoll(arr: seq<seq<bv8>>) returns (read: nat)
      requires Valid() && Logged()
      modifies this`Frames, uart, uart.trBuff, uart.rcvBuff, respBuff
      ensures Valid() && Logged() && uart.RxQ == []
      ensures read == ReadCount(Response(old(uart.RxQ), arr))
      ensures respBuff[..] == Store(old(respBuff[..]), Response(old(uart.RxQ), arr))
      ensures Frames == old(Frames) + [StatusFrame]
    {
      var idWord := LinSendRequest(uart, StatusId);
      read := LinReadResponse(uart, respBuff, arr);
      StatusBytes();
      BytesStep(Frames, StatusFrame);
      Frames := Frames + [StatusFrame];
    }

    /** Poll `k` of a run of polls that started at poll `first` from
        `resp_buff` = `buf`, the receive ring having held `q` before poll 0;
        the polls of the run so far consumed `rs` and saw `round`. The status
        poll, and what the loops then look at (the byte count and
        `resp_buff[0]`, `[1]` and `[3]`): one more reply heard, one more
        observation seen. */
    method Poll(bus: seq<seq<seq<bv8>>>, k: nat, ghost buf: seq<bv8>, ghost q: seq<bv8>, ghost first: nat,
                ghost rs: seq<seq<bv8>>, ghost round: seq<PollObs>)
        returns (o: PollObs, ghost rs': seq<seq<bv8>>)
      requires Valid() && Logged() && k == first + |rs|
      requires Tracks(buf, q, first, rs) && Heard(q, bus, first, rs) && round == Seen(buf, rs)
      modifies this`Frames, uart, uart.trBuff, uart.rcvBuff, respBuff
      ensures Valid() && Logged()
      ensures Tracks(buf, q, first, rs') && Heard(q, bus, first, rs') && round + [o] == Seen(buf, rs')
      ensures Frames == old(Frames) + [StatusFrame]
    {
      var read := StatusPoll(Arrival(bus, k));
      ghost var reply := Reply(q, bus, k);
      o := ObsOf(read, respBuff[..]);
      rs' := rs + [reply];
      assert rs'[..|rs|] == rs;
      HeardSnoc(q, bus, first, rs);
    }

    /** The polling loop of one start_inverter attempt: up to ten status
        polls, numbered from `first`, ending at the first that reports the
        output running. Also reports whether no poll was answered and
        whether one reported the output not good. */
    method StartPolls(bus: seq<seq<seq<bv8>>>, first: nat, ghost q: seq<bv8>)
        returns (running: bool, noResp: bool, pgoodFail: bool, ghost round: seq<PollObs>, ghost rs: seq<seq<bv8>>)
      requires Valid() && Logged() && uart.RxQ == RingAt(q, first)
      modifies this`Frames, uart, uart.trBuff, uart.rcvBuff, respBuff
      ensures Valid() && Logged()
      ensures Tracks(old(respBuff[..]), q, first, rs) && Heard(q, bus, first, rs)
      ensures round == Seen(old(respBuff[..]), rs)
      ensures Frames == old(Frames) + Requests(|round|)
      ensures 0 < |round| <= 10
      ensures running == Passes(Runs, round[|round| - 1])
      ensures Tally(round, Runs) == if running then 1 else 0
      ensures !running ==> |round| == 10
      ensures noResp == (Tally(round, Answered) == 0)
      ensures pgoodFail == (Tally(round, NotGood) > 0)
    {
      running, noResp, pgoodFail, round, rs := false, true, false, [], [];
      for j := 0 to 10
        invariant |round| == |rs| == j && Valid() && Logged()
        invariant Tracks(old(respBuff[..]), q, first, rs) && Heard(q, bus, first, rs)
        invariant round == Seen(old(respBuff[..]), rs)
        invariant Frames == old(Frames) + Requests(j)
        invariant !running && Tally(round, Runs) == 0
        invariant noResp == (Tally(round, Answered) == 0)
        invariant pgoodFail == (Tally(round, NotGood) > 0)
      {
        RequestsSnoc(old(Frames), j);
        var o;
        o, rs := Poll(bus, first + j, old(respBuff[..]), q, first, rs, round);
        TallyStep(round, o, Runs);
        TallyStep(round, o, Answered);
        TallyStep(round, o, NotGood);
        round := round + [o];
        if o.count > 0 {
          noResp := false;
        }
        if o.count < 3 {
          continue;
        }
        if !Operating(o.status) {
          continue;
        }
        if !OutputGood(o.status) {
          pgoodFail := true;
          continue;
        }
        assert round[|round| - 1] == o;
        running := true;
        break;
      }
      if !running {
        TallyLast(round, Runs);
      }
    }

    /** The first loop of start_inverter: while the 5 V rail reads low,
        send a wake-up pulse, giving up after the third. */
    method WakeTransceiver(pow5v: nat -> bool) returns (powered: bool)
      requires Valid() && Logged()
      modifies this`Frames
      ensures Valid() && Logged()
      ensures powered == !Unpowered(pow5v)
      ensures Frames == old(Frames) + Wakeups(WakeupsSent(pow5v))
    {
      for i := 0 to 3
        invariant Valid() && Logged()
        invariant i <= WakeupsSent(pow5v)
        invariant Frames == old(Frames) + Wakeups(i)
      {
        if pow5v(i) {
          assert WakeupsSent(pow5v) == i;
          return true;
        }
        WakeupsSnoc(old(Frames), i);
        Wake();
        if i == 2 {
          assert WakeupsSent(pow5v) == 3;
          return false;
        }
      }
      powered := false;
    }

    /** One attempt of start_inverter: the start command, then its polls. */
    method StartAttempt(bus: seq<seq<seq<bv8>>>, first: nat, ghost q: seq<bv8>)
        returns (running: bool, noResp: bool, pgoodFail: bool, ghost round: seq<PollObs>, ghost rs: seq<seq<bv8>>)
      requires Valid() && Logged() && uart.RxQ == RingAt(q, first)
      modifies this`Frames, uart, uart.trBuff, uart.rcvBuff, respBuff
      ensures Valid() && Logged()
      ensures Tracks(old(respBuff[..]), q, first, rs) && Heard(q, bus, first, rs)
      ensures round == Seen(old(respBuff[..]), rs)
      ensures Frames == old(Frames) + [StartCommand()] + Requests(|round|)
      ensures 0 < |round| <= 10
      ensures running == Passes(Runs, round[|round| - 1])
      ensures Tally(round, Runs) == if running then 1 else 0
      ensures !running ==> |round| == 10
      ensures noResp == (Tally(round, Answered) == 0)
      ensures pgoodFail == (Tally(round, NotGood) > 0)
    {
      SendCommand(true);
      running, noResp, pgoodFail, round, rs := StartPolls(bus, first, q);
    }

    /** The attempts of start_inverter once the transceiver is awake. The
        loop around them is written for ten but returns after the third, so
        exactly three are made. The result is 0 once a poll reports the
        output running, else an error code chosen by the last attempt alone:
        no answer at all, else output not good seen, else a plain failure.
        The guard byte is not looked at. */
    method StartAttempts(bus: seq<seq<seq<bv8>>>) returns (code: bv8, ghost os: seq<PollObs>, ghost rs: seq<seq<bv8>>)
      requires Valid() && Logged()
      modifies this`Frames, uart, uart.trBuff, uart.rcvBuff, respBuff
      ensures Valid() && Logged()
      ensures Tracks(old(respBuff[..]), old(uart.RxQ), 0, rs) && Heard(old(uart.RxQ), bus, 0, rs)
      ensures os == Seen(old(respBuff[..]), rs)
      ensures Frames == old(Frames) + Traffic(StartCommand(), |os|)
      ensures 0 < |os| <= 30
      ensures code == 0 || code == RespError || code == StartupError || code == PGoodError
      ensures code == 0 <==> Tally(os, Runs) > 0
      ensures code == 0 ==> Tally(os, Runs) == 1 && Passes(Runs, os[|os| - 1])
      ensures code != 0 ==> |os| == 30 && Tally(os, Runs) == 0
      ensures code == RespError <==> code != 0 && Tally(os[20..], Answered) == 0
      ensures code == PGoodError <==> code != 0 && Tally(os[20..], NotGood) > 0
      ensures code == StartupError <==>
                code != 0 && Tally(os[20..], Answered) > 0 && Tally(os[20..], NotGood) == 0
    {
      ghost var buf0, q0 := respBuff[..], uart.RxQ;
      os, rs := [], [];
      ghost var cmd := StartCommand();
      assert Traffic(cmd, 0) == [] && old(Frames) + [] == old(Frames);
      var attempt := 0;
      while attempt < 10
        invariant attempt <= 2 && |os| == 10 * attempt
        invariant |rs| == |os| && Valid() && Logged() && Tracks(buf0, q0, 0, rs) && Heard(q0, bus, 0, rs)
        invariant os == Seen(buf0, rs)
        invariant Frames == old(Frames) + Traffic(cmd, |os|)
        invariant Tally(os, Runs) == 0
        decreases 10 - attempt
      {
        var running, noResp, pgoodFail, round, replies := StartAttempt(bus, 10 * attempt, q0);
        Compose(buf0, q0, bus, os, rs, round, replies);
        TallyAppend(os, round, Runs);
        RoundTraffic(old(Frames), cmd, attempt, |os|, |round|, |os + round|);
        os, rs := os + round, rs + replies;
        assert |os| == 10 * attempt + |round|;
        if running {
          return 0, os, rs;
        }
        if attempt == 2 {
          assert os[20..] == round;
          NotGoodAnswered(round);
          if noResp {
            return RespError, os, rs;
          }
          return if pgoodFail then PGoodError else StartupError, os, rs;
        }
        assert |round| == 10;
        attempt := attempt + 1;
      }
      return StartupError, os, rs;
    }

    /** start_inverter: wake the transceiver (up to three times) until the
        5 V rail is up, then make the attempts. */
    method StartInverter(pow5v: nat -> bool, bus: seq<seq<seq<bv8>>>) returns (code: bv8, ghost os: seq<PollObs>, ghost rs: seq<seq<bv8>>)
      requires Valid() && Logged()
      modifies this`Frames, uart, uart.trBuff, uart.rcvBuff, respBuff
      ensures Valid() && Logged()
      ensures Tracks(old(respBuff[..]), old(uart.RxQ), 0, rs) && Heard(old(uart.RxQ), bus, 0, rs)
      ensures os == Seen(old(respBuff[..]), rs)
      ensures Frames == old(Frames) + Wakeups(WakeupsSent(pow5v)) + Traffic(StartCommand(), |os|)
      ensures code <= PGoodError && |os| <= 30
      ensures code == WakeupError <==> Unpowered(pow5v)
      ensures code == WakeupError ==> os == []
      ensures code == 0 <==> Tally(os, Runs) > 0
      ensures code == 0 ==> Tally(os, Runs) == 1 && Passes(Runs, os[|os| - 1])
      ensures code != 0 && code != WakeupError ==> |os| == 30 && Tally(os, Runs) == 0
      ensures code == RespError <==>
                |os| == 30 && Tally(os, Runs) == 0 && Tally(os[20..], Answered) == 0
      ensures code == PGoodError <==>
                |os| == 30 && Tally(os, Runs) == 0 && Tally(os[20..], NotGood) > 0
      ensures code == StartupError <==>
                |os| == 30 && Tally(os, Runs) == 0 && Tally(os[20..], Answered) > 0 && Tally(os[20..], NotGood) == 0
    {
      var powered := WakeTransceiver(pow5v);
      if !powered {
        assert Traffic(StartCommand(), 0) == [] && Frames + [] == Frames;
        return WakeupError, [], [];
      }
      code, os, rs := StartAttempts(bus);
    }

    /** The polling loop of one stop_inverter attempt: up to ten status
        polls, numbered from `first`, ending at the first that confirms the
        stop (at least three bytes, guard byte 0xFF, operating bit clear). */
    method StopPolls(bus: seq<seq<seq<bv8>>>, first: nat, ghost q: seq<bv8>)
        returns (stopped: bool, ghost round: seq<PollObs>, ghost rs: seq<seq<bv8>>)
      requires Valid() && Logged() && uart.RxQ == RingAt(q, first)
      modifies this`Frames, uart, uart.trBuff, uart.rcvBuff, respBuff
      ensures Valid() && Logged()
      ensures Tracks(old(respBuff[..]), q, first, rs) && Heard(q, bus, first, rs)
      ensures round == Seen(old(respBuff[..]), rs)
      ensures Frames == old(Frames) + Requests(|round|)
      ensures 0 < |round| <= 10
      ensures stopped == Passes(Stopped, round[|round| - 1])
      ensures Tally(round, Stopped) == if stopped then 1 else 0
      ensures !stopped ==> |round| == 10
    {
      stopped, round, rs := false, [], [];
      for j := 0 to 10
        invariant |round| == |rs| == j && Valid() && Logged()
        invariant Tracks(old(respBuff[..]), q, first, rs) && Heard(q, bus, first, rs)
        invariant round == Seen(old(respBuff[..]), rs)
        invariant Frames == old(Frames) + Requests(j)
        invariant !stopped && Tally(round, Stopped) == 0
      {
        RequestsSnoc(old(Frames), j);
        var o;
        o, rs := Poll(bus, first + j, old(respBuff[..]), q, first, rs, round);
        TallyStep(round, o, Stopped);
        round := round + [o];
        if o.count < 3 {
          assert !Passes(Stopped, o);
          continue;
        }
        if o.guard != 0xFF {
          assert !Passes(Stopped, o);
          continue;
        }
        if Operating(o.status) {
          assert !Passes(Stopped, o);
          continue;
        }
        assert round[|round| - 1] == o;
        stopped := true;
        break;
      }
      if !stopped {
        TallyLast(round, Stopped);
      }
    }

    /** One attempt of stop_inverter: the stop command, then its polls. */
    method StopAttempt(bus: seq<seq<seq<bv8>>>, first: nat, ghost q: seq<bv8>)
        returns (stopped: bool, ghost round: seq<PollObs>, ghost rs: seq<seq<bv8>>)
      requires Valid() && Logged() && uart.RxQ == RingAt(q, first)
      modifies this`Frames, uart, uart.trBuff, uart.rcvBuff, respBuff
      ensures Valid() && Logged()
      ensures Tracks(old(respBuff[..]), q, first, rs) && Heard(q, bus, first, rs)
      ensures round == Seen(old(respBuff[..]), rs)
      ensures Frames == old(Frames) + [StopCommand()] + Requests(|round|)
      ensures 0 < |round| <= 10
      ensures stopped == Passes(Stopped, round[|round| - 1])
      ensures Tally(round, Stopped) == if stopped then 1 else 0
      ensures !stopped ==> |round| == 10
    {
      SendCommand(false);
      stopped, round, rs := StopPolls(bus, first, q);
    }

    /** The three attempts of stop_inverter, up to the first confirmation. */
    method StopAttempts(bus: seq<seq<seq<bv8>>>) returns (confirmed: bool, ghost os: seq<PollObs>, ghost rs: seq<seq<bv8>>)
      requires Valid() && Logged()
      modifies this`Frames, uart, uart.trBuff, uart.rcvBuff, respBuff
      ensures Valid() && Logged()
      ensures Tracks(old(respBuff[..]), old(uart.RxQ), 0, rs) && Heard(old(uart.RxQ), bus, 0, rs)
      ensures os == Seen(old(respBuff[..]), rs)
      ensures Frames == old(Frames) + Traffic(StopCommand(), |os|)
      ensures 0 < |os| <= 30
      ensures confirmed <==> Tally(os, Stopped) > 0
      ensures confirmed ==> Tally(os, Stopped) == 1 && Passes(Stopped, os[|os| - 1])
      ensures !confirmed ==> |os| == 30
    {
      ghost var buf0, q0 := respBuff[..], uart.RxQ;
      os, rs := [], [];
      ghost var cmd := StopCommand();
      assert Traffic(cmd, 0) == [] && old(Frames) + [] == old(Frames);
      for attempt := 0 to 3
        invariant |os| == 10 * attempt
        invariant |rs| == |os| && Valid() && Logged() && Tracks(buf0, q0, 0, rs) && Heard(q0, bus, 0, rs)
        invariant os == Seen(buf0, rs)
        invariant Frames == old(Frames) + Traffic(cmd, |os|)
        invariant Tally(os, Stopped) == 0
      {
        var stopped, round, replies := StopAttempt(bus, 10 * attempt, q0);
        Compose(buf0, q0, bus, os, rs, round, replies);
        TallyAppend(os, round, Stopped);
        RoundTraffic(old(Frames), cmd, attempt, |os|, |round|, |os + round|);
        os, rs := os + round, rs + replies;
        assert |os| == 10 * attempt + |round|;
        if stopped {
          return true, os, rs;
        }
        assert |round| == 10;
      }
      confirmed := false;
    }

    /** The force-cut of stop_inverter: up to ten pulses on EN_OV, each
        followed by a read of the 5 V rail (reads 1 to 10), ending at the
        first that reads low. EN_OV is back low after every pulse. */
    method CutPower(pow5v: nat -> bool) returns (pulses: nat, off: bool)
      requires Valid()
      modifies this`enOv, this`CutPulses
      ensures Valid() && CutPulses == old(CutPulses) + pulses
      ensures pulses == Min(HighRun(pow5v, 1, 10) + 1, 10)
      ensures off <==> HighRun(pow5v, 1, 10) < 10
    {
      for k := 0 to 10
        invariant Valid() && CutPulses == old(CutPulses) + k
        invariant k <= HighRun(pow5v, 1, 10)
      {
        PulseEnOv();
        if !pow5v(k + 1) {
          RunStops(pow5v, 1, 10, k);
          return k + 1, true;
        }
        RunContinues(pow5v, 1, 10, k);
      }
      return 10, false;
    }

    /** One force-cut pulse: EN_OV high, then low again. */
    method PulseEnOv()
      requires Valid()
      modifies this`enOv, this`CutPulses
      ensures Valid() && CutPulses == old(CutPulses) + 1
    {
      enOv := true;
      CutPulses := CutPulses + 1;
      enOv := false;
    }

    /** The force-cut followed, when the rail is still up after the last
        pulse, by the final wait. */
    method ForceCut(pow5v: nat -> bool) returns (end: StopEnd, pulses: nat, waits: nat)
      requires Valid() && Logged()
      modifies this`enOv, this`CutPulses
      ensures Valid() && Logged() && Frames == old(Frames)
      ensures CutPulses == old(CutPulses) + pulses
      ensures end == PowerCut || end == PowerDropped || end == StillPowered
      ensures pulses == Min(HighRun(pow5v, 1, 10) + 1, 10)
      ensures end == PowerCut <==> HighRun(pow5v, 1, 10) < 10
      ensures end == PowerCut ==> waits == 0
      ensures end != PowerCut ==> waits == Min(HighRun(pow5v, pulses + 1, 10) + 1, 10)
      ensures end == PowerDropped <==> end != PowerCut && HighRun(pow5v, pulses + 1, 10) < 10
    {
      var off;
      pulses, off := CutPower(pow5v);
      if off {
        return PowerCut, pulses, 0;
      }
      var dropped;
      waits, dropped := FinalWait(pow5v, pulses + 1);
      end := if dropped then PowerDropped else StillPowered;
    }

    /** What stop_inverter does after its stop attempts: nothing more after
        a confirmed stop when `cut` is false; the force-cut after a confirmed
        stop when it is true; and the final wait, which reads the rail up to
        ten more times, when the cut did not take the rail down or no
        attempt confirmed. */
    method Shutdown(cut: bool, confirmed: bool, pow5v: nat -> bool) returns (end: StopEnd, pulses: nat, waits: nat)
      requires Valid() && Logged()
      modifies this`enOv, this`CutPulses
      ensures Valid() && Logged() && Frames == old(Frames)
      ensures CutPulses == old(CutPulses) + pulses
      ensures end != NoPower
      ensures end == SoftStop <==> !cut && confirmed
      ensures pulses > 0 <==> cut && confirmed
      ensures pulses > 0 ==> pulses == Min(HighRun(pow5v, 1, 10) + 1, 10)
      ensures end == PowerCut <==> pulses > 0 && HighRun(pow5v, 1, 10) < 10
      ensures waits > 0 <==> end == PowerDropped || end == StillPowered
      ensures waits > 0 ==> waits == Min(HighRun(pow5v, pulses + 1, 10) + 1, 10)
      ensures end == PowerDropped <==> waits > 0 && HighRun(pow5v, pulses + 1, 10) < 10
    {
      if !confirmed {
        var dropped;
        waits, dropped := FinalWait(pow5v, 1);
        end, pulses := if dropped then PowerDropped else StillPowered, 0;
        assert pulses + 1 == 1 && waits > 0;
      } else if !cut {
        end, pulses, waits := SoftStop, 0, 0;
      } else {
        end, pulses, waits := ForceCut(pow5v);
      }
    }

    /** stop_inverter: nothing at all when the 5 V rail reads low (read 0);
        otherwise up to three stop attempts followed by Shutdown. */
    method StopInverter(cut: bool, pow5v: nat -> bool, bus: seq<seq<seq<bv8>>>)
        returns (end: StopEnd, pulses: nat, waits: nat, ghost os: seq<PollObs>, ghost rs: seq<seq<bv8>>)
      requires Valid() && Logged()
      modifies this`Frames, this`enOv, this`CutPulses, uart, uart.trBuff, uart.rcvBuff, respBuff
      ensures Valid() && Logged() && CutPulses == old(CutPulses) + pulses
      ensures Tracks(old(respBuff[..]), old(uart.RxQ), 0, rs) && Heard(old(uart.RxQ), bus, 0, rs)
      ensures os == Seen(old(respBuff[..]), rs)
      ensures end == NoPower <==> !pow5v(0)
      ensures end == NoPower ==> os == [] && Frames == old(Frames) && pulses == 0 && waits == 0
      ensures end != NoPower ==> Frames == old(Frames) + Traffic(StopCommand(), |os|) && 0 < |os| <= 30
      ensures Tally(os, Stopped) > 0 ==> Tally(os, Stopped) == 1 && Passes(Stopped, os[|os| - 1])
      ensures end != NoPower && Tally(os, Stopped) == 0 ==> |os| == 30
      ensures end == SoftStop <==> pow5v(0) && !cut && Tally(os, Stopped) > 0
      ensures pulses > 0 <==> pow5v(0) && cut && Tally(os, Stopped) > 0
      ensures pulses > 0 ==> pulses == Min(HighRun(pow5v, 1, 10) + 1, 10)
      ensures end == PowerCut <==> pulses > 0 && HighRun(pow5v, 1, 10) < 10
      ensures waits > 0 <==> end == PowerDropped || end == StillPowered
      ensures waits > 0 ==> waits == Min(HighRun(pow5v, pulses + 1, 10) + 1, 10)
      ensures end == PowerDropped <==> waits > 0 && HighRun(pow5v, pulses + 1, 10) < 10
    {
      if !pow5v(0) {
        return NoPower, 0, 0, [], [];
      }
      var confirmed;
      confirmed, os, rs := StopAttempts(bus);
      end, pulses, waits := Shutdown(cut, confirmed, pow5v);
    }

    /** enough_power_drawn: up to ten status polls; a poll with at least
        three bytes, the operating bit set and guard byte 0xFF adds one when
        it reports a nonzero power, and the fifth such poll ends the check
        with a load. The count is absolute, not a share of the valid polls. */
    method EnoughPowerDrawn(bus: seq<seq<seq<bv8>>>) returns (drawn: bool, ghost round: seq<PollObs>, ghost rs: seq<seq<bv8>>)
      requires Valid() && Logged()
      modifies this`Frames, uart, uart.trBuff, uart.rcvBuff, respBuff
      ensures Valid() && Logged()
      ensures Tracks(old(respBuff[..]), old(uart.RxQ), 0, rs) && Heard(old(uart.RxQ), bus, 0, rs)
      ensures round == Seen(old(respBuff[..]), rs)
      ensures Frames == old(Frames) + Requests(|round|)
      ensures 0 < |round| <= 10
      ensures drawn <==> Tally(round, Load) >= 5
      ensures drawn ==> Tally(round, Load) == 5 && Passes(Load, round[|round| - 1])
      ensures !drawn ==> |round| == 10
    {
      ghost var buf0, q0 := respBuff[..], uart.RxQ;
      var powerSum: nat := 0;
      drawn, round, rs := false, [], [];
      for i := 0 to 10
        invariant |round| == |rs| == i && Valid() && Logged() && Tracks(buf0, q0, 0, rs) && Heard(q0, bus, 0, rs)
        invariant round == Seen(buf0, rs)
        invariant Frames == old(Frames) + Requests(i)
        invariant powerSum == Tally(round, Load) < 5
      {
        RequestsSnoc(old(Frames), i);
        var o;
        o, rs := Poll(bus, i, buf0, q0, 0, rs, round);
        TallyStep(round, o, Load);
        round := round + [o];
        if o.count < 3 || !Operating(o.status) || o.guard != 0xFF {
          continue;
        }
        powerSum := powerSum + if o.power > 0 then 1 else 0;
        if powerSum >= 5 {
          assert round[|round| - 1] == o;
          drawn := true;
          return;
        }
      }
    }
  }

  /** A controller fresh from reset, its transceiver awake, on a bus where
      nothing ever answers: start_inverter fails with the no-response code. */
  method StartOnSilentBus(pow5v: nat -> bool) returns (code: bv8)
    requires !Unpowered(pow5v)
    ensures code == RespError
  {
    var inv := new Inverter();
    ghost var buf, os, rs := inv.respBuff[..], [], [];
    code, os, rs := inv.StartInverter(pow5v, []);
    SilentBusStart(buf, rs, os);
  }

  /** The same controller when the first status poll is answered
      00 03 00 FF: start_inverter succeeds at once. */
  method StartOnRunningReply(pow5v: nat -> bool) returns (code: bv8)
    requires !Unpowered(pow5v)
    ensures code == 0
  {
    var inv := new Inverter();
    ghost var buf, os, rs := inv.respBuff[..], [], [];
    code, os, rs := inv.StartInverter(pow5v, RunningReply());
    RunningReplyStart(buf, rs, os);
  }
}
