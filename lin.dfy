/** The LIN bus layer of the controller: frame headers with the protected
    identifier, master data frames with their checksum, and the reader that
    collects a slave's response from the receive ring. */
module Lin {
  import opened Uart

  /** The break byte (sent at half the baud rate) and the sync byte that open
      every frame header. */
  const Break: bv8 := 0x00
  const Sync: bv8 := 0x55

  /** Size of `resp_buff`: the reader never stores more than this many bytes. */
  const RespBuffSize: nat := 9

  /** Bit `k` of a byte. */
  function Bit(x: bv8, k: nat): bool
    requires k < 8
  {
    (x >> k) & 1 == 1
  }

  function Xor(a: bool, b: bool): bool {
    a != b
  }

  // ---------------------------------------------------------------------------
  // Protected identifier (LIN 2.x, section 2.3.1.3)

  /** The identifier byte of LIN_send_request: the six identifier bits with
      parity P0 = ID0 ^ ID1 ^ ID2 ^ ID4 in bit 6 and the inverted parity
      P1 = !(ID1 ^ ID3 ^ ID4 ^ ID5) in bit 7. */
  function ProtectedId(id: bv8): (pid: bv8)
    ensures forall k :: 0 <= k < 6 ==> Bit(pid, k) == Bit(id, k)
    ensures Bit(pid, 6) == Xor(Xor(Xor(Bit(id, 0), Bit(id, 1)), Bit(id, 2)), Bit(id, 4))
    ensures Bit(pid, 7) == !Xor(Xor(Xor(Bit(id, 1), Bit(id, 3)), Bit(id, 4)), Bit(id, 5))
  {
    var parity0: bv8 := (id & 0x01) ^ ((id >> 1) & 0x01) ^ ((id >> 2) & 0x01) ^ ((id >> 4) & 0x01);
    var inner: bv8 := ((id >> 1) & 0x01) ^ ((id >> 3) & 0x01) ^ ((id >> 4) & 0x01) ^ ((id >> 5) & 0x01);
    var parity1: bv8 := (if inner == 0 then 1 else 0) << 1;
    (id & 0x3F) | ((parity0 | parity1) << 6)
  }

  /** Only the low six bits of the identifier matter. */
  lemma ProtectedIdOfLowBits(id: bv8)
    ensures ProtectedId(id) == ProtectedId(id & 0x3F)
    ensures ProtectedId(id) & 0x3F == id & 0x3F
  {
  }

  /** The two identifiers the controller uses: 0x3A (commands) and 0x3B
      (status requests). */
  lemma KnownProtectedIds()
    ensures ProtectedId(0x3A) == 0xBA
    ensures ProtectedId(0x3B) == 0xFB
  {
  }

  // ---------------------------------------------------------------------------
  // Checksum (LIN 2.x, section 2.3.1.5, as the code computes it)

  /** Plain sum of the bytes. */
  function Sum(bytes: seq<bv8>): nat
    decreases |bytes|
  {
    if bytes == [] then 0 else bytes[0] as nat + Sum(bytes[1..])
  }

  lemma {:induction false} SumAppend(bytes: seq<bv8>, b: bv8)
    ensures Sum(bytes + [b]) == Sum(bytes) + b as nat
    decreases |bytes|
  {
    if bytes != [] {
      assert (bytes + [b])[1..] == bytes[1..] + [b];
      SumAppend(bytes[1..], b);
    }
  }

  lemma {:induction false} SumBound(bytes: seq<bv8>)
    ensures Sum(bytes) <= 0xFF * |bytes|
    decreases |bytes|
  {
    if bytes != [] {
      SumBound(bytes[1..]);
    }
  }

  /** The 16-bit `checksum` word of LIN_send_data once every payload byte is
      added: the identifier byte plus the payload. */
  function RawSum(idWord: bv8, data: seq<bv8>): nat {
    idWord as nat + Sum(data)
  }

  /** The one carry fold of line 163: low byte plus high byte. */
  function Fold(s: nat): nat {
    s % 0x100 + s / 0x100
  }

  /** A number below 256 as the byte that holds it. */
  function ToByte(x: nat): (b: bv8)
    requires x < 0x100
    ensures b as nat == x
  {
    if x == 0 then 0 else ToByte(x - 1) + 1
  }

  /** Flipping every bit of a byte subtracts it from 0xFF. */
  lemma Complement(b: bv8)
    ensures (b ^ 0xFF) as nat == 0xFF - b as nat
  {
  }

  /** `x ^ 0xFF` on a byte value: its one's complement, 0xFF - x. */
  function Invert(x: nat): (c: bv8)
    requires x < 0x100
    ensures c as nat == 0xFF - x
  {
    Complement(ToByte(x));
    ToByte(x) ^ 0xFF
  }

  lemma FoldBound(s: nat)
    requires s < 0x10000
    ensures Fold(s) < 0x200
  {
    assert s / 0x100 < 0x100;
  }

  /** Line 163 on a 16-bit word: fold once (`(checksum & 0xFF) + (checksum >> 8)`),
      complement with `^ 0xFF`, and keep the low byte (`& 0xFF` when it is
      sent; complementing the low byte alone gives the same bits). When the
      fold fits in a byte the result is its one's complement; when it does
      not, the ninth bit is simply cut off. */
  function FoldChecksum(s: nat): (c: bv8)
    requires s < 0x10000
    ensures Fold(s) <= 0xFF ==> c as nat + Fold(s) == 0xFF
    ensures Fold(s) > 0xFF ==> c as nat + Fold(s) == 0x1FF
  {
    var folded := s % 0x100 + s / 0x100;
    FoldBound(s);
    Invert(folded % 0x100)
  }

  /** The checksum byte LIN_send_data appends to a payload of at most 255
      bytes (`len` is a byte, so the word never overflows). */
  function Checksum(idWord: bv8, data: seq<bv8>): (c: bv8)
    requires |data| < 0x100
    ensures RawSum(idWord, data) < 0x10000
    ensures Fold(RawSum(idWord, data)) <= 0xFF ==> c as nat + Fold(RawSum(idWord, data)) == 0xFF
    ensures Fold(RawSum(idWord, data)) > 0xFF ==> c as nat + Fold(RawSum(idWord, data)) == 0x1FF
  {
    SumBound(data);
    FoldChecksum(RawSum(idWord, data))
  }

  /** The LIN "sum with carry": an eight-bit sum where every carry out of bit
      7 is added back in at once, byte by byte. */
  function CarrySum(acc: nat, bytes: seq<bv8>): (r: nat)
    requires acc <= 0xFF
    ensures r <= 0xFF
    decreases |bytes|
  {
    if bytes == [] then acc
    else
      var t := acc + bytes[0] as nat;
      CarrySum(if t >= 0x100 then t - 0xFF else t, bytes[1..])
  }

  /** The enhanced checksum as LIN 2.x defines it: the inverted sum with
      carry over the protected identifier and the data. */
  function LinChecksum(idWord: bv8, data: seq<bv8>): (c: bv8)
    ensures c as nat + CarrySum(idWord as nat, data) == 0xFF
  {
    Invert(CarrySum(idWord as nat, data))
  }

  lemma SameByte(a: bv8, b: bv8)
    ensures a == b <==> a as nat == b as nat
  {
  }

  /** The sum with carry agrees with the plain sum modulo 255, and is zero
      only for an all-zero input. */
  lemma {:induction false} CarrySumResidue(acc: nat, bytes: seq<bv8>)
    requires acc <= 0xFF
    ensures CarrySum(acc, bytes) % 0xFF == (acc + Sum(bytes)) % 0xFF
    ensures CarrySum(acc, bytes) == 0 <==> acc + Sum(bytes) == 0
    decreases |bytes|
  {
    if bytes != [] {
      var t := acc + bytes[0] as nat;
      var next := if t >= 0x100 then t - 0xFF else t;
      var rest := bytes[1..];
      CarryHead(acc, bytes);
      CarrySumResidue(next, rest);
      ResidueStep(CarrySum(next, rest), next + Sum(rest), t + Sum(rest));
    }
  }

  /** The first step of the sum with carry and of the plain sum. */
  lemma CarryHead(acc: nat, bytes: seq<bv8>)
    requires acc <= 0xFF && bytes != []
    ensures var t := acc + bytes[0] as nat;
            CarrySum(acc, bytes) == CarrySum(if t >= 0x100 then t - 0xFF else t, bytes[1..]) &&
            acc + Sum(bytes) == t + Sum(bytes[1..])
  {
  }

  /** One step of the sum with carry: taking 255 away after a carry keeps
      the residue modulo 255 and keeps a nonzero value nonzero. */
  lemma ResidueStep(c: nat, x: nat, y: nat)
    requires c % 0xFF == x % 0xFF && (c == 0 <==> x == 0)
    requires y == x || (y == x + 0xFF && x > 0)
    ensures c % 0xFF == y % 0xFF && (c == 0 <==> y == 0)
  {
    if y != x {
      ModSubtract(y);
    }
  }

  /** Taking 255 away keeps the residue modulo 255. */
  lemma ModSubtract(a: nat)
    requires a >= 0xFF
    ensures (a - 0xFF) % 0xFF == a % 0xFF
  {
  }

  /** The single fold agrees with the plain sum modulo 255, and is zero only
      for a zero sum. */
  lemma FoldResidue(s: nat)
    ensures Fold(s) % 0xFF == s % 0xFF
    ensures Fold(s) == 0 <==> s == 0
  {
    var h, l := s / 0x100, s % 0x100;
    assert s == 0xFF * h + (l + h);
    assert (0xFF * h + (l + h)) % 0xFF == (l + h) % 0xFF;
  }

  /** Two byte values with the same residue modulo 255 that are zero together
      are equal. */
  lemma SameResidue(a: nat, b: nat)
    requires a <= 0xFF && b <= 0xFF
    requires a % 0xFF == b % 0xFF && (a == 0 <==> b == 0)
    ensures a == b
  {
    assert a % 0xFF == if a == 0xFF then 0 else a;
    assert b % 0xFF == if b == 0xFF then 0 else b;
  }

  /** A single fold `f` and a sum with carry `l` of the same word: they agree
      when the fold fits in a byte and are 255 apart when it does not. */
  lemma FoldAgainstCarry(f: nat, l: nat)
    requires f <= 0x1FE && l <= 0xFF
    requires f % 0xFF == l % 0xFF && (f == 0 <==> l == 0)
    ensures f <= 0xFF ==> f == l
    ensures f > 0xFF ==> f == l + 0xFF
  {
    if f <= 0xFF {
      SameResidue(f, l);
    } else {
      ModSubtract(f);
      SameResidue(f - 0xFF, l);
    }
  }

  /** The code's checksum is the LIN checksum exactly when the one fold
      already lands in a byte; past that it is one too high. */
  lemma ChecksumMatchesLinIff(idWord: bv8, data: seq<bv8>)
    requires |data| < 0x100
    ensures Checksum(idWord, data) == LinChecksum(idWord, data) <==> Fold(RawSum(idWord, data)) <= 0xFF
    ensures Fold(RawSum(idWord, data)) > 0xFF ==>
              Checksum(idWord, data) as nat == LinChecksum(idWord, data) as nat + 1
  {
    FoldMeetsCarry(idWord, data);
    FoldAgainstCarry(Fold(RawSum(idWord, data)), CarrySum(idWord as nat, data));
    SameByte(Checksum(idWord, data), LinChecksum(idWord, data));
  }

  /** The fold of the raw sum and the sum with carry share their residue
      modulo 255 and are zero together. */
  lemma FoldMeetsCarry(idWord: bv8, data: seq<bv8>)
    requires |data| < 0x100
    ensures Fold(RawSum(idWord, data)) <= 0x1FE
    ensures Fold(RawSum(idWord, data)) % 0xFF == CarrySum(idWord as nat, data) % 0xFF
    ensures Fold(RawSum(idWord, data)) == 0 <==> CarrySum(idWord as nat, data) == 0
  {
    var s := RawSum(idWord, data);
    SumBound(data);
    CarrySumResidue(idWord as nat, data);
    FoldResidue(s);
    FoldBound(s);
  }

  /** A payload on which the two differ: the raw sum 0x1FF folds to 0x100. */
  lemma ChecksumSingleFoldExample()
    ensures RawSum(0xBA, [0xFF, 0x46]) == 0x1FF
    ensures Checksum(0xBA, [0xFF, 0x46]) == 0xFF
    ensures LinChecksum(0xBA, [0xFF, 0x46]) == 0xFE
  {
    assert Sum([0xFF, 0x46]) == 0xFF + 0x46 by {
      assert [0xFF, 0x46][1..] == [0x46 as bv8];
      assert Sum([0x46 as bv8]) == 0x46;
    }
    assert Fold(0x1FF) == 0x100;
    SameByte(Checksum(0xBA, [0xFF, 0x46]), 0xFF);
    ChecksumMatchesLinIff(0xBA, [0xFF, 0x46]);
    SameByte(LinChecksum(0xBA, [0xFF, 0x46]), 0xFE);
  }

  // ---------------------------------------------------------------------------
  // Frames

  /** Header of a frame: break, sync, protected identifier. */
  function RequestFrame(id: bv8): seq<bv8> {
    [Break, Sync, ProtectedId(id)]
  }

  /** Master response of a frame: the payload and its checksum. */
  function DataFrame(idWord: bv8, data: seq<bv8>): seq<bv8>
    requires |data| < 0x100
  {
    data + [Checksum(idWord, data)]
  }

  /** The checksum of the start command's payload 02 00. */
  lemma StartChecksum()
    ensures Checksum(0xBA, [0x02, 0x00]) == 0x43
    ensures Checksum(0xBA, [0x02, 0x00]) == LinChecksum(0xBA, [0x02, 0x00])
  {
    assert Sum([0x02, 0x00]) == 2 by {
      assert [0x02, 0x00][1..] == [0x00 as bv8];
      assert Sum([0x00 as bv8]) == 0;
    }
    assert RawSum(0xBA, [0x02, 0x00]) == 0xBC;
    assert Fold(0xBC) == 0xBC;
    assert Checksum(0xBA, [0x02, 0x00]) as nat == 0x43;
    SameByte(Checksum(0xBA, [0x02, 0x00]), 0x43);
    ChecksumMatchesLinIff(0xBA, [0x02, 0x00]);
  }

  /** The checksum of the stop command's payload 00 00. */
  lemma StopChecksum()
    ensures Checksum(0xBA, [0x00, 0x00]) == 0x45
    ensures Checksum(0xBA, [0x00, 0x00]) == LinChecksum(0xBA, [0x00, 0x00])
  {
    assert Sum([0x00, 0x00]) == 0 by {
      assert [0x00, 0x00][1..] == [0x00 as bv8];
      assert Sum([0x00 as bv8]) == 0;
    }
    assert RawSum(0xBA, [0x00, 0x00]) == 0xBA;
    assert Fold(0xBA) == 0xBA;
    assert Checksum(0xBA, [0x00, 0x00]) as nat == 0x45;
    SameByte(Checksum(0xBA, [0x00, 0x00]), 0x45);
    ChecksumMatchesLinIff(0xBA, [0x00, 0x00]);
  }

  /** The bytes of the start command: header 00 55 BA, payload 02 00,
      checksum 43. */
  lemma StartFrameBytes()
    ensures RequestFrame(0x3A) + DataFrame(0xBA, [0x02, 0x00]) == [0x00, 0x55, 0xBA, 0x02, 0x00, 0x43]
  {
    KnownProtectedIds();
    StartChecksum();
    assert DataFrame(0xBA, [0x02, 0x00]) == [0x02, 0x00, 0x43];
  }

  /** The bytes of the stop command: header 00 55 BA, payload 00 00,
      checksum 45. */
  lemma StopFrameBytes()
    ensures RequestFrame(0x3A) + DataFrame(0xBA, [0x00, 0x00]) == [0x00, 0x55, 0xBA, 0x00, 0x00, 0x45]
  {
    KnownProtectedIds();
    StopChecksum();
    assert DataFrame(0xBA, [0x00, 0x00]) == [0x00, 0x00, 0x45];
  }

  /** The bytes of the start command, the stop command and the status
      request. */
  lemma CommandFrames()
    ensures RequestFrame(0x3A) + DataFrame(0xBA, [0x02, 0x00]) == [0x00, 0x55, 0xBA, 0x02, 0x00, 0x43]
    ensures RequestFrame(0x3A) + DataFrame(0xBA, [0x00, 0x00]) == [0x00, 0x55, 0xBA, 0x00, 0x00, 0x45]
    ensures RequestFrame(0x3B) == [0x00, 0x55, 0xFB]
  {
    StartFrameBytes();
    StopFrameBytes();
    KnownProtectedIds();
  }

  /** LIN_send_request: wait for the transmitter to go idle, then queue
      break, sync and the protected identifier, and return the identifier byte.
      Each `delay(1)` of the wait lets the transmit half of the interrupt run
      once; eight pending bytes drain well within the 100 rounds. The break
      finds the transmitter idle, so it goes straight to the shift register. */
  method LinSendRequest(u: Uart, id: bv8) returns (idWord: bv8)
    requires u.Valid()
    modifies u, u.trBuff
    ensures u.Valid()
    ensures idWord == ProtectedId(id)
    ensures u.Wire == old(u.Outbound()) + [Break] && u.TxQ == [Sync, ProtectedId(id)]
    ensures u.Outbound() == old(u.Outbound()) + RequestFrame(id)
    ensures |u.TxQ| < BuffSize && u.trArmed && u.RxQ == old(u.RxQ)
  {
    for i := 0 to 100
      invariant u.Valid()
      invariant u.trArmed ==> i + |u.TxQ| <= BuffSize
      invariant u.Outbound() == old(u.Outbound()) && u.RxQ == old(u.RxQ)
    {
      if !u.trArmed {
        break;
      }
      var sent := u.TransmitInterrupt();
    }
    assert u.TxQ == [] && u.Wire == old(u.Outbound());
    u.Send(Break);
    u.Send(Sync);
    idWord := ProtectedId(id);
    u.Send(idWord);
  }

  /** One more payload byte in the 16-bit word: the word never wraps. */
  lemma ChecksumStep(idWord: bv8, data: seq<bv8>, i: nat)
    requires i < |data| < 0x100
    ensures RawSum(idWord, data[..i + 1]) == (RawSum(idWord, data[..i]) + data[i] as nat) % 0x10000
  {
    assert data[..i + 1] == data[..i] + [data[i]];
    SumAppend(data[..i], data[i]);
    var r := RawSum(idWord, data[..i]) + data[i] as nat;
    assert RawSum(idWord, data[..i + 1]) == r;
    SumBound(data[..i + 1]);
    assert 0xFF * (i + 1) <= 0xFF * 0xFF;
    assert r < 0x10000;
  }

  /** LIN_send_data: queue each payload byte while summing it into a 16-bit
      word seeded with the identifier byte, then queue the checksum. Every
      UART_send leaves a free slot, so no byte of the frame is lost. */
  method LinSendData(u: Uart, data: seq<bv8>, idWord: bv8)
    requires u.Valid() && |data| < 0x100 && |u.TxQ| < BuffSize
    modifies u, u.trBuff
    ensures u.Valid()
    ensures u.Outbound() == old(u.Outbound()) + DataFrame(idWord, data)
    ensures |u.TxQ| < BuffSize && u.trArmed && u.RxQ == old(u.RxQ)
  {
    var checksum: nat := idWord as nat;
    for i := 0 to |data|
      invariant u.Valid() && |u.TxQ| < BuffSize
      invariant checksum == RawSum(idWord, data[..i]) < 0x10000
      invariant u.Outbound() == old(u.Outbound()) + data[..i]
      invariant u.RxQ == old(u.RxQ)
    {
      u.Send(data[i]);
      assert data[..i + 1] == data[..i] + [data[i]];
      Assoc(old(u.Outbound()), data[..i], [data[i]]);
      ChecksumStep(idWord, data, i);
      checksum := (checksum + data[i] as nat) % 0x10000;
    }
    assert data[..|data|] == data;
    u.Send(FoldChecksum(checksum));
    Assoc(old(u.Outbound()), data, [Checksum(idWord, data)]);
  }

  // ---------------------------------------------------------------------------
  // Response reader

  /** The bytes that come in off the bus during the `t`-th delay of a read;
      after the last listed delay the bus is quiet. */
  function Arrivals(arr: seq<seq<bv8>>, t: nat): seq<bv8> {
    if t < |arr| then arr[t] else []
  }

  /** The bytes a read consumes, in order, when the receive ring holds `q` at
      the start and `arr` lists what arrives during each delay. */
  function Response(q: seq<bv8>, arr: seq<seq<bv8>>): seq<bv8> {
    Await(q, arr, 0)
  }

  /** Poll `i` of five: after a delay, start draining if anything is buffered;
      after the fifth empty poll give up. */
  function Await(q: seq<bv8>, arr: seq<seq<bv8>>, i: nat): seq<bv8>
    requires i < 5
    decreases 5 - i
  {
    var q' := OfferAll(q, Arrivals(arr, i));
    if q' != [] then Drain(q', arr, i + 1)
    else if i == 4 then []
    else Await(q', arr, i + 1)
  }

  /** Drain: take the oldest byte, let the next delay's bytes arrive, repeat
      until the ring is empty. */
  function Drain(q: seq<bv8>, arr: seq<seq<bv8>>, t: nat): seq<bv8>
    decreases if t <= |arr| then |arr| - t else 0, |q|
  {
    if q == [] then []
    else [q[0]] + Drain(OfferAll(q[1..], Arrivals(arr, t)), arr, t + 1)
  }

  /** How many bytes the reader stores and reports: at most nine. */
  function ReadCount(s: seq<bv8>): nat {
    Min(|s|, RespBuffSize)
  }

  /** The response buffer after a read that consumed `s`: the first
      ReadCount(s) bytes of `s`, the rest of the old contents untouched. */
  function Store(buf: seq<bv8>, s: seq<bv8>): (r: seq<bv8>)
    requires |buf| >= RespBuffSize
    ensures |r| == |buf|
    ensures forall k :: 0 <= k < ReadCount(s) ==> r[k] == s[k]
    ensures forall k :: ReadCount(s) <= k < |buf| ==> r[k] == buf[k]
  {
    s[..ReadCount(s)] + buf[ReadCount(s)..]
  }

  /** A three-byte response leaves the fourth byte of the buffer as it was. */
  lemma StoreKeepsStaleGuard(buf: seq<bv8>, s: seq<bv8>)
    requires |buf| >= RespBuffSize && |s| == 3
    ensures Store(buf, s)[3] == buf[3]
    ensures Store(buf, s)[..3] == s
  {
  }

  lemma {:induction false} AwaitEmptyIff(q: seq<bv8>, arr: seq<seq<bv8>>, i: nat)
    requires i < 5 && |q| <= BuffSize
    ensures Await(q, arr, i) == [] <==> q == [] && forall j :: i <= j < 5 ==> Arrivals(arr, j) == []
    decreases 5 - i
  {
    var q' := OfferAll(q, Arrivals(arr, i));
    OfferAllBounds(q, Arrivals(arr, i));
    if q' == [] && i < 4 {
      AwaitEmptyIff(q', arr, i + 1);
    }
  }

  /** Nothing is read exactly when the ring was empty and nothing arrived
      during the five polls. */
  lemma ResponseEmptyIff(q: seq<bv8>, arr: seq<seq<bv8>>)
    requires |q| <= BuffSize
    ensures Response(q, arr) == [] <==> q == [] && forall j :: 0 <= j < 5 ==> Arrivals(arr, j) == []
  {
    AwaitEmptyIff(q, arr, 0);
  }

  /** Once the bus is quiet, the reader takes exactly what is buffered. */
  lemma {:induction false} DrainQuiet(q: seq<bv8>, arr: seq<seq<bv8>>, t: nat)
    requires t >= |arr|
    ensures Drain(q, arr, t) == q
    decreases |q|
  {
    if q != [] {
      DrainQuiet(q[1..], arr, t + 1);
    }
  }

  /** A burst that is all in before the first poll: the reader gets what the
      ring could hold, the first eight bytes. */
  lemma ResponseToBurst(bs: seq<bv8>)
    ensures Response([], [bs]) == bs[..Min(|bs|, BuffSize)]
  {
    OfferAllKeepsPrefix([], bs);
    if bs == [] {
      ResponseEmptyIff([], [bs]);
    } else {
      DrainQuiet(OfferAll([], bs), [bs], 1);
    }
  }

  /** All the bytes of a list of deliveries, in order. */
  function Flatten(arr: seq<seq<bv8>>): seq<bv8>
    decreases |arr|
  {
    if arr == [] then [] else arr[0] + Flatten(arr[1..])
  }

  lemma {:induction false} DrainSteady(b: bv8, arr: seq<seq<bv8>>, t: nat)
    requires t <= |arr|
    requires forall j :: 0 <= j < |arr| ==> |arr[j]| == 1
    ensures Drain([b], arr, t) == [b] + Flatten(arr[t..])
    decreases |arr| - t
  {
    OfferAllFits([], Arrivals(arr, t));
    assert [b][1..] == [];
    if t == |arr| {
      assert arr[t..] == [];
      assert Drain([], arr, t + 1) == [];
    } else {
      var c := arr[t][0];
      assert arr[t] == [c];
      DrainSteady(c, arr, t + 1);
      assert arr[t..][1..] == arr[t + 1..];
      assert Flatten(arr[t..]) == arr[t] + Flatten(arr[t + 1..]);
    }
  }

  /** A response that comes in one byte per delay, starting at the first
      poll, is consumed whole and in order. */
  lemma ResponseToSteadyStream(arr: seq<seq<bv8>>)
    requires forall j :: 0 <= j < |arr| ==> |arr[j]| == 1
    ensures Response([], arr) == Flatten(arr)
  {
    if arr == [] {
      ResponseEmptyIff([], arr);
    } else {
      assert Arrivals(arr, 0) == arr[0] == [arr[0][0]];
      OfferAllFits([], arr[0]);
      assert OfferAll([], Arrivals(arr, 0)) == arr[0];
      DrainSteady(arr[0][0], arr, 1);
      assert Await([], arr, 0) == Drain(arr[0], arr, 1);
      assert Flatten(arr) == arr[0] + Flatten(arr[1..]);
    }
  }

  /** How many bytes arrive from the `t`-th delay of a read on. */
  function Later(arr: seq<seq<bv8>>, t: nat): nat
    decreases |arr| - t
  {
    if t < |arr| then |arr[t]| + Later(arr, t + 1) else 0
  }

  /** The drain consumes at most what is buffered plus what is still to
      arrive: it runs on only while bytes keep coming in. */
  lemma {:induction false} DrainBound(q: seq<bv8>, arr: seq<seq<bv8>>, t: nat)
    ensures |Drain(q, arr, t)| <= |q| + Later(arr, t)
    decreases if t <= |arr| then |arr| - t else 0, |q|
  {
    if q != [] {
      OfferAllLength(q[1..], Arrivals(arr, t));
      DrainBound(OfferAll(q[1..], Arrivals(arr, t)), arr, t + 1);
    }
  }

  lemma {:induction false} AwaitBound(q: seq<bv8>, arr: seq<seq<bv8>>, i: nat)
    requires i < 5
    ensures |Await(q, arr, i)| <= |q| + Later(arr, i)
    decreases 5 - i
  {
    var q' := OfferAll(q, Arrivals(arr, i));
    OfferAllLength(q, Arrivals(arr, i));
    if q' != [] {
      DrainBound(q', arr, i + 1);
    } else if i < 4 {
      AwaitBound(q', arr, i + 1);
    }
  }

  /** A read consumes no more than was buffered plus everything that arrives
      during it. */
  lemma ResponseBound(q: seq<bv8>, arr: seq<seq<bv8>>)
    ensures |Response(q, arr)| <= |q| + Later(arr, 0)
  {
    AwaitBound(q, arr, 0);
  }

  lemma StoreStep(buf: seq<bv8>, s: seq<bv8>, b: bv8)
    requires |buf| >= RespBuffSize
    ensures |s| < RespBuffSize ==> Store(buf, s + [b]) == Store(buf, s)[|s| := b]
    ensures |s| >= RespBuffSize ==> Store(buf, s + [b]) == Store(buf, s)
  {
    if |s| >= RespBuffSize {
      assert (s + [b])[..RespBuffSize] == s[..RespBuffSize];
    }
  }

  /** One round of the drain: the oldest byte is consumed, then the next
      delay's bytes arrive. */
  lemma DrainStep(q: seq<bv8>, arr: seq<seq<bv8>>, t: nat, consumed: seq<bv8>)
    requires q != []
    ensures consumed + Drain(q, arr, t) == (consumed + [q[0]]) + Drain(OfferAll(q[1..], Arrivals(arr, t)), arr, t + 1)
  {
  }

  /** Store a received byte at `dest[readBytes]` while fewer than nine are
      stored; past nine it is dropped. */
  method KeepByte(dest: array<bv8>, readBytes: nat, received: bv8) returns (stored: nat)
    requires dest.Length >= RespBuffSize && readBytes <= RespBuffSize
    modifies dest
    ensures readBytes < RespBuffSize ==> stored == readBytes + 1 && dest[..] == old(dest[..])[readBytes := received]
    ensures readBytes == RespBuffSize ==> stored == readBytes && dest[..] == old(dest[..])
  {
    stored := readBytes;
    if stored < RespBuffSize {
      dest[stored] := received;
      stored := stored + 1;
    }
  }

  /** The second half of LIN_read_response: while the receive ring is not
      empty, take a byte, store it if fewer than nine are stored, and let the
      next delay's bytes arrive. */
  method DrainInto(u: Uart, dest: array<bv8>, arr: seq<seq<bv8>>, t0: nat) returns (readBytes: nat)
    requires u.Valid() && dest.Length >= RespBuffSize
    requires dest != u.rcvBuff && dest != u.trBuff
    modifies u, u.rcvBuff, dest
    ensures u.Valid()
    ensures readBytes == ReadCount(Drain(old(u.RxQ), arr, t0))
    ensures dest[..] == Store(old(dest[..]), Drain(old(u.RxQ), arr, t0))
    ensures u.RxQ == [] && u.TxQ == old(u.TxQ) && u.Wire == old(u.Wire) && u.trArmed == old(u.trArmed)
  {
    ghost var s := Drain(u.RxQ, arr, t0);
    ghost var buf0 := dest[..];
    readBytes := 0;
    ghost var consumed: seq<bv8> := [];
    var t := t0;
    assert Store(buf0, []) == buf0;
    while u.bufferedRcv > 0
      invariant u.Valid() && s == consumed + Drain(u.RxQ, arr, t)
      invariant readBytes == ReadCount(consumed)
      invariant dest[..] == Store(buf0, consumed)
      invariant u.TxQ == old(u.TxQ) && u.Wire == old(u.Wire) && u.trArmed == old(u.trArmed)
      decreases if t <= |arr| then |arr| - t else 0, |u.RxQ|
    {
      ghost var q := u.RxQ;
      var received := u.Read();
      StoreStep(buf0, consumed, received);
      readBytes := KeepByte(dest, readBytes, received);
      u.ReceiveAll(Arrivals(arr, t));
      DrainStep(q, arr, t, consumed);
      consumed := consumed + [received];
      t := t + 1;
    }
    assert consumed == s;
  }

  /** LIN_read_response: poll the receive ring up to five times; once a byte
      is there, drain the ring, storing the first nine bytes into `dest`,
      and return how many were stored. */
  method LinReadResponse(u: Uart, dest: array<bv8>, arr: seq<seq<bv8>>) returns (readBytes: nat)
    requires u.Valid() && dest.Length >= RespBuffSize
    requires dest != u.rcvBuff && dest != u.trBuff
    modifies u, u.rcvBuff, dest
    ensures u.Valid()
    ensures readBytes == ReadCount(Response(old(u.RxQ), arr)) && readBytes <= RespBuffSize
    ensures dest[..] == Store(old(dest[..]), Response(old(u.RxQ), arr))
    ensures u.RxQ == [] && u.TxQ == old(u.TxQ) && u.Wire == old(u.Wire) && u.trArmed == old(u.trArmed)
  {
    ghost var buf0 := dest[..];
    var i := 0;
    while i < 5
      invariant i < 5
      invariant u.Valid() && Response(old(u.RxQ), arr) == Await(u.RxQ, arr, i)
      invariant u.TxQ == old(u.TxQ) && u.Wire == old(u.Wire) && u.trArmed == old(u.trArmed)
      invariant unchanged(dest)
    {
      u.ReceiveAll(Arrivals(arr, i));
      if u.bufferedRcv > 0 {
        break;
      }
      if i == 4 {
        assert Store(buf0, []) == buf0;
        return 0;
      }
      i := i + 1;
    }
    readBytes := DrainInto(u, dest, arr, i + 1);
  }
}
