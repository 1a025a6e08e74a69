/** The interrupt-driven serial transport of the inverter controller: two
    circular byte queues of eight slots, one filled by the receive half of the
    serial interrupt and drained by the main line, one filled by the main line
    and drained by the transmit half of the interrupt. Each interrupt half and
    each main-line buffer operation is one atomic method (the main line masks
    interrupts around its buffer updates). */
module Uart {

  /** RCV_BUFF_SIZE and TR_BUFF_SIZE, both `1 << 3`. */
  const BuffSize: nat := 8

  datatype Option<T> = None | Some(value: T)

  /** Cursor step: `(pos + 1) & MASK`, which for a power-of-two size is `% size`. */
  function Advance(pos: nat): nat {
    (pos + 1) % BuffSize
  }

  /** One enqueue on a ring, seen abstractly: the byte is appended, or dropped
      when the ring already holds BuffSize bytes. */
  function Offer(q: seq<bv8>, b: bv8): seq<bv8> {
    if |q| < BuffSize then q + [b] else q
  }

  /** A burst of enqueues, one per byte, in order. */
  function OfferAll(q: seq<bv8>, bs: seq<bv8>): seq<bv8>
    decreases |bs|
  {
    if bs == [] then q else OfferAll(Offer(q, bs[0]), bs[1..])
  }

  function Min(a: nat, b: nat): nat {
    if a < b then a else b
  }

  /** Drop-on-full, stated outright: a burst keeps exactly the bytes that fit,
      in their arrival order, and loses the rest. */
  lemma {:induction false} OfferAllKeepsPrefix(q: seq<bv8>, bs: seq<bv8>)
    requires |q| <= BuffSize
    ensures OfferAll(q, bs) == q + bs[..Min(|bs|, BuffSize - |q|)]
    decreases |bs|
  {
    if bs != [] {
      var q', n := Offer(q, bs[0]), Min(|bs|, BuffSize - |q|);
      OfferAllKeepsPrefix(q', bs[1..]);
      if |q| < BuffSize {
        assert Min(|bs| - 1, BuffSize - |q'|) == n - 1;
        assert bs[1..][..n - 1] == bs[1..n];
        assert bs[..n] == [bs[0]] + bs[1..n];
        Assoc(q, [bs[0]], bs[1..n]);
      } else {
        assert bs[..n] == [] && bs[1..][..0] == [];
      }
    }
  }

  /** Concatenation regrouped, for proofs that chain appends. */
  lemma Assoc<T>(p: seq<T>, q: seq<T>, r: seq<T>)
    ensures p + q + r == p + (q + r)
  {
  }

  /** A burst that fits in the free slots arrives whole. */
  lemma OfferAllFits(q: seq<bv8>, bs: seq<bv8>)
    requires |q| + |bs| <= BuffSize
    ensures OfferAll(q, bs) == q + bs
  {
    OfferAllKeepsPrefix(q, bs);
    assert bs[..|bs|] == bs;
  }

  /** A burst never empties a ring and never overfills one. */
  lemma {:induction false} OfferAllBounds(q: seq<bv8>, bs: seq<bv8>)
    requires |q| <= BuffSize
    ensures |q| <= |OfferAll(q, bs)| <= BuffSize
    ensures OfferAll(q, bs) == [] <==> q == [] && bs == []
  {
    OfferAllKeepsPrefix(q, bs);
  }

  /** A burst adds at most its own length to a ring. */
  lemma {:induction false} OfferAllLength(q: seq<bv8>, bs: seq<bv8>)
    ensures |OfferAll(q, bs)| <= |q| + |bs|
    decreases |bs|
  {
    if bs != [] {
      OfferAllLength(Offer(q, bs[0]), bs[1..]);
    }
  }

  /** The slot `i` places after `readPos`, going round the ring. */
  function Slot(data: seq<bv8>, readPos: nat, i: nat): bv8
    requires |data| == BuffSize
  {
    data[(readPos + i) % BuffSize]
  }

  /** The slots `data` of a ring with `count` bytes from `readPos` on hold
      exactly the queue `q`, and the write cursor is `count` slots ahead.
      (Only a slot term triggers the correspondence, so reasoning about the
      queue alone does not reach into the ring.) */
  ghost predicate RingHolds(data: seq<bv8>, count: nat, readPos: nat, writePos: nat, q: seq<bv8>) {
    |data| == BuffSize && count <= BuffSize && readPos < BuffSize &&
    writePos == (readPos + count) % BuffSize && |q| == count &&
    forall i {:trigger Slot(data, readPos, i)} :: 0 <= i < count ==> q[i] == Slot(data, readPos, i)
  }

  lemma SlotShift(data: seq<bv8>, readPos: nat, i: nat)
    requires |data| == BuffSize
    ensures Slot(data, Advance(readPos), i) == Slot(data, readPos, i + 1)
  {
    assert (Advance(readPos) + i) % BuffSize == (readPos + (i + 1)) % BuffSize;
  }

  /** Taking the oldest byte out of a ring: the read cursor advances. */
  lemma RingPop(data: seq<bv8>, count: nat, readPos: nat, writePos: nat, q: seq<bv8>)
    requires RingHolds(data, count, readPos, writePos, q) && count > 0
    ensures q[0] == data[readPos]
    ensures RingHolds(data, count - 1, Advance(readPos), writePos, q[1..])
  {
    assert q[0] == Slot(data, readPos, 0);
    forall i | 0 <= i < count - 1
      ensures q[1..][i] == Slot(data, Advance(readPos), i)
    {
      assert q[i + 1] == Slot(data, readPos, i + 1);
      SlotShift(data, readPos, i);
    }
  }

  /** Storing a byte at the write cursor of a ring that is not full: the
      write cursor advances. */
  lemma RingPush(data: seq<bv8>, count: nat, readPos: nat, writePos: nat, q: seq<bv8>, b: bv8)
    requires RingHolds(data, count, readPos, writePos, q) && count < BuffSize
    ensures RingHolds(data[writePos := b], count + 1, readPos, Advance(writePos), q + [b])
  {
    var data' := data[writePos := b];
    forall i | 0 <= i < count
      ensures (q + [b])[i] == Slot(data', readPos, i)
    {
      assert q[i] == Slot(data, readPos, i);
      assert (readPos + i) % BuffSize != writePos;
    }
    assert (readPos + count) % BuffSize == writePos;
    assert Slot(data', readPos, count) == b;
  }

  /** The serial port's buffers and cursors (the globals `rcv_buff`, `tr_buff`,
      `buffered_rcv`, `rcv_read_pos`, `rcv_write_pos`, `buffered_tr`,
      `tr_armed`, `tr_read_pos`, `tr_write_pos`). */
  class Uart {
    const rcvBuff: array<bv8>
    const trBuff: array<bv8>
    var bufferedRcv: nat
    var rcvReadPos: nat
    var rcvWritePos: nat
    var bufferedTr: nat
    var trArmed: bool
    var trReadPos: nat
    var trWritePos: nat

    /** Unread received bytes, oldest first. */
    ghost var RxQ: seq<bv8>
    /** Bytes waiting to be transmitted, oldest first. */
    ghost var TxQ: seq<bv8>
    /** Every byte the transmit half has handed to the shift register so far. */
    ghost var Wire: seq<bv8>

    ghost predicate Valid()
      reads this, rcvBuff, trBuff
    {
      rcvBuff.Length == BuffSize && trBuff.Length == BuffSize && rcvBuff != trBuff &&
      RingHolds(rcvBuff[..], bufferedRcv, rcvReadPos, rcvWritePos, RxQ) &&
      RingHolds(trBuff[..], bufferedTr, trReadPos, trWritePos, TxQ) &&
      (bufferedTr > 0 ==> trArmed)
    }

    /** Everything the main line has queued for the bus that was not dropped:
        what is already out, followed by what is still waiting. */
    ghost function Outbound(): seq<bv8>
      reads this
    {
      Wire + TxQ
    }

    /** The state at boot: both rings empty, transmitter idle. */
    constructor ()
      ensures Valid() && fresh(rcvBuff) && fresh(trBuff)
      ensures RxQ == [] && TxQ == [] && Wire == [] && !trArmed
    {
      rcvBuff := new bv8[BuffSize];
      trBuff := new bv8[BuffSize];
      bufferedRcv, rcvReadPos, rcvWritePos := 0, 0, 0;
      bufferedTr, trArmed, trReadPos, trWritePos := 0, false, 0, 0;
      RxQ, TxQ, Wire := [], [], [];
    }

    /** Receive half of UART_ISR: store the byte just received, or drop it
        when the receive ring is full. It moves only the write cursor and
        the count. */
    method ReceiveInterrupt(sbuf: bv8)
      requires Valid()
      modifies this, rcvBuff
      ensures Valid()
      ensures RxQ == Offer(old(RxQ), sbuf)
      ensures old(|RxQ|) == BuffSize ==> unchanged(this, rcvBuff)
      ensures rcvReadPos == old(rcvReadPos)
      ensures TxQ == old(TxQ) && Wire == old(Wire) && trArmed == old(trArmed)
    {
      if bufferedRcv < BuffSize {
        RingPush(rcvBuff[..], bufferedRcv, rcvReadPos, rcvWritePos, RxQ, sbuf);
        rcvBuff[rcvWritePos] := sbuf;
        bufferedRcv := bufferedRcv + 1;
        rcvWritePos := Advance(rcvWritePos);
        RxQ := RxQ + [sbuf];
      }
    }

    /** Transmit half of UART_ISR: hand the oldest pending byte to the shift
        register, or, with nothing pending, mark the transmitter idle. It moves
        only the read cursor and the count. */
    method TransmitInterrupt() returns (sbuf: Option<bv8>)
      requires Valid()
      modifies this
      ensures Valid()
      ensures old(TxQ) != [] ==> sbuf == Some(old(TxQ)[0]) && TxQ == old(TxQ)[1..] && trArmed == old(trArmed)
      ensures old(TxQ) != [] ==> Wire == old(Wire) + [old(TxQ)[0]]
      ensures old(TxQ) == [] ==> sbuf == None && TxQ == [] && !trArmed
      ensures Outbound() == old(Outbound())
      ensures trWritePos == old(trWritePos)
      ensures RxQ == old(RxQ)
    {
      if bufferedTr > 0 {
        RingPop(trBuff[..], bufferedTr, trReadPos, trWritePos, TxQ);
        sbuf := Some(trBuff[trReadPos]);
        bufferedTr := bufferedTr - 1;
        trReadPos := Advance(trReadPos);
        Wire := Wire + [TxQ[0]];
        TxQ := TxQ[1..];
      } else {
        sbuf := None;
        trArmed := false;
      }
    }

    /** UART_send: queue one byte for transmission (dropped when the transmit
        ring is full), then get the transmit half of the interrupt to run
        once when the interrupts are unmasked again: either the transmitter
        was idle and `TI` is forced, or the ring is full and the `TI` spin
        waits for the byte in the shift register to finish. Either way the
        ring leaves with a free slot. */
    method Send(data: bv8)
      requires Valid()
      modifies this, trBuff
      ensures Valid()
      ensures old(|TxQ|) < BuffSize ==> Outbound() == old(Outbound()) + [data]
      ensures old(|TxQ|) == BuffSize ==> Outbound() == old(Outbound())
      ensures !old(trArmed) ==> Wire == old(Wire) + [data] && TxQ == []
      ensures old(trArmed) && old(|TxQ|) + 1 < BuffSize ==> Wire == old(Wire) && TxQ == old(TxQ) + [data]
      ensures |TxQ| < BuffSize && trArmed
      ensures RxQ == old(RxQ)
    {
      if bufferedTr < BuffSize {
        RingPush(trBuff[..], bufferedTr, trReadPos, trWritePos, TxQ, data);
        trBuff[trWritePos] := data;
        trWritePos := Advance(trWritePos);
        bufferedTr := bufferedTr + 1;
        Assoc(Wire, TxQ, [data]);
        TxQ := TxQ + [data];
      }
      if !trArmed {
        trArmed := true;
        var sent := TransmitInterrupt();
      } else if bufferedTr == BuffSize {
        var sent := TransmitInterrupt();
      }
    }

    /** UART_read: take the oldest received byte; on an empty ring return 0
        and change nothing. */
    method Read() returns (read: bv8)
      requires Valid()
      modifies this
      ensures Valid()
      ensures old(RxQ) == [] ==> read == 0 && unchanged(this)
      ensures old(RxQ) != [] ==> read == old(RxQ)[0] && RxQ == old(RxQ)[1..]
      ensures rcvWritePos == old(rcvWritePos)
      ensures TxQ == old(TxQ) && Wire == old(Wire) && trArmed == old(trArmed)
    {
      read := 0;
      if bufferedRcv > 0 {
        RingPop(rcvBuff[..], bufferedRcv, rcvReadPos, rcvWritePos, RxQ);
        read := rcvBuff[rcvReadPos];
        rcvReadPos := Advance(rcvReadPos);
        bufferedRcv := bufferedRcv - 1;
        RxQ := RxQ[1..];
      }
    }

    /** The bytes that come in off the bus during one delay: the receive half
        runs once for each of them, in order. */
    method ReceiveAll(bs: seq<bv8>)
      requires Valid()
      modifies this, rcvBuff
      ensures Valid()
      ensures RxQ == OfferAll(old(RxQ), bs)
      ensures TxQ == old(TxQ) && Wire == old(Wire) && trArmed == old(trArmed)
    {
      for i := 0 to |bs|
        invariant Valid()
        invariant OfferAll(old(RxQ), bs) == OfferAll(RxQ, bs[i..])
        invariant TxQ == old(TxQ) && Wire == old(Wire) && trArmed == old(trArmed)
      {
        assert bs[i..][1..] == bs[i + 1..];
        ReceiveInterrupt(bs[i]);
      }
    }
  }
}
