/** `dht11_read_once`: one start handshake, the timing capture, the two
    checks and the conversion, written as the loops of the source and proved
    against `Decode`, its specification as a function of the pin's levels. */
module Decoder {
  import opened Bus
  import opened Sampler
  import opened Frame

  /** One decoder call as a value: its return code, the bytes it assembled in
      `data`, the reading it stores on success, and the position of the first
      level left unread. */
  datatype Attempt = Attempt(rc: int, frame: seq<nat>, reading: Reading, next: nat)

  /** The bits that reach `data`: the first 40 sampled. The decoder keeps no
      bit after the fortieth, so that every write lands in `data[0..4]`; where
      at most 40 are sampled this changes nothing. */
  function Kept(bits: seq<bool>): (kept: seq<bool>)
    ensures kept <= bits && |kept| == Min(|bits|, FRAME_BITS)
  {
    if |bits| <= FRAME_BITS then bits else bits[..FRAME_BITS]
  }

  /** What one call of the decoder does on the levels `t` from position `c`. The bit count is
      checked before the checksum, so a short capture is `-2` whatever its
      bytes; a full one is `-3` exactly when byte 4 is not the low eight bits
      of the sum of bytes 0 to 3, and `0` otherwise. */
  function Decode(t: seq<bool>, c: nat): (a: Attempt)
    ensures |a.frame| == FRAME_BYTES && forall k :: 0 <= k < FRAME_BYTES ==> a.frame[k] < 256
    ensures a.rc == INCOMPLETE <==> |Sample(t, c).bits| < FRAME_BITS
    ensures a.rc == CHECKSUM_MISMATCH <==> |Sample(t, c).bits| >= FRAME_BITS && a.frame[4] != Checksum(a.frame)
    ensures a.rc == OK <==> |Sample(t, c).bits| >= FRAME_BITS && a.frame[4] == Checksum(a.frame)
    ensures a.next == Sample(t, c).next
  {
    var s := Sample(t, c);
    var bits := Kept(s.bits);
    var frame := Bytes(bits);
    BytesBound(bits);
    Attempt(Verdict(|bits|, frame), frame, Convert(frame), s.next)
  }

  /** The caller's `dht11_t`: humidity and temperature, in tenths. */
  class Dht11 {
    var humidity: int
    var tempC: int

    constructor ()
      ensures humidity == 0 && tempC == 0
    {
      humidity, tempC := 0, 0;
    }
  }

  /** The busy-wait of one timing window (the inner `while` of the source):
      counts ticks while the pin stays at `laststate`, giving up at 255. */
  method CountTicks(pin: Pin, laststate: bool) returns (counter: nat)
    modifies pin`cursor
    ensures (counter, pin.cursor) == Spin(pin.trace, old(pin.cursor), old(pin.cursor), laststate)
  {
    counter := 0;
    ghost var before := pin.cursor;
    var level := pin.DigitalRead();
    while level == laststate
      invariant counter < COUNTER_CAP && before == old(pin.cursor) + counter
      invariant level == Level(pin.trace, before) && pin.cursor == before + 1
      invariant Spin(pin.trace, old(pin.cursor), old(pin.cursor), laststate)
             == Spin(pin.trace, old(pin.cursor), before, laststate)
      decreases COUNTER_CAP - counter
    {
      counter := counter + 1;
      // delayMicroseconds(1) is a pure wait.
      if counter == COUNTER_CAP {
        break;
      }
      before := pin.cursor;
      level := pin.DigitalRead();
    }
  }

  /** `data[j/8] <<= 1; if (bit) data[j/8] |= 1;` for the bit after the
      `|bits|` already kept. */
  method ShiftIn(data: array<int>, ghost bits: seq<bool>, j: nat, bit: bool)
    requires data.Length == FRAME_BYTES && j == |bits| < FRAME_BITS
    requires data[..] == Bytes(bits)
    modifies data
    ensures data[..] == Bytes(bits + [bit])
  {
    assert (bits + [bit])[..j] == bits;
    var k := j / 8;
    data[k] := data[k] * 2;
    // After the shift the low bit is clear, so `|= 1` adds one.
    if bit {
      data[k] := data[k] + 1;
    }
  }

  /** The end of a completed window `i` with `counter` ticks: the windows from
      4 on that are even yield the bit `counter > 16`, shifted into `data` while
      fewer than 40 are kept. Returns the new bit count. */
  method Record(data: array<int>, ghost sampled: seq<bool>, j: nat, i: nat, counter: nat) returns (j': nat)
    requires data.Length == FRAME_BYTES && j == |Kept(sampled)|
    requires data[..] == Bytes(Kept(sampled))
    modifies data
    ensures var next := if Sampled(i) then sampled + [counter > BIT_THRESHOLD] else sampled;
      j' == |Kept(next)| && data[..] == Bytes(Kept(next))
  {
    j' := j;
    EvenMod(i);
    if i >= 4 && i % 2 == 0 {
      var bit := counter > BIT_THRESHOLD;
      KeepBit(sampled, bit);
      if j < FRAME_BITS {
        ShiftIn(data, Kept(sampled), j, bit);
        j' := j + 1;
      }
    }
  }

  /** The timing of window `i`: the busy-wait and the extra read whose level
      the next window waits on. `counter` is the tick count; the window ended
      as a timeout when it is 255. */
  method Pulse(pin: Pin, i: nat, laststate: bool, ghost sampled: seq<bool>) returns (counter: nat, level: bool)
    requires i < MAX_TIMINGS
    modifies pin`cursor
    ensures counter <= COUNTER_CAP
    ensures counter == COUNTER_CAP ==>
      ScanFrom(pin.trace, old(pin.cursor), i, laststate, sampled) == Scan(sampled, pin.cursor)
    ensures counter < COUNTER_CAP ==>
      ScanFrom(pin.trace, old(pin.cursor), i, laststate, sampled)
      == ScanFrom(pin.trace, pin.cursor, i + 1, level, if Sampled(i) then sampled + [counter > BIT_THRESHOLD] else sampled)
  {
    ghost var c := pin.cursor;
    counter := CountTicks(pin, laststate);
    ghost var e := pin.cursor;
    // The source reads the pin again and keeps that level for the next window.
    level := pin.DigitalRead();
    if counter == COUNTER_CAP {
      WindowTimeout(pin.trace, c, i, laststate, sampled, e);
    } else {
      WindowStep(pin.trace, c, i, laststate, sampled, counter, e);
    }
  }

  /** Window `i` of the timing capture: its timing, and the bit when the
      window yields one. `timeout` reports a busy-wait that reached 255 ticks,
      which ends the capture with `data` untouched. */
  method Window(pin: Pin, data: array<int>, i: nat, laststate: bool, j: nat, ghost sampled: seq<bool>)
    returns (timeout: bool, level: bool, j': nat, ghost sampled': seq<bool>)
    requires i < MAX_TIMINGS
    requires data.Length == FRAME_BYTES && j == |Kept(sampled)| && data[..] == Bytes(Kept(sampled))
    modifies pin`cursor, data
    ensures j' == |Kept(sampled')| && data[..] == Bytes(Kept(sampled'))
    ensures timeout ==> sampled' == sampled
    ensures timeout ==> ScanFrom(pin.trace, old(pin.cursor), i, laststate, sampled) == Scan(sampled, pin.cursor)
    ensures !timeout ==>
      ScanFrom(pin.trace, old(pin.cursor), i, laststate, sampled) == ScanFrom(pin.trace, pin.cursor, i + 1, level, sampled')
  {
    var counter;
    counter, level := Pulse(pin, i, laststate, sampled);
    if counter == COUNTER_CAP {
      return true, level, j, sampled;
    }
    j' := Record(data, sampled, j, i, counter);
    sampled' := if Sampled(i) then sampled + [counter > BIT_THRESHOLD] else sampled;
    timeout := false;
  }

  /** The timing capture loop of `dht11_read_once`: up to 85 windows, the bits
      of windows 4, 6, ... shifted into `data`. Returns `data` and the bit
      count `j`. */
  method Capture(pin: Pin) returns (data: array<int>, j: nat)
    modifies pin`cursor
    ensures fresh(data) && data.Length == FRAME_BYTES
    ensures data[..] == Bytes(Kept(Sample(pin.trace, old(pin.cursor)).bits))
    ensures j == |Kept(Sample(pin.trace, old(pin.cursor)).bits)|
    ensures pin.cursor == Sample(pin.trace, old(pin.cursor)).next
  {
    ghost var goal := Sample(pin.trace, pin.cursor);
    data := new int[FRAME_BYTES](_ => 0);
    var laststate := HIGH;
    j := 0;
    ghost var sampled: seq<bool> := [];
    var i: nat := 0;
    while i < MAX_TIMINGS
      invariant i <= MAX_TIMINGS
      invariant j == |Kept(sampled)| && data[..] == Bytes(Kept(sampled))
      invariant ScanFrom(pin.trace, pin.cursor, i, laststate, sampled) == goal
    {
      var timeout;
      timeout, laststate, j, sampled := Window(pin, data, i, laststate, j, sampled);
      if timeout {
        assert goal == Scan(sampled, pin.cursor);
        break;
      }
      i := i + 1;
    }
    assert i == MAX_TIMINGS ==> goal == Scan(sampled, pin.cursor);
  }

  /** `dht11_read_once(pin, out)`: the start handshake, the capture, the bit
      count check, the checksum check and the conversion. `out` is written on
      success only. */
  method ReadOnce(pin: Pin, out: Dht11) returns (rc: int)
    modifies pin, out
    ensures rc == Decode(pin.trace, old(pin.cursor)).rc
    ensures pin.cursor == Decode(pin.trace, old(pin.cursor)).next
    ensures pin.log == old(pin.log) + [Start]
    ensures rc == OK ==> out.humidity == Decode(pin.trace, old(pin.cursor)).reading.humidity
    ensures rc == OK ==> out.tempC == Decode(pin.trace, old(pin.cursor)).reading.tempC
    ensures rc != OK ==> out.humidity == old(out.humidity) && out.tempC == old(out.tempC)
  {
    ghost var d := Decode(pin.trace, pin.cursor);
    pin.StartSignal();
    var data, j := Capture(pin);
    assert d == Attempt(Verdict(j, data[..]), data[..], Convert(data[..]), pin.cursor);
    if j < FRAME_BITS {
      return INCOMPLETE;
    }
    // `(data[0] + data[1] + data[2] + data[3]) & 0xFF`
    if data[4] != Checksum(data[..]) {
      return CHECKSUM_MISMATCH;
    }
    var h := 10 * data[0] + data[1];
    var c := 10 * data[2] + data[3];
    if data[2] > 127 {
      c := -c;
    }
    out.humidity := h;
    out.tempC := c;
    return OK;
  }

  /** Taking one more sampled bit extends the kept bits while fewer than 40
      are kept, and leaves them as they are after that. */
  lemma {:induction false} KeepBit(sampled: seq<bool>, bit: bool)
    ensures |Kept(sampled)| < FRAME_BITS ==> Kept(sampled + [bit]) == Kept(sampled) + [bit]
    ensures |Kept(sampled)| == FRAME_BITS ==> Kept(sampled + [bit]) == Kept(sampled)
  {
    if |sampled| >= FRAME_BITS {
      assert (sampled + [bit])[..FRAME_BITS] == sampled[..FRAME_BITS];
    }
  }
}
