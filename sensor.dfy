/** What a DHT11 drives on the data line, as levels sampled once per tick, and
    what the decoder makes of it: each timing window is a run of one level
    ended by the opposite level, and the decoder reads back the run lengths.
    These lemmas connect the sampling functions to the frames they come from. */
module Sensor {
  import opened Bus
  import opened Frame
  import opened Sampler
  import opened Decoder

  /** `n` samples of `level`. */
  function Repeat(level: bool, n: nat): (r: seq<bool>)
    ensures |r| == n
  {
    if n == 0 then [] else [level] + Repeat(level, n - 1)
  }

  /** The levels of one window whose busy-wait counts `n` ticks: `n` samples
      at `level`, the sample that ends the wait, and the sample the decoder
      reads next and keeps as the next window's level. */
  function Block(level: bool, n: nat): (r: seq<bool>)
    ensures |r| == n + 2
  {
    Repeat(level, n) + [!level, !level]
  }

  /** Consecutive windows with the tick counts `counts`, the first at `level`
      and the levels alternating from there. */
  function Pulses(counts: seq<nat>, level: bool): seq<bool>
    decreases |counts|
  {
    if counts == [] then [] else Block(level, counts[0]) + Pulses(counts[1..], !level)
  }

  /** The level of the window `n` windows after one at `level`. */
  function After(level: bool, n: nat): bool
    decreases n
  {
    if n == 0 then level else After(!level, n - 1)
  }

  /** After an even number of windows the level is back where it started. */
  lemma {:induction false} AfterEven(level: bool, m: nat)
    ensures After(level, 2 * m) == level
    decreases m
  {
    if m > 0 {
      AfterEven(level, m - 1);
      assert After(level, 2 * m) == After(level, 2 * (m - 1));
    }
  }

  /** Every count ends its window before the cap. */
  predicate BelowCap(counts: seq<nat>)
    decreases |counts|
  {
    counts == [] || (counts[0] < COUNTER_CAP && BelowCap(counts[1..]))
  }

  /** The bits the decoder takes from windows `i, i + 1, ...` with the tick
      counts `counts`. */
  function SampledBits(counts: seq<nat>, i: nat): seq<bool>
    decreases |counts|
  {
    if counts == [] then []
    else (if Sampled(i) then [counts[0] > BIT_THRESHOLD] else []) + SampledBits(counts[1..], i + 1)
  }

  /** The levels read from position `c` on start with `p`. */
  predicate Matches(t: seq<bool>, c: nat, p: seq<bool>)
    decreases |p|
  {
    p == [] || (Level(t, c) == p[0] && Matches(t, c + 1, p[1..]))
  }

  lemma {:induction false} MatchesSplit(t: seq<bool>, c: nat, p: seq<bool>, q: seq<bool>)
    requires Matches(t, c, p + q)
    ensures Matches(t, c, p) && Matches(t, c + |p|, q)
    decreases |p|
  {
    if p == [] {
      assert p + q == q;
    } else {
      assert (p + q)[1..] == p[1..] + q;
      MatchesSplit(t, c + 1, p[1..], q);
    }
  }

  lemma {:induction false} MatchesJoin(t: seq<bool>, c: nat, p: seq<bool>, q: seq<bool>)
    requires Matches(t, c, p) && Matches(t, c + |p|, q)
    ensures Matches(t, c, p + q)
    decreases |p|
  {
    if p == [] {
      assert p + q == q;
    } else {
      assert (p + q)[1..] == p[1..] + q;
      MatchesJoin(t, c + 1, p[1..], q);
    }
  }

  /** Levels recorded at position `|a|` are read from there. */
  lemma {:induction false} MatchesAt(a: seq<bool>, p: seq<bool>, b: seq<bool>)
    ensures Matches(a + p + b, |a|, p)
    decreases |p|
  {
    if p != [] {
      assert (a + p + b)[|a|] == p[0];
      assert a + p + b == (a + [p[0]]) + p[1..] + b;
      MatchesAt(a + [p[0]], p[1..], b);
    }
  }

  /** Past the recorded levels the pull-up holds the line HIGH. */
  lemma {:induction false} MatchesIdle(t: seq<bool>, c: nat, n: nat)
    requires |t| <= c
    ensures Matches(t, c, Repeat(HIGH, n))
    decreases n
  {
    if n > 0 {
      MatchesIdle(t, c + 1, n - 1);
      assert Repeat(HIGH, n)[1..] == Repeat(HIGH, n - 1);
    }
  }

  /** The levels recorded from the start are read from the start, and the
      idle line follows them. */
  lemma {:induction false} MatchesSelf(t: seq<bool>, n: nat)
    ensures Matches(t, 0, t) && Matches(t, 0, t + Repeat(HIGH, n))
  {
    MatchesAt([], t, []);
    assert [] + t + [] == t;
    MatchesIdle(t, |t|, n);
    MatchesJoin(t, 0, t, Repeat(HIGH, n));
  }

  /** A run of `n` samples at `last` followed by a different level ends the
      busy-wait after `n` more ticks, provided the cap is not reached. */
  lemma {:induction false} SpinRun(t: seq<bool>, start: nat, c: nat, last: bool, n: nat)
    requires start <= c && c + n < start + COUNTER_CAP
    requires Matches(t, c, Repeat(last, n) + [!last])
    ensures Spin(t, start, c, last) == (c + n - start, c + n + 1)
    decreases n
  {
    if n > 0 {
      assert (Repeat(last, n) + [!last])[1..] == Repeat(last, n - 1) + [!last];
      SpinRun(t, start, c + 1, last, n - 1);
    }
  }

  /** A run at `last` long enough to reach the cap ends the busy-wait as a
      timeout, one read per tick. */
  lemma {:induction false} SpinTimeout(t: seq<bool>, start: nat, c: nat, last: bool)
    requires start <= c < start + COUNTER_CAP
    requires Matches(t, c, Repeat(last, start + COUNTER_CAP - c))
    ensures Spin(t, start, c, last) == (COUNTER_CAP, start + COUNTER_CAP)
    decreases start + COUNTER_CAP - c
  {
    if c + 1 < start + COUNTER_CAP {
      assert Repeat(last, start + COUNTER_CAP - c)[1..] == Repeat(last, start + COUNTER_CAP - c - 1);
      SpinTimeout(t, start, c + 1, last);
    }
  }

  /** A window waiting on HIGH on an idle line times out and ends the scan. */
  lemma {:induction false} IdleTimeout(t: seq<bool>, c: nat, i: nat, bits: seq<bool>)
    requires i < MAX_TIMINGS
    requires Matches(t, c, Repeat(HIGH, COUNTER_CAP))
    ensures ScanFrom(t, c, i, HIGH, bits) == Scan(bits, c + COUNTER_CAP + 1)
  {
    SpinTimeout(t, c, c, HIGH);
    WindowTimeout(t, c, i, HIGH, bits, c + COUNTER_CAP);
  }

  /** A window waiting on LOW past the recorded levels ends at once with no
      tick, and the next window waits on HIGH. */
  lemma {:induction false} IdleEdge(t: seq<bool>, c: nat, i: nat, bits: seq<bool>)
    requires |t| <= c && i < MAX_TIMINGS
    ensures ScanFrom(t, c, i, LOW, bits)
         == ScanFrom(t, c + 2, i + 1, HIGH, if Sampled(i) then bits + [false] else bits)
  {
    assert Spin(t, c, c, LOW) == (0, c + 1);
    WindowStep(t, c, i, LOW, bits, 0, c + 1);
  }

  lemma {:induction false} SampledBitsAppend(a: seq<nat>, b: seq<nat>, i: nat)
    ensures SampledBits(a + b, i) == SampledBits(a, i) + SampledBits(b, i + |a|)
    decreases |a|
  {
    if a == [] {
      assert a + b == b;
    } else {
      var rest := a[1..];
      var x: seq<bool> := if Sampled(i) then [a[0] > BIT_THRESHOLD] else [];
      var ab := a + b;
      assert ab[0] == a[0] && ab[1..] == rest + b;
      SampledBitsAppend(rest, b, i + 1);
      var p := SampledBits(rest, i + 1);
      var q := SampledBits(b, i + |a|);
      assert SampledBits(ab, i) == x + (p + q);
      assert SampledBits(a, i) == x + p;
      assert x + (p + q) == (x + p) + q;
    }
  }

  /** The busy-wait of a window of `n < 255` ticks counts `n`, and the level
      read after it is the opposite one. */
  lemma {:induction false} BlockSpin(t: seq<bool>, c: nat, level: bool, n: nat)
    requires n < COUNTER_CAP
    requires Matches(t, c, Block(level, n))
    ensures Spin(t, c, c, level) == (n, c + n + 1) && Level(t, c + n + 1) == !level
  {
    assert Block(level, n) == (Repeat(level, n) + [!level]) + [!level];
    MatchesSplit(t, c, Repeat(level, n) + [!level], [!level]);
    SpinRun(t, c, c, level, n);
  }

  /** The windows from position `c` on, the first at `level`, end their
      busy-waits after `counts[0]`, `counts[1]`, ... ticks, each short of the
      cap, and each is followed by a read of the opposite level. */
  predicate Drives(t: seq<bool>, c: nat, level: bool, counts: seq<nat>)
    decreases |counts|
  {
    counts == []
    || (counts[0] < COUNTER_CAP && Spin(t, c, c, level) == (counts[0], c + counts[0] + 1)
        && Level(t, c + counts[0] + 1) == !level && Drives(t, c + counts[0] + 2, !level, counts[1..]))
  }

  /** The samples that windows with the tick counts `counts` take. */
  function Span(counts: seq<nat>): nat
    decreases |counts|
  {
    if counts == [] then 0 else counts[0] + 2 + Span(counts[1..])
  }

  /** The levels of windows under the cap drive the busy-waits as their counts say. */
  lemma {:induction false} PulsesDrive(t: seq<bool>, c: nat, level: bool, counts: seq<nat>)
    requires BelowCap(counts) && Matches(t, c, Pulses(counts, level))
    ensures Drives(t, c, level, counts) && |Pulses(counts, level)| == Span(counts)
    decreases |counts|
  {
    if counts != [] {
      var n := counts[0];
      MatchesSplit(t, c, Block(level, n), Pulses(counts[1..], !level));
      BlockSpin(t, c, level, n);
      PulsesDrive(t, c + n + 2, !level, counts[1..]);
    }
  }

  /** Windows that all end before the cap are read back as their tick counts:
      scanning them takes the bits their counts give and resumes right after
      them, at the alternated level. */
  lemma {:induction false} ScanPulses(t: seq<bool>, c: nat, i: nat, level: bool, bits: seq<bool>, counts: seq<nat>,
                                      e: nat, j: nat, acc: seq<bool>)
    requires i + |counts| <= MAX_TIMINGS && Drives(t, c, level, counts)
    requires e == c + Span(counts) && j == i + |counts|
    requires acc == bits + SampledBits(counts, i)
    ensures ScanFrom(t, c, i, level, bits) == ScanFrom(t, e, j, After(level, |counts|), acc)
    decreases |counts|
  {
    if counts == [] {
      assert bits + [] == bits;
    } else {
      var n := counts[0];
      WindowStep(t, c, i, level, bits, n, c + n + 1);
      var next := if Sampled(i) then bits + [n > BIT_THRESHOLD] else bits;
      SampledBitsCons(bits, counts, i);
      var rest := counts[1..];
      ScanPulses(t, c + n + 2, i + 1, !level, next, rest, e, j, acc);
    }
  }

  /** The same for a whole capture, with the scan's new start, window, level
      and bits named by the caller. */
  lemma {:induction false} ScanPulsesTo(t: seq<bool>, c: nat, counts: seq<nat>, e: nat, n: nat, level: bool, bits: seq<bool>)
    requires n == |counts| <= MAX_TIMINGS && Drives(t, c, HIGH, counts)
    requires e == c + Span(counts) && level == After(HIGH, n) && bits == SampledBits(counts, 0)
    ensures Sample(t, c) == ScanFrom(t, e, n, level, bits)
  {
    assert [] + bits == bits;
    ScanPulses(t, c, 0, HIGH, [], counts, e, n, bits);
  }

  /** The bits of the first window, then those of the rest. */
  lemma {:induction false} SampledBitsCons(bits: seq<bool>, counts: seq<nat>, i: nat)
    requires counts != []
    ensures (if Sampled(i) then bits + [counts[0] > BIT_THRESHOLD] else bits) + SampledBits(counts[1..], i + 1)
         == bits + SampledBits(counts, i)
  {
    var rest := SampledBits(counts[1..], i + 1);
    if Sampled(i) {
      assert (bits + [counts[0] > BIT_THRESHOLD]) + rest == bits + ([counts[0] > BIT_THRESHOLD] + rest);
    } else {
      assert [] + rest == rest;
    }
  }

  lemma {:induction false} BelowCapAppend(a: seq<nat>, b: seq<nat>)
    requires BelowCap(a) && BelowCap(b)
    ensures BelowCap(a + b)
    decreases |a|
  {
    if a == [] {
      assert a + b == b;
    } else {
      assert (a + b)[1..] == a[1..] + b;
      BelowCapAppend(a[1..], b);
    }
  }

  /** A transmission of `bits` as the tick counts of its windows, each window
      with its own count: windows 0 to 2 are the response (the wait for it,
      its low and its high), then every bit is a low window and a high one,
      window `4 + 2k` carrying bit `k` as a count above 16 exactly for a 1.
      Every window ends before the cap. */
  predicate Transmits(counts: seq<nat>, bits: seq<bool>)
  {
    |counts| == 3 + 2 * |bits| && BelowCap(counts)
    && forall k :: 0 <= k < |bits| ==> (counts[4 + 2 * k] > BIT_THRESHOLD) == bits[k]
  }

  /** The levels of a whole frame: the windows of its transmission, then the
      low of `trail` ticks that follows the last bit before the sensor
      releases the line. */
  function FrameTrace(counts: seq<nat>, trail: nat): seq<bool>
  {
    Pulses(counts + [trail], HIGH)
  }

  /** The bits of every second window, starting with the second: the high
      pulses of a run of low/high window pairs. */
  function HighBits(counts: seq<nat>): seq<bool>
    decreases |counts|
  {
    if |counts| < 2 then [] else [counts[1] > BIT_THRESHOLD] + HighBits(counts[2..])
  }

  /** Bit `k` of `HighBits` is the count of window `2k + 1` against 16. */
  lemma {:induction false} HighBitsIndex(counts: seq<nat>)
    ensures |HighBits(counts)| == |counts| / 2
    ensures forall k :: 0 <= k < |counts| / 2 ==> HighBits(counts)[k] == (counts[2 * k + 1] > BIT_THRESHOLD)
    decreases |counts|
  {
    if |counts| >= 2 {
      var rest := counts[2..];
      HighBitsIndex(rest);
      forall k | 1 <= k < |counts| / 2
        ensures HighBits(counts)[k] == (counts[2 * k + 1] > BIT_THRESHOLD)
      {
        assert HighBits(counts)[k] == HighBits(rest)[k - 1];
        assert rest[2 * (k - 1) + 1] == counts[2 * k + 1];
      }
    }
  }

  /** From an odd window `i` on, the windows are pairs of a skipped odd one
      and a sampled even one: the bits taken are those of the even windows. */
  lemma {:induction false} SampledOdd(counts: seq<nat>, i: nat)
    requires i >= 3 && !Even(i)
    ensures SampledBits(counts, i) == HighBits(counts)
    decreases |counts|
  {
    if |counts| == 1 {
      assert SampledBits(counts, i) == [] + SampledBits(counts[1..], i + 1);
    } else if |counts| >= 2 {
      var rest := counts[2..];
      assert Even(i + 1) && !Even(i + 2);
      assert counts[1..][1..] == rest && counts[1..][0] == counts[1];
      SampledOdd(rest, i + 2);
      calc {
        SampledBits(counts, i);
        [] + SampledBits(counts[1..], i + 1);
        SampledBits(counts[1..], i + 1);
        [counts[1] > BIT_THRESHOLD] + SampledBits(rest, i + 2);
      }
    }
  }

  /** The windows of a transmission read back as the bits sent, whatever the
      count of each window: the bits sampled are `bits` exactly when every
      high pulse `4 + 2k` is on the side of 16 ticks that bit `k` asks for. */
  lemma {:induction false} TransmitsBits(counts: seq<nat>, bits: seq<bool>)
    requires |counts| == 3 + 2 * |bits|
    ensures SampledBits(counts, 0) == bits
        <==> forall k :: 0 <= k < |bits| ==> (counts[4 + 2 * k] > BIT_THRESHOLD) == bits[k]
  {
    var head := counts[..3];
    var body := counts[3..];
    assert counts == head + body;
    SampledBitsAppend(head, body, 0);
    assert head[1..][1..] == head[2..];
    assert SampledBits(head[2..], 2) == [] + SampledBits(head[2..][1..], 3);
    assert SampledBits(head[1..], 1) == [] + SampledBits(head[2..], 2);
    assert SampledBits(head, 0) == [] + SampledBits(head[1..], 1);
    EvenMod(3);
    SampledOdd(body, 3);
    HighBitsIndex(body);
    var s := HighBits(body);
    assert SampledBits(counts, 0) == s;
    forall k | 0 <= k < |bits|
      ensures s[k] == (counts[4 + 2 * k] > BIT_THRESHOLD)
    {
      assert body[2 * k + 1] == counts[4 + 2 * k];
    }
  }

  /** A transmission ends on a sampled HIGH window, so the window after it
      waits on LOW and is odd, and all its windows end before the cap. */
  lemma {:induction false} TransmitsEnd(counts: seq<nat>, bits: seq<bool>)
    requires Transmits(counts, bits)
    ensures After(HIGH, |counts|) == LOW && !Sampled(|counts|)
  {
    var k := |bits|;
    assert After(HIGH, 2 * (k + 1) + 1) == After(LOW, 2 * (k + 1));
    AfterEven(LOW, k + 1);
    EvenMod(3 + 2 * k);
  }

  /** The 84 windows of a frame all end before the cap, end on a HIGH window
      and read back as the frame's 40 bits. */
  lemma {:induction false} FrameWindows(frame: seq<nat>, counts: seq<nat>, trail: nat)
    requires |frame| == FRAME_BYTES
    requires Transmits(counts, Serialize(frame)) && trail < COUNTER_CAP
    ensures var all := counts + [trail];
      |all| == MAX_TIMINGS - 1 && BelowCap(all)
      && After(HIGH, |all|) == HIGH && SampledBits(all, 0) == Serialize(frame)
  {
    assert BelowCap([trail]);
    BelowCapAppend(counts, [trail]);
    TransmitsBits(counts, Serialize(frame));
    SampledBitsAppend(counts, [trail], 0);
    EvenMod(83);
    assert SampledBits([trail], 83) == [] + SampledBits([], 84);
    assert Serialize(frame) + [] == Serialize(frame);
    AfterEven(HIGH, 42);
  }

  /** The scan of a whole frame followed by an idle line: its 40 bits, then
      window 84 times out. */
  lemma {:induction false} SampleFrame(t: seq<bool>, c: nat, frame: seq<nat>, counts: seq<nat>, trail: nat)
    requires |frame| == FRAME_BYTES
    requires Transmits(counts, Serialize(frame)) && trail < COUNTER_CAP
    requires Matches(t, c, FrameTrace(counts, trail) + Repeat(HIGH, COUNTER_CAP))
    ensures Sample(t, c) == Scan(Serialize(frame), c + |FrameTrace(counts, trail)| + COUNTER_CAP + 1)
  {
    var bits := Serialize(frame);
    var all := counts + [trail];
    var p := FrameTrace(counts, trail);
    FrameWindows(frame, counts, trail);
    MatchesSplit(t, c, p, Repeat(HIGH, COUNTER_CAP));
    PulsesDrive(t, c, HIGH, all);
    ScanPulsesTo(t, c, all, c + |p|, |all|, HIGH, bits);
    IdleTimeout(t, c + |p|, |all|, bits);
  }

  /** A frame sent with any high pulse lengths that are at most 16 ticks for
      a 0 and more than 16 for a 1, any low and response lengths, every window
      under the cap, and the line left idle afterwards: the decoder rebuilds
      its five bytes. So the result is 0 when byte 4 is the checksum of bytes
      0 to 3 and -3 otherwise, and the reading is the conversion of the bytes
      sent. */
  lemma {:induction false} DecodeFrameAt(t: seq<bool>, c: nat, frame: seq<nat>, counts: seq<nat>, trail: nat)
    requires |frame| == FRAME_BYTES && forall k :: 0 <= k < FRAME_BYTES ==> frame[k] < 256
    requires Transmits(counts, Serialize(frame)) && trail < COUNTER_CAP
    requires Matches(t, c, FrameTrace(counts, trail) + Repeat(HIGH, COUNTER_CAP))
    ensures Decode(t, c).frame == frame
    ensures Decode(t, c).rc == (if frame[4] == Checksum(frame) then OK else CHECKSUM_MISMATCH)
    ensures Decode(t, c).reading == Convert(frame)
    ensures Decode(t, c).next == c + |FrameTrace(counts, trail)| + COUNTER_CAP + 1
  {
    SampleFrame(t, c, frame, counts, trail);
    BytesOfSerialize(frame);
  }

  /** The same on the levels of one frame alone: the line idles HIGH once they
      run out. */
  lemma {:induction false} DecodeFrame(frame: seq<nat>, counts: seq<nat>, trail: nat)
    requires |frame| == FRAME_BYTES && forall k :: 0 <= k < FRAME_BYTES ==> frame[k] < 256
    requires Transmits(counts, Serialize(frame)) && trail < COUNTER_CAP
    ensures var t := FrameTrace(counts, trail);
      Decode(t, 0).frame == frame
      && Decode(t, 0).rc == (if frame[4] == Checksum(frame) then OK else CHECKSUM_MISMATCH)
      && Decode(t, 0).reading == Convert(frame)
  {
    var t := FrameTrace(counts, trail);
    MatchesSelf(t, COUNTER_CAP);
    DecodeFrameAt(t, 0, frame, counts, trail);
  }

  /** Past the end of the levels, a window waiting on LOW that yields no bit
      ends at once, and the next one times out on the idle level. */
  lemma {:induction false} IdleTail(t: seq<bool>, c: nat, i: nat, bits: seq<bool>)
    requires |t| <= c && i + 1 < MAX_TIMINGS && !Sampled(i)
    ensures ScanFrom(t, c, i, LOW, bits) == Scan(bits, c + COUNTER_CAP + 3)
  {
    IdleEdge(t, c, i, bits);
    MatchesIdle(t, c + 2, COUNTER_CAP);
    IdleTimeout(t, c + 2, i + 1, bits);
  }

  /** The scan of a transmission cut short after fewer than 40 bits and
      followed by an idle line: the bits sent, then a window that ends at once
      on the idle level and one that times out on it. */
  lemma {:induction false} TruncatedScan(t: seq<bool>, c: nat, bits: seq<bool>, counts: seq<nat>)
    requires |bits| < FRAME_BITS && Transmits(counts, bits)
    requires Matches(t, c, Pulses(counts, HIGH)) && |t| <= c + |Pulses(counts, HIGH)|
    ensures Sample(t, c) == Scan(bits, c + |Pulses(counts, HIGH)| + COUNTER_CAP + 3)
  {
    var e := c + |Pulses(counts, HIGH)|;
    var n := |counts|;
    TransmitsBits(counts, bits);
    TransmitsEnd(counts, bits);
    PulsesDrive(t, c, HIGH, counts);
    ScanPulsesTo(t, c, counts, e, n, LOW, bits);
    IdleTail(t, e, n, bits);
  }

  /** A transmission cut short after fewer than 40 bits, the line then left
      idle: the decoder reports `-2` having sampled exactly the bits sent. */
  lemma {:induction false} TruncatedFrame(bits: seq<bool>, counts: seq<nat>)
    requires |bits| < FRAME_BITS && Transmits(counts, bits)
    ensures var t := Pulses(counts, HIGH);
      Sample(t, 0).bits == bits && Decode(t, 0).rc == INCOMPLETE
  {
    var t := Pulses(counts, HIGH);
    MatchesSelf(t, 0);
    TruncatedScan(t, 0, bits, counts);
  }

  /** The windows of a frame and one more, window 84, that also ends before
      the cap: the line changes level again after the trailing low. */
  function OverrunTrace(counts: seq<nat>, trail: nat, extra: nat): seq<bool>
  {
    Pulses(counts + [trail] + [extra], HIGH)
  }

  /** The 85 windows of such a trace all end before the cap, and the sampled
      ones read back as the frame's 40 bits and one bit more. */
  lemma {:induction false} OverrunCounts(frame: seq<nat>, counts: seq<nat>, trail: nat, extra: nat)
    requires |frame| == FRAME_BYTES
    requires Transmits(counts, Serialize(frame)) && trail < COUNTER_CAP && extra < COUNTER_CAP
    ensures var all := counts + [trail] + [extra];
      |all| == MAX_TIMINGS && BelowCap(all)
      && SampledBits(all, 0) == Serialize(frame) + [extra > BIT_THRESHOLD]
  {
    var first := counts + [trail];
    FrameWindows(frame, counts, trail);
    assert BelowCap([extra]);
    BelowCapAppend(first, [extra]);
    SampledBitsAppend(first, [extra], 0);
    EvenMod(84);
    assert SampledBits([extra], 84) == [extra > BIT_THRESHOLD] + SampledBits([], 85);
  }

  /** The scan of such a trace: no window times out, and every sampled one
      contributes a bit. */
  lemma {:induction false} OverrunScan(t: seq<bool>, c: nat, frame: seq<nat>, counts: seq<nat>, trail: nat, extra: nat)
    requires |frame| == FRAME_BYTES
    requires Transmits(counts, Serialize(frame)) && trail < COUNTER_CAP && extra < COUNTER_CAP
    requires Matches(t, c, OverrunTrace(counts, trail, extra))
    ensures Sample(t, c).bits == Serialize(frame) + [extra > BIT_THRESHOLD]
  {
    var all := counts + [trail] + [extra];
    var bits := Serialize(frame) + [extra > BIT_THRESHOLD];
    OverrunCounts(frame, counts, trail, extra);
    PulsesDrive(t, c, HIGH, all);
    var e := c + Span(all);
    var last := After(HIGH, MAX_TIMINGS);
    ScanPulsesTo(t, c, all, e, MAX_TIMINGS, last, bits);
    assert ScanFrom(t, e, MAX_TIMINGS, last, bits) == Scan(bits, e);
  }

  /** The capture as written on such a trace: all 85 windows complete and the
      even ones from 4 to 84 are 41 sample points, so 41 bits are taken. The
      last of them is bit number 40, whose byte index is `40 / 8 == 5`, one past
      the end of `int data[5]`. */
  lemma {:induction false} OverrunSample(frame: seq<nat>, counts: seq<nat>, trail: nat, extra: nat)
    requires |frame| == FRAME_BYTES
    requires Transmits(counts, Serialize(frame)) && trail < COUNTER_CAP && extra < COUNTER_CAP
    ensures var s := Sample(OverrunTrace(counts, trail, extra), 0);
      s.bits == Serialize(frame) + [extra > BIT_THRESHOLD]
      && |s.bits| == FRAME_BITS + 1 && (|s.bits| - 1) / 8 == FRAME_BYTES
  {
    var t := OverrunTrace(counts, trail, extra);
    MatchesSelf(t, 0);
    OverrunScan(t, 0, frame, counts, trail, extra);
  }

  /** The corrected decoder on the same trace keeps the first 40 bits and
      decodes the frame that was sent. */
  lemma {:induction false} OverrunDecode(frame: seq<nat>, counts: seq<nat>, trail: nat, extra: nat)
    requires |frame| == FRAME_BYTES && forall k :: 0 <= k < FRAME_BYTES ==> frame[k] < 256
    requires Transmits(counts, Serialize(frame)) && trail < COUNTER_CAP && extra < COUNTER_CAP
    ensures var d := Decode(OverrunTrace(counts, trail, extra), 0);
      d.frame == frame
      && d.rc == (if frame[4] == Checksum(frame) then OK else CHECKSUM_MISMATCH)
      && d.reading == Convert(frame)
  {
    var bits := Serialize(frame);
    OverrunSample(frame, counts, trail, extra);
    assert (bits + [extra > BIT_THRESHOLD])[..FRAME_BITS] == bits;
    BytesOfSerialize(frame);
  }

  /** A sensor that never answers leaves the line idle: window 0 times out
      waiting on HIGH, nothing is sampled, and the decoder reports `-2`. */
  lemma {:induction false} SilentLine(t: seq<bool>, c: nat)
    requires |t| <= c
    ensures Sample(t, c) == Scan([], c + COUNTER_CAP + 1)
    ensures Decode(t, c).rc == INCOMPLETE && Decode(t, c).next == c + COUNTER_CAP + 1
  {
    MatchesIdle(t, c, COUNTER_CAP);
    IdleTimeout(t, c, 0, []);
  }
}
