/** The timing capture of `dht11_read_once` as functions on the levels not yet
    read: the busy-wait of one timing window, and the run of up to 85 windows
    that turns high-pulse lengths into bits. These are the specifications the
    decoder's loops are proved against. */
module Sampler {
  import opened Bus

  /** `MAXTIMINGS`: the windows the outer loop allows. */
  const MAX_TIMINGS: nat := 85
  /** The tick count that ends a window as a timeout. */
  const COUNTER_CAP: nat := 255
  /** A high pulse longer than this many ticks is a 1. */
  const BIT_THRESHOLD: nat := 16

  /** Windows 0 to 3 are the sensor's response preamble; from window 4 on,
      every even window is the high half of a bit and yields that bit. */
  predicate Sampled(i: nat)
  {
    i >= 4 && Even(i)
  }

  /** Parity by counting down, so that window `i + 1` has the opposite parity
      of window `i` by definition. */
  predicate Even(i: nat)
    decreases i
  {
    if i == 0 then true else !Even(i - 1)
  }

  /** `Even` is the source's `i % 2 == 0`. */
  lemma {:induction false} EvenMod(i: nat)
    ensures Even(i) <==> i % 2 == 0
    decreases i
  {
    if i > 0 {
      EvenMod(i - 1);
    }
  }

  /** How many of the windows `0 .. n-1` yield a bit: the windows 4, 6, ...
      below `n`. */
  function SampledBefore(n: nat): nat
  {
    if n <= 4 then 0 else (n - 3) / 2
  }

  /** Window `i` adds one to the count exactly when it yields a bit. */
  lemma {:induction false} SampledStep(i: nat)
    ensures SampledBefore(i + 1) == SampledBefore(i) + (if Sampled(i) then 1 else 0)
  {
    EvenMod(i);
  }

  /** The busy-wait of one window that began at position `start`, reading the
      levels `t` at position `c`: `c - start` ticks have been counted while the
      pin stayed at `last`. The read at `c` either differs from `last` (the
      window ends with that count) or matches it (one more tick, and the
      window ends as a timeout once the count reaches 255). Returns the count
      and the position after the read that ended the wait. */
  function Spin(t: seq<bool>, start: nat, c: nat, last: bool): (r: (nat, nat))
    requires start <= c < start + COUNTER_CAP
    ensures c - start <= r.0 <= COUNTER_CAP
    ensures c < r.1
    decreases start + COUNTER_CAP - c
  {
    if Level(t, c) != last then (c - start, c + 1)
    else if c + 1 - start == COUNTER_CAP then (COUNTER_CAP, c + 1)
    else Spin(t, start, c + 1, last)
  }

  /** The bits sampled by one run of the outer loop, and the position of the
      first level left unread. */
  datatype Scan = Scan(bits: seq<bool>, next: nat)

  /** Windows `i ..` of the outer loop from position `c`, with `last` the level
      stored by the previous window and `bits` those sampled so far. After the
      busy-wait the source reads the pin once more and keeps that level for the
      next window; a window that reaches 255 ticks then ends sampling without a
      bit. As the source is written there is no bound on the bits taken: one
      per sampled window that completes. */
  function ScanFrom(t: seq<bool>, c: nat, i: nat, last: bool, bits: seq<bool>): (s: Scan)
    requires i <= MAX_TIMINGS
    decreases MAX_TIMINGS - i
  {
    if i == MAX_TIMINGS then Scan(bits, c)
    else
      var w := Spin(t, c, c, last);
      if w.0 == COUNTER_CAP then Scan(bits, w.1 + 1)
      else
        var next := if Sampled(i) then bits + [w.0 > BIT_THRESHOLD] else bits;
        ScanFrom(t, w.1 + 1, i + 1, Level(t, w.1), next)
  }

  /** One completed window: the scan from window `i` is the scan from window
      `i + 1`, resumed after the level read that ended the busy-wait, with the
      bit of window `i` added when it is sampled. */
  lemma {:induction false} WindowStep(t: seq<bool>, c: nat, i: nat, last: bool, bits: seq<bool>, count: nat, e: nat)
    requires i < MAX_TIMINGS
    requires Spin(t, c, c, last) == (count, e) && count < COUNTER_CAP
    ensures ScanFrom(t, c, i, last, bits)
         == ScanFrom(t, e + 1, i + 1, Level(t, e), if Sampled(i) then bits + [count > BIT_THRESHOLD] else bits)
  {
  }

  /** A window that reaches 255 ticks ends the scan. */
  lemma {:induction false} WindowTimeout(t: seq<bool>, c: nat, i: nat, last: bool, bits: seq<bool>, e: nat)
    requires i < MAX_TIMINGS
    requires Spin(t, c, c, last) == (COUNTER_CAP, e)
    ensures ScanFrom(t, c, i, last, bits) == Scan(bits, e + 1)
  {
  }

  /** A whole capture from position `c`: the stored level starts HIGH and no
      bit is taken yet. */
  function Sample(t: seq<bool>, c: nat): (s: Scan)
  {
    ScanFrom(t, c, 0, HIGH, [])
  }

  /** The windows from `i` on add at most one bit per sampled window. */
  lemma {:induction false} ScanBound(t: seq<bool>, c: nat, i: nat, last: bool, bits: seq<bool>)
    requires i <= MAX_TIMINGS
    ensures |ScanFrom(t, c, i, last, bits).bits| <= |bits| + SampledBefore(MAX_TIMINGS) - SampledBefore(i)
    decreases MAX_TIMINGS - i
  {
    if i < MAX_TIMINGS {
      var w := Spin(t, c, c, last);
      if w.0 < COUNTER_CAP {
        var next := if Sampled(i) then bits + [w.0 > BIT_THRESHOLD] else bits;
        SampledStep(i);
        ScanBound(t, w.1 + 1, i + 1, Level(t, w.1), next);
      }
    }
  }

  /** The scan only appends: the bits taken before window `i` stay first. */
  lemma {:induction false} ScanExtends(t: seq<bool>, c: nat, i: nat, last: bool, bits: seq<bool>)
    requires i <= MAX_TIMINGS
    ensures bits <= ScanFrom(t, c, i, last, bits).bits
    decreases MAX_TIMINGS - i
  {
    if i < MAX_TIMINGS {
      var w := Spin(t, c, c, last);
      if w.0 < COUNTER_CAP {
        var next := if Sampled(i) then bits + [w.0 > BIT_THRESHOLD] else bits;
        ScanExtends(t, w.1 + 1, i + 1, Level(t, w.1), next);
        PrefixTrans(bits, next, ScanFrom(t, w.1 + 1, i + 1, Level(t, w.1), next).bits);
      }
    }
  }

  lemma {:induction false} PrefixTrans(a: seq<bool>, b: seq<bool>, c: seq<bool>)
    requires a <= b && b <= c
    ensures a <= c
  {
    assert forall k :: 0 <= k < |a| ==> a[k] == b[k] == c[k];
  }

  /** At most 41 bits come out of a capture: one for each of the windows 4,
      6, ..., 84. */
  lemma {:induction false} SampleBound(t: seq<bool>, c: nat)
    ensures |Sample(t, c).bits| <= SampledBefore(MAX_TIMINGS) == 41
  {
    ScanBound(t, c, 0, HIGH, []);
  }
}
