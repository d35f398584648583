/** `dht11_read_with_retry`: up to five decoder calls, 100 ms apart, stopping
    at the first that succeeds. The policy is stated on the sequence of
    attempts the calls would make, and the loop is proved against it. */
module Retry {
  import opened Bus
  import opened Frame
  import opened Sampler
  import opened Decoder
  import opened Sensor

  /** `RETRIES`: the most decoder calls one retry makes. */
  const RETRIES: nat := 5
  /** The pause after a failed call, in milliseconds. */
  const RETRY_DELAY_MS: nat := 100
  /** The result when every call failed. */
  const FAILED: int := -1

  /** The attempts `n` consecutive decoder calls make from position `c`: each
      resumes at the first level the previous one left unread. */
  function Attempts(t: seq<bool>, c: nat, n: nat): (s: seq<Attempt>)
    ensures |s| == n
    decreases n
  {
    if n == 0 then [] else [Decode(t, c)] + Attempts(t, Decode(t, c).next, n - 1)
  }

  /** The result of the retry over a sequence of attempts: `0` at the first
      that returns `0`, `-1` when none does. */
  function Outcome(s: seq<Attempt>): int
  {
    if s == [] then FAILED else if s[0].rc == OK then OK else Outcome(s[1..])
  }

  /** How many decoder calls the retry makes. */
  function Used(s: seq<Attempt>): (calls: nat)
    ensures calls <= |s| && (s != [] ==> 1 <= calls)
  {
    if s == [] then 0 else if s[0].rc == OK then 1 else 1 + Used(s[1..])
  }

  /** The reading left in `out`, initially `h`: the decoder writes it only on
      success, and the retry stops after that. */
  function Stored(s: seq<Attempt>, h: Reading): Reading
  {
    if s == [] then h else if s[0].rc == OK then s[0].reading else Stored(s[1..], h)
  }

  /** The position after the last call made, starting from `c`. */
  function End(s: seq<Attempt>, c: nat): nat
  {
    if s == [] then c else if s[0].rc == OK then s[0].next else End(s[1..], s[0].next)
  }

  /** The timed events of the calls made: a start handshake per call, and a
      delay after each failed one. */
  function Log(s: seq<Attempt>): seq<Event>
  {
    if s == [] then []
    else if s[0].rc == OK then [Start]
    else [Start, DelayMs(RETRY_DELAY_MS)] + Log(s[1..])
  }

  /** `n` failed calls: handshake, delay, handshake, delay, ... */
  function Cycles(n: nat): (e: seq<Event>)
    ensures |e| == 2 * n
  {
    if n == 0 then [] else Cycles(n - 1) + [Start, DelayMs(RETRY_DELAY_MS)]
  }

  /** `dht11_read_with_retry(pin, out)`. */
  method ReadWithRetry(pin: Pin, out: Dht11) returns (rc: int)
    modifies pin, out
    ensures var s := Attempts(pin.trace, old(pin.cursor), RETRIES);
      && rc == Outcome(s)
      && pin.log == old(pin.log) + Log(s)
      && pin.cursor == End(s, old(pin.cursor))
      && out.humidity == Stored(s, Reading(old(out.humidity), old(out.tempC))).humidity
      && out.tempC == Stored(s, Reading(old(out.humidity), old(out.tempC))).tempC
  {
    ghost var s := Attempts(pin.trace, pin.cursor, RETRIES);
    ghost var c0 := pin.cursor;
    ghost var h := Reading(out.humidity, out.tempC);
    // The attempts not made yet.
    ghost var rest := s;
    var k: nat := 0;
    while k < RETRIES
      invariant k <= RETRIES
      invariant rest == Attempts(pin.trace, pin.cursor, RETRIES - k)
      invariant Outcome(s) == Outcome(rest)
      invariant old(pin.log) + Log(s) == pin.log + Log(rest)
      invariant End(s, c0) == End(rest, pin.cursor)
      invariant Stored(s, h) == Stored(rest, h) && h == Reading(out.humidity, out.tempC)
    {
      AttemptsStep(pin.trace, pin.cursor, RETRIES - k);
      ghost var logged := pin.log;
      var r := ReadOnce(pin, out);
      if r == OK {
        return OK;
      }
      pin.Delay(RETRY_DELAY_MS);
      LogStep(logged, rest);
      rest := rest[1..];
      k := k + 1;
    }
    return FAILED;
  }

  /** One call resumes where the previous one stopped reading. */
  lemma {:induction false} AttemptsStep(t: seq<bool>, c: nat, n: nat)
    requires n > 0
    ensures Attempts(t, c, n)[0] == Decode(t, c)
    ensures Attempts(t, c, n)[1..] == Attempts(t, Decode(t, c).next, n - 1)
  {
  }

  /** The events of a failed call move from the ones still to come to the
      ones logged. */
  lemma {:induction false} LogStep(logged: seq<Event>, rest: seq<Attempt>)
    requires rest != [] && rest[0].rc != OK
    ensures logged + Log(rest) == logged + [Start] + [DelayMs(RETRY_DELAY_MS)] + Log(rest[1..])
  {
    var tail := Log(rest[1..]);
    calc {
      logged + Log(rest);
      logged + ([Start, DelayMs(RETRY_DELAY_MS)] + tail);
      logged + [Start] + [DelayMs(RETRY_DELAY_MS)] + tail;
    }
  }

  /** The retry reports only `0` or `-1`, and `0` exactly when some call
      succeeded. */
  lemma {:induction false} OutcomeSuccess(s: seq<Attempt>)
    ensures Outcome(s) == OK || Outcome(s) == FAILED
    ensures Outcome(s) == OK <==> exists k :: 0 <= k < |s| && s[k].rc == OK
  {
    if s != [] {
      OutcomeSuccess(s[1..]);
      if s[0].rc != OK {
        assert forall k :: 1 <= k < |s| ==> s[k] == s[1..][k - 1];
      }
    }
  }

  /** On success the last call made is the first that succeeded, its reading
      is in `out` and the pin was read up to its end; on failure every call
      was made and `out` is as it was. */
  lemma {:induction false} FirstSuccess(s: seq<Attempt>, h: Reading, c: nat)
    ensures Outcome(s) == OK ==>
      1 <= Used(s) <= |s| && s[Used(s) - 1].rc == OK
      && (forall k :: 0 <= k < Used(s) - 1 ==> s[k].rc != OK)
      && Stored(s, h) == s[Used(s) - 1].reading && End(s, c) == s[Used(s) - 1].next
    ensures Outcome(s) == FAILED ==> Used(s) == |s| && Stored(s, h) == h
  {
    if s != [] && s[0].rc != OK {
      FirstSuccess(s[1..], h, s[0].next);
    }
  }

  lemma {:induction false} CyclesCons(n: nat)
    ensures [Start, DelayMs(RETRY_DELAY_MS)] + Cycles(n) == Cycles(n + 1)
  {
    if n > 0 {
      CyclesCons(n - 1);
    }
  }

  /** The events logged: one handshake per call, a delay after every failed
      call, none after the successful one. */
  lemma {:induction false} LogShape(s: seq<Attempt>)
    ensures Outcome(s) == OK ==> Log(s) == Cycles(Used(s) - 1) + [Start]
    ensures Outcome(s) == FAILED ==> Log(s) == Cycles(|s|)
  {
    if s != [] && s[0].rc != OK {
      LogShape(s[1..]);
      CyclesCons(|s| - 1);
      if Outcome(s) == OK {
        CyclesCons(Used(s) - 2);
      }
    }
  }

  /** Which failure a call reports, `-2` or `-3`, changes nothing in what the
      retry does: the same result, events, end position and `out`. */
  lemma {:induction false} FailureKind(s: seq<Attempt>, k: nat, code: int, h: Reading, c: nat)
    requires k < |s| && s[k].rc != OK && code != OK
    ensures var s' := s[k := s[k].(rc := code)];
      Outcome(s') == Outcome(s) && Used(s') == Used(s) && Log(s') == Log(s)
      && Stored(s', h) == Stored(s, h) && End(s', c) == End(s, c)
  {
    var s' := s[k := s[k].(rc := code)];
    if k > 0 && s[0].rc != OK {
      FailureKind(s[1..], k - 1, code, h, s[0].next);
      assert s'[1..] == s[1..][k - 1 := s[k].(rc := code)];
    }
  }

  /** Every call on an idle line from `c` on fails with `-2`. */
  lemma {:induction false} SilentAttempts(t: seq<bool>, c: nat, n: nat)
    requires |t| <= c
    ensures forall k :: 0 <= k < n ==> Attempts(t, c, n)[k].rc == INCOMPLETE
    decreases n
  {
    if n > 0 {
      var s := Attempts(t, c, n);
      SilentLine(t, c);
      AttemptsStep(t, c, n);
      SilentAttempts(t, c + COUNTER_CAP + 1, n - 1);
      assert forall k :: 1 <= k < n ==> s[k] == s[1..][k - 1];
    }
  }

  /** A sensor that never answers: five calls, five handshakes each followed
      by a 100 ms delay, and the retry reports `-1` with `out` untouched. */
  lemma {:induction false} SilentSensor(t: seq<bool>, c: nat, h: Reading)
    requires |t| <= c
    ensures var s := Attempts(t, c, RETRIES);
      Outcome(s) == FAILED && Used(s) == RETRIES && Log(s) == Cycles(RETRIES) && Stored(s, h) == h
  {
    var s := Attempts(t, c, RETRIES);
    SilentAttempts(t, c, RETRIES);
    OutcomeSuccess(s);
    FirstSuccess(s, h, c);
    LogShape(s);
  }

  /** A good frame on the first call: one call, one handshake and no delay,
      and the frame's reading in `out`. */
  lemma {:induction false} FirstFrameGood(frame: seq<nat>, counts: seq<nat>, trail: nat, h: Reading)
    requires |frame| == FRAME_BYTES && forall k :: 0 <= k < FRAME_BYTES ==> frame[k] < 256
    requires frame[4] == Checksum(frame)
    requires Transmits(counts, Serialize(frame)) && trail < COUNTER_CAP
    ensures var s := Attempts(FrameTrace(counts, trail), 0, RETRIES);
      Outcome(s) == OK && Used(s) == 1 && Log(s) == [Start] && Stored(s, h) == Convert(frame)
  {
    DecodeFrame(frame, counts, trail);
  }
}
