/** The sensor's data pin as the decoder sees it through wiringPi: a recorded
    sequence of logic levels read one sample per `digitalRead`, and a ghost log
    of the timed events (start handshake, millisecond delays). */
module Bus {
  /** Logic levels: `true` is HIGH, `false` is LOW. */
  const HIGH: bool := true
  const LOW: bool := false

  /** The level read at position `c` of the recorded levels `t`. The line has
      a pull-up, so once the recorded levels run out the pin reads HIGH. */
  function Level(t: seq<bool>, c: nat): bool
  {
    if c < |t| then t[c] else HIGH
  }

  /** Timed events on the pin: the start handshake of one decode attempt
      (output low for 18 ms, high for 40 us, then input mode) and a
      millisecond `delay`. */
  datatype Event = Start | DelayMs(ms: nat)

  class Pin {
    /** Every level the sensor will drive, in the order the decoder reads them. */
    const trace: seq<bool>
    /** How many samples have been read so far. */
    var cursor: nat
    ghost var log: seq<Event>

    constructor (levels: seq<bool>)
      ensures trace == levels && cursor == 0 && log == []
    {
      trace := levels;
      cursor := 0;
      log := [];
    }

    /** `digitalRead`: the level at the cursor; the cursor moves on by one. */
    method DigitalRead() returns (level: bool)
      modifies this`cursor
      ensures level == Level(trace, old(cursor))
      ensures cursor == old(cursor) + 1
    {
      level := Level(trace, cursor);
      cursor := cursor + 1;
    }

    /** The start handshake (`pinMode`, `digitalWrite`, `delay(18)`,
        `delayMicroseconds(40)`, `pinMode`): it reads nothing and is only logged. */
    method StartSignal()
      modifies this`log
      ensures log == old(log) + [Start]
    {
      log := log + [Start];
    }

    /** `delay(ms)`. */
    method Delay(ms: nat)
      modifies this`log
      ensures log == old(log) + [DelayMs(ms)]
    {
      log := log + [DelayMs(ms)];
    }
  }
}
