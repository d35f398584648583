# DHT11 reader: decoder and retry

A model of the core of `DHT11_reader.C`, a Raspberry Pi program that reads a
DHT11 humidity and temperature sensor over one wiringPi pin. The model covers two functions.

- `dht11_read_once` sends a start signal. It then captures at most 85 timing
  windows. In each window it counts ticks while the pin keeps its previous
  level, and a window of 255 ticks is a timeout.
- The high pulse of every even window from window 4 on is turned into a bit,
  `1` when it lasts more than 16 ticks. The bits are shifted into `int data[5]`,
  most significant bit first.
- It then checks that 40 bits arrived (otherwise `-2`). It checks that byte 4
  is the low eight bits of the sum of bytes 0 to 3 (otherwise `-3`). On success
  it stores humidity and temperature in `out` and returns `0`.
- `dht11_read_with_retry` calls the decoder up to five times. It stops at the
  first `0` and waits 100 ms after each failure. It returns `-1` when all five
  calls fail.

The pin is a `Bus.Pin`: the levels the sensor drives, in the order
`digitalRead` returns them, and a cursor. Past the last recorded level the
line reads HIGH, because of the bus pull-up. One tick of the capture is one
read. The start handshake and the millisecond delays go into a ghost event log.

The program is one C file, and the model covers two of its functions. The modules
split `dht11_read_once` into the pin, the frame arithmetic, the capture
specification and the decoder loops. `Retry` holds `dht11_read_with_retry`.
`Sensor` has no counterpart in the program: it models the sensor's side of the
line.


- `Bus` is the pin.
- `Frame` holds the five-byte frame: the bit shifting into `data`, the checksum,
  the two checks in source order and the conversion.
- `Sampler` holds the timing capture as functions on the levels. These are the
  specification the loops are proved against.
- `Decoder` holds `dht11_read_once` itself. It is written as the source's
  loops, over an `array<int>` `data` and the pin. It is proved against
  `Decoder.Decode`.
- `Sensor` builds the levels a sensor drives for a transmission. Each timing
  window has its own tick count, so pulse lengths may vary from bit to bit. It
  proves what the decoder makes of them: the frame back, `-2` for a short
  transmission, `-2` for a silent line, and the overrun described under
  Findings.
- `Retry` holds `dht11_read_with_retry`. It is a loop over the shared pin,
  proved against a policy stated on the attempts that consecutive decoder
  calls make.

Readings are kept in tenths, as integers: 45.0 % is `450`.

## Model

| member | source | states |
|---|---|---|
| Bus.Pin.DigitalRead | DHT11_reader.C:46 | a read returns the level at the cursor and advances the cursor by exactly one |
| Bus.Pin.StartSignal | DHT11_reader.C:34-41 | the start handshake reads no level and is logged as one `Start` event |
| Bus.Pin.Delay | DHT11_reader.C:83 | `delay(ms)` reads no level and is logged as one `DelayMs(ms)` event |
| Frame.BinValAppend | DHT11_reader.C:56-57 | shifting a bit into a byte gives twice the old value plus the bit |
| Frame.ChunkAppend | DHT11_reader.C:56-57 | bit number `j` changes only `data[j/8]`, and becomes its new least significant bit |
| Frame.ShiftBit | DHT11_reader.C:56-57 | `data[j/8] <<= 1` and the optional setting of its low bit as one update of byte `j/8`; the frame keeps its five bytes |
| Frame.Bytes | DHT11_reader.C:55-58 | `data` after the bits are shifted in one at a time from all zeros; always five bytes |
| Frame.BytesChunks | DHT11_reader.C:55-58 | after the bits are shifted in from zero, `data[k]` holds bits `8k .. 8k+7`, most significant first |
| Frame.ByteBound | DHT11_reader.C:56-57 | at most eight shifted bits make a value below 256 |
| Frame.BytesBound | DHT11_reader.C:55-58 | every byte of `data` stays below 256, so `& 0xFF` on the sum is `% 256` |
| Frame.BinValToBits | DHT11_reader.C:56-57 | reading the eight bits of a byte back, most significant first, gives the byte |
| Frame.BytesOfSerialize | DHT11_reader.C:55-58 | shifting the 40 bits of a frame into `data` rebuilds the frame byte for byte |
| Frame.Checksum | DHT11_reader.C:66 | `(data[0]+data[1]+data[2]+data[3]) & 0xFF` is a value below 256 |
| Frame.Verdict | DHT11_reader.C:63-66 | the two checks in source order, the bit count before the checksum; the code is one of `0`, `-2`, `-3` |
| Frame.Convert | DHT11_reader.C:69-71 | humidity is `data[0] + data[1]/10`, temperature `data[2] + data[3]/10`, negated when `data[2] > 127`, in exact tenths |
| Frame.ConvertExamples | DHT11_reader.C:66-71 | the frame 45,0,23,0,68 passes the checksum and reads 45.0 % and 23.0 degrees; a checksum byte of 69 fails with `-3`; byte 2 of `0x80 + 25` reads -153.0 degrees |
| Sampler.Spin | DHT11_reader.C:45-50 | the busy-wait of one window: the count of reads at the awaited level, at most 255, and the read position after the read that ended it |
| Sampler.ScanFrom | DHT11_reader.C:44-60 | the capture as written from window `i` on: a window of 255 ticks ends it, an even window from 4 on appends its bit, with no bound on the bits taken |
| Sampler.Sample | DHT11_reader.C:29-31 | a capture starts at window 0 with `laststate = HIGH` and no bit taken |
| Sampler.EvenMod | DHT11_reader.C:55 | the parity used for windows is the source's `i % 2 == 0` |
| Sampler.SampledStep | DHT11_reader.C:55 | window `i` adds one to the number of sampled windows exactly when `i >= 4` and even |
| Sampler.WindowStep | DHT11_reader.C:44-59 | one-step unfolding of `Sampler.ScanFrom`, used by the proofs: a window that ends under 255 ticks moves on to the next window, after the extra read, at that read's level, with its bit added when sampled |
| Sampler.WindowTimeout | DHT11_reader.C:49-52 | one-step unfolding of `Sampler.ScanFrom`, used by the proofs: a window that reaches 255 ticks ends the capture after the extra read, adding no bit |
| Sampler.ScanBound | DHT11_reader.C:44-60 | the windows from `i` on add at most one bit per sampled window |
| Sampler.ScanExtends | DHT11_reader.C:55-58 | the capture only appends bits |
| Sampler.SampleBound | DHT11_reader.C:44-60 | a capture takes at most 41 bits, one for each of the windows 4, 6, ..., 84 |
| Decoder.Dht11.constructor | DHT11_reader.C:21-24 | the caller's `dht11_t`, humidity and temperature in tenths, starting at zero |
| Decoder.Kept | DHT11_reader.C:55-58 | the bits stored are a prefix of those sampled, of length `min(sampled, 40)` |
| Decoder.Decode | DHT11_reader.C:62-66 | the result is `-2` exactly when fewer than 40 bits were sampled; `-3` exactly when 40 arrived and byte 4 is not the checksum; `0` exactly when 40 arrived and it is; every byte is below 256 |
| Decoder.CountTicks | DHT11_reader.C:45-50 | the busy-wait loop returns the count and leaves the cursor as `Sampler.Spin` says |
| Decoder.ShiftIn | DHT11_reader.C:56-58 | the shift of `data[j/8]` and the optional setting of its low bit turn `data` for the bits so far into `data` for one bit more |
| Decoder.Record | DHT11_reader.C:54-59 | a completed window stores its bit exactly when `i >= 4` and `i` is even, and while fewer than 40 are stored |
| Decoder.Pulse | DHT11_reader.C:45-52 | the busy-wait and the extra read advance the capture exactly as `Sampler.WindowStep` or `Sampler.WindowTimeout` says |
| Decoder.Window | DHT11_reader.C:44-60 | one iteration of the outer loop keeps `data` equal to the bytes of the bits stored and the capture on course |
| Decoder.Capture | DHT11_reader.C:44-60 | the capture loop leaves in `data` the bytes of the first 40 bits `Sampler.Sample` takes, in `j` their number, and the cursor where the capture stopped |
| Decoder.ReadOnce | DHT11_reader.C:27-76 | the return code, the cursor and the handshake log are those of `Decoder.Decode`; `out` receives the converted reading on `0` and is untouched otherwise |
| Decoder.KeepBit | DHT11_reader.C:55-58 | one more sampled bit is stored while fewer than 40 are stored, and ignored after that |
| Sensor.SpinRun | DHT11_reader.C:46-50 | a run of `n` samples of the awaited level followed by a change gives the count `n` |
| Sensor.SpinTimeout | DHT11_reader.C:49 | 255 samples of the awaited level make the busy-wait give up with the count 255 |
| Sensor.IdleTimeout | DHT11_reader.C:49-52 | a window waiting on HIGH on 255 idle samples ends the capture with the bits so far |
| Sensor.IdleEdge | DHT11_reader.C:46-51 | past the recorded levels, a window waiting on LOW ends at once with the count 0 |
| Sensor.PulsesDrive | DHT11_reader.C:46-51 | the levels a sensor drives for given pulse lengths make each window end with exactly that count |
| Sensor.ScanPulses | DHT11_reader.C:44-60 | windows with known counts under the cap are read back as those counts: the capture resumes after them with their bits |
| Sensor.HighBitsIndex | DHT11_reader.C:57 | the bits of a run of window pairs are, one by one, the counts of the second window of each pair against 16 ticks |
| Sensor.SampledOdd | DHT11_reader.C:55-57 | from an odd window on, the capture takes exactly the bits of the even windows and skips the odd ones |
| Sensor.TransmitsBits | DHT11_reader.C:54-57 | for windows of any lengths, the capture takes the bits sent exactly when each high pulse `4 + 2k` is over 16 ticks for a 1 and at most 16 for a 0 |
| Sensor.TransmitsEnd | DHT11_reader.C:51-55 | after a transmission's last bit the next window waits on LOW and is not sampled |
| Sensor.FrameWindows | DHT11_reader.C:44-60 | a frame is 84 windows of any lengths under the cap, ending on a HIGH window, and its sampled windows are its 40 bits |
| Sensor.SampleFrame | DHT11_reader.C:44-60 | a frame with any window lengths under the cap, followed by an idle line, is captured as its 40 bits, window 84 then timing out |
| Sensor.DecodeFrameAt | DHT11_reader.C:44-71 | on such a frame the decoder rebuilds the five bytes; the result is `0` when byte 4 is the checksum and `-3` otherwise; the reading is the conversion of the bytes sent |
| Sensor.DecodeFrame | DHT11_reader.C:44-71 | the same on the levels of the frame alone |
| Sensor.TruncatedScan | DHT11_reader.C:44-60 | a transmission of any window lengths cut short after fewer than 40 bits is captured as exactly those bits, then one window ending at once and one timing out |
| Sensor.TruncatedFrame | DHT11_reader.C:62-63 | such a transmission makes the decoder return `-2` |
| Sensor.SilentLine | DHT11_reader.C:44-63 | on a line that stays HIGH, window 0 times out with no bit and the decoder returns `-2` |
| Sensor.OverrunCounts | DHT11_reader.C:44-55 | a frame of any window lengths and one more completed window make 85 windows under the cap whose sampled windows give 41 bits |
| Sensor.OverrunScan | DHT11_reader.C:44-60 | on such levels the capture as written takes the frame's 40 bits and a 41st |
| Sensor.OverrunSample | DHT11_reader.C:55-58 | as written, the 41st bit goes to byte index `40/8 = 5`, past the end of `data[5]` |
| Sensor.OverrunDecode | DHT11_reader.C:55-66 | the corrected decoder on such levels still rebuilds the frame that was sent, checks its checksum and converts it |
| Retry.Attempts | DHT11_reader.C:80-81 | the decoder calls of the retry on the shared pin: `n` attempts, each starting where the previous one stopped reading |
| Retry.Outcome | DHT11_reader.C:80-85 | the retry's result on a sequence of attempts: `0` at the first attempt that returns `0`, `-1` when none does |
| Retry.Used | DHT11_reader.C:80-82 | the number of calls made: up to and including the first success, at most the attempts available and at least one |
| Retry.Stored | DHT11_reader.C:73-74 | the reading left in `out`: the first successful call's, or the old one when none succeeds |
| Retry.End | DHT11_reader.C:80-82 | the read position after the last call made |
| Retry.Log | DHT11_reader.C:80-84 | the handshakes and delays of the calls made: a handshake per call, a 100 ms delay after each failed one |
| Retry.AttemptsStep | DHT11_reader.C:80-81 | one-step unfolding of `Retry.Attempts`, used by the proofs: each decoder call of the retry starts where the previous one stopped reading |
| Retry.ReadWithRetry | DHT11_reader.C:79-86 | the result, the event log, the cursor and `out` are those of the retry policy on the attempts the five-call sequence makes |
| Retry.OutcomeSuccess | DHT11_reader.C:80-85 | the retry returns only `0` or `-1`, and `0` exactly when some call returned `0` |
| Retry.FirstSuccess | DHT11_reader.C:80-82 | on success the last call made is the first that returned `0`, and `out` and the cursor are that call's; on failure all calls were made and `out` is unchanged |
| Retry.LogShape | DHT11_reader.C:80-84 | each call makes one handshake. A 100 ms delay follows every failed call and none follows the successful one |
| Retry.FailureKind | DHT11_reader.C:82-83 | whether a failed call returned `-2` or `-3` changes nothing in the retry's result, calls, events, cursor or `out` |
| Retry.SilentAttempts | DHT11_reader.C:80-81 | on an idle line every call returns `-2` |
| Retry.SilentSensor | DHT11_reader.C:79-86 | a sensor that never answers gets five calls, each followed by a 100 ms delay, and the result `-1` with `out` untouched |
| Retry.FirstFrameGood | DHT11_reader.C:79-82 | a good frame on the first call gives `0` after one call, one handshake and no delay, with the frame's reading in `out` |

## Left out

- The wiringPi calls of the start handshake (`pinMode`, `digitalWrite`,
  `delay(18)`, `delayMicroseconds(40)`) are one logged `Start` event. Time is
  not modelled: the pin is the sequence of levels in the order they are read,
  so the sensor's timing is whatever that sequence encodes.
- `delayMicroseconds(1)` in the busy-wait is a pure wait and is not logged.
- Decoder.ReadOnce: stores humidity and temperature as integer tenths instead of
  `float`, so the rounding of `data[1]/10.0f` is not modelled.
- Frame.Convert: states the source's formulas in exact real arithmetic rather
  than 32-bit floating point.
- Negative temperatures follow the code. Byte 2 is used whole, sign bit
  included, so `0x80 + 25, 0` reads as -153.0 degrees. Masking the sign bit
  (`data[2] & 0x7F`) would give -25.0; the code does not.
- The `uint8_t` counters `counter`, `i` and `j` never go past 255 (at most 255,
  85 and 41), so no wrap-around is written out.
- A window that reaches 255 ticks ends the capture. As in the code, such a
  timeout is not a separate error: it shows as `-2` when fewer than 40 bits
  arrived, and is harmless after 40.
- `main`, argument parsing, `print_usage`, the SIGINT handler, the polling
  interval and the printing of readings are outside the core.
- The caller's `dht11_t` is a class with two integer fields. `data` is a fresh
  `array<int>` per call, as the local `int data[5]` is.

## Findings

| source | as written | input that shows it | evidently intended | confidence | as-written member | corrected member |
|---|---|---|---|---|---|---|
| DHT11_reader.C:55-58 | every even window from 4 to 84 that completes shifts a bit into `data[j/8]`, with no bound on `j`: 41 sample points | a full frame whose trailing low is followed by one more level change before 255 ticks, as noise can produce: `j` reaches 40 and `data[5]` is written, past the end of the array (undefined behaviour) | keep only the first 40 bits | not executed; needs a glitch on the line after the frame | Sensor.OverrunSample | Sensor.OverrunDecode |

The corrected decoder (`Decoder.Record`, `Decoder.Kept`) stores a bit only
while fewer than 40 are stored. On every capture of at most 40 bits this is
the source's behaviour. The rest of the model uses the corrected decoder.
