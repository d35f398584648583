/** The five-byte DHT11 frame: how sampled bits fill `int data[5]`, the
    checksum, the result codes of the two checks, and the conversion of the
    bytes to humidity and temperature in tenths. */
module Frame {
  /** Bits of a complete frame, and the bytes of `data` that hold them. */
  const FRAME_BITS: nat := 40
  const FRAME_BYTES: nat := 5

  /** Return codes of `dht11_read_once`. */
  const OK: int := 0
  const INCOMPLETE: int := -2
  const CHECKSUM_MISMATCH: int := -3

  function Pow2(n: nat): (p: nat)
    ensures p >= 1
  {
    if n == 0 then 1 else 2 * Pow2(n - 1)
  }

  lemma {:induction false} Pow2Monotone(a: nat, b: nat)
    requires a <= b
    ensures Pow2(a) <= Pow2(b)
    decreases b - a
  {
    if a < b {
      Pow2Monotone(a, b - 1);
    }
  }

  /** Bits read as a binary number, the first bit most significant: the value
      that `data[j/8] <<= 1` followed by an optional `data[j/8] |= 1` builds one
      bit at a time from 0. */
  function BinVal(s: seq<bool>): (v: nat)
    ensures v < Pow2(|s|)
    decreases |s|
  {
    if s == [] then 0 else 2 * BinVal(s[..|s| - 1]) + (if s[|s| - 1] then 1 else 0)
  }

  /** At most eight bits make a value below 256. */
  lemma {:induction false} ByteBound(s: seq<bool>)
    requires |s| <= 8
    ensures BinVal(s) < 256
  {
    Pow2Monotone(|s|, 8);
    assert Pow2(8) == 256;
  }

  function Min(a: nat, b: nat): nat
  {
    if a < b then a else b
  }

  /** The bits that land in `data[k]`: those with index `j` such that `j/8 == k`. */
  function Chunk(bits: seq<bool>, k: nat): (c: seq<bool>)
    ensures |c| <= 8
  {
    bits[Min(8 * k, |bits|)..Min(8 * k + 8, |bits|)]
  }

  /** Appending bit number `|bits|` changes only `data[|bits| / 8]`, and that
      byte gains the bit as its new least significant one. */
  lemma {:induction false} ChunkAppend(bits: seq<bool>, b: bool, k: nat)
    ensures k == |bits| / 8 ==> Chunk(bits + [b], k) == Chunk(bits, k) + [b]
    ensures k != |bits| / 8 ==> Chunk(bits + [b], k) == Chunk(bits, k)
  {
    var n := |bits|;
    if k == n / 8 {
      assert (bits + [b])[8 * k..n + 1] == bits[8 * k..n] + [b];
    } else if k < n / 8 {
      assert (bits + [b])[8 * k..8 * k + 8] == bits[8 * k..8 * k + 8];
    }
  }

  /** Shifting a bit into a byte. */
  lemma {:induction false} BinValAppend(c: seq<bool>, b: bool)
    ensures BinVal(c + [b]) == 2 * BinVal(c) + (if b then 1 else 0)
  {
    assert (c + [b])[..|c|] == c;
  }

  /** `data[j/8] <<= 1; if (bit) data[j/8] |= 1;` for bit number `j`: after the
      shift the low bit is clear, so `|= 1` adds one. */
  function ShiftBit(frame: seq<nat>, j: nat, bit: bool): (f: seq<nat>)
    requires |frame| == FRAME_BYTES && j < FRAME_BITS
    ensures |f| == FRAME_BYTES
  {
    frame[j / 8 := 2 * frame[j / 8] + (if bit then 1 else 0)]
  }

  /** `data[0..4]` after the bits have been shifted in one at a time, from all
      zeros. */
  function Bytes(bits: seq<bool>): (frame: seq<nat>)
    requires |bits| <= FRAME_BITS
    ensures |frame| == FRAME_BYTES
    decreases |bits|
  {
    if bits == [] then [0, 0, 0, 0, 0]
    else ShiftBit(Bytes(bits[..|bits| - 1]), |bits| - 1, bits[|bits| - 1])
  }

  /** Shifting bits in one at a time leaves `data[k]` holding bits `8k ..
      8k+7`, read most significant first. */
  lemma {:induction false} BytesChunks(bits: seq<bool>)
    requires |bits| <= FRAME_BITS
    ensures forall k :: 0 <= k < FRAME_BYTES ==> Bytes(bits)[k] == BinVal(Chunk(bits, k))
    decreases |bits|
  {
    if bits != [] {
      var n := |bits| - 1;
      var prefix, b := bits[..n], bits[n];
      assert bits == prefix + [b];
      BytesChunks(prefix);
      forall k | 0 <= k < FRAME_BYTES
        ensures Bytes(bits)[k] == BinVal(Chunk(bits, k))
      {
        ChunkAppend(prefix, b, k);
        if k == n / 8 {
          BinValAppend(Chunk(prefix, k), b);
        }
      }
    }
  }

  /** Every assembled byte is below 256. */
  lemma {:induction false} BytesBound(bits: seq<bool>)
    requires |bits| <= FRAME_BITS
    ensures forall k :: 0 <= k < FRAME_BYTES ==> Bytes(bits)[k] < 256
  {
    BytesChunks(bits);
    forall k | 0 <= k < FRAME_BYTES
      ensures Bytes(bits)[k] < 256
    {
      ByteBound(Chunk(bits, k));
    }
  }

  /** The low eight bits of the sum of the first four bytes (`& 0xFF` on a
      sum that is never negative is `% 256`). */
  function Checksum(frame: seq<nat>): (sum: nat)
    requires |frame| >= 4
    ensures sum < 256
  {
    (frame[0] + frame[1] + frame[2] + frame[3]) % 256
  }

  /** The two checks after sampling, in the order the source makes them: the
      bit count first, then the checksum. */
  function Verdict(count: nat, frame: seq<nat>): (rc: int)
    requires |frame| == FRAME_BYTES
    ensures rc == OK || rc == INCOMPLETE || rc == CHECKSUM_MISMATCH
  {
    if count < FRAME_BITS then INCOMPLETE
    else if frame[4] != Checksum(frame) then CHECKSUM_MISMATCH
    else OK
  }

  /** Humidity and temperature in tenths (of a percent, of a degree). */
  datatype Reading = Reading(humidity: int, tempC: int)

  /** The conversion of a checked frame. Byte 1 and byte 3 are added as tenths;
      the temperature is negated when byte 2 exceeds 127, and byte 2 is used
      whole, sign bit included. The contract states the tenths against the
      source's formulas `data[0] + data[1]/10` and `data[2] + data[3]/10` in
      exact arithmetic. */
  function Convert(frame: seq<nat>): (r: Reading)
    requires |frame| >= 4
    ensures r.humidity as real == 10.0 * (frame[0] as real + frame[1] as real / 10.0)
    ensures frame[2] <= 127 ==> r.tempC as real == 10.0 * (frame[2] as real + frame[3] as real / 10.0)
    ensures frame[2] > 127 ==> r.tempC as real == -10.0 * (frame[2] as real + frame[3] as real / 10.0)
  {
    var t: int := 10 * frame[2] + frame[3];
    Reading(10 * frame[0] + frame[1], if frame[2] > 127 then -t else t)
  }

  /** The example frames: 45 % and 23 degrees; and a byte 2 of `0x80 | 25`,
      which reads as -153.0 degrees because its top bit is kept. */
  lemma {:induction false} ConvertExamples()
    ensures Checksum([45, 0, 23, 0, 68]) == 68 && Convert([45, 0, 23, 0, 68]) == Reading(450, 230)
    ensures Verdict(FRAME_BITS, [45, 0, 23, 0, 68]) == OK
    ensures Verdict(FRAME_BITS, [45, 0, 23, 0, 69]) == CHECKSUM_MISMATCH
    ensures Convert([40, 0, 0x80 + 25, 0, 193]).tempC == -1530
  {
  }

  /** The low `n` bits of `b`, most significant first: how the sensor sends a
      byte when `n` is 8. */
  function ToBits(b: nat, n: nat): (s: seq<bool>)
    ensures |s| == n
  {
    if n == 0 then [] else ToBits(b / 2, n - 1) + [b % 2 == 1]
  }

  /** Reading the bits back gives the byte. */
  lemma {:induction false} BinValToBits(b: nat, n: nat)
    requires b < Pow2(n)
    ensures BinVal(ToBits(b, n)) == b
  {
    if n > 0 {
      var s := ToBits(b, n);
      assert s[..|s| - 1] == ToBits(b / 2, n - 1);
      BinValToBits(b / 2, n - 1);
    }
  }

  /** A frame as the sensor sends it: its bytes, eight bits each, most
      significant bit first. */
  function Serialize(frame: seq<nat>): (bits: seq<bool>)
    ensures |bits| == 8 * |frame|
  {
    if frame == [] then [] else ToBits(frame[0], 8) + Serialize(frame[1..])
  }

  lemma {:induction false} ChunkOfSerialize(frame: seq<nat>, k: nat)
    requires k < |frame|
    ensures Chunk(Serialize(frame), k) == ToBits(frame[k], 8)
  {
    var bits := Serialize(frame);
    var rest := Serialize(frame[1..]);
    assert bits == ToBits(frame[0], 8) + rest;
    if k == 0 {
      assert bits[0..8] == ToBits(frame[0], 8);
    } else {
      ChunkOfSerialize(frame[1..], k - 1);
      assert bits[8 * k..8 * k + 8] == rest[8 * (k - 1)..8 * (k - 1) + 8];
    }
  }

  /** Shifting the 40 bits of a frame into `data` rebuilds the frame. */
  lemma {:induction false} BytesOfSerialize(frame: seq<nat>)
    requires |frame| == FRAME_BYTES
    requires forall k :: 0 <= k < FRAME_BYTES ==> frame[k] < 256
    ensures Bytes(Serialize(frame)) == frame
  {
    assert Pow2(8) == 256;
    BytesChunks(Serialize(frame));
    forall k | 0 <= k < FRAME_BYTES
      ensures Bytes(Serialize(frame))[k] == frame[k]
    {
      ChunkOfSerialize(frame, k);
      BinValToBits(frame[k], 8);
    }
  }
}
