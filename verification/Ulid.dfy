/**
 * Two ULID encoders: the streaming one, with a 32-bit accumulator, emits the same digits as
 * the one that divides a big integer.
 */
module Ulid {
  import opened Texts
  import opened Values

  const CROCKFORD := "0123456789ABCDEFGHJKMNPQRSTVWXYZ"
  const MAX_TIMESTAMP: nat := 0xffff_ffff_ffff
  const TIME_DIGITS: nat := 10
  const RANDOM_DIGITS: nat := 16

  type Byte = b: nat | b < 256

  type Digit = d: nat | d < 32

  // ---------------------------------------------------------------- digits

  /** The lowest `count` base-32 digits, the most significant first. */
  function Digits(n: nat, count: nat): (digits: seq<Digit>)
    ensures |digits| == count
  {
    if count == 0 then [] else Digits(n / 32, count - 1) + [n % 32]
  }

  function Value(digits: seq<Digit>): nat {
    if digits == [] then 0 else Value(digits[..|digits| - 1]) * 32 + digits[|digits| - 1]
  }

  function Power(base: nat, n: nat): (power: nat)
    ensures base > 0 ==> power > 0
  {
    if n == 0 then 1 else base * Power(base, n - 1)
  }

  function BigEndian(bytes: seq<Byte>): nat {
    if bytes == [] then 0 else BigEndian(bytes[..|bytes| - 1]) * 256 + bytes[|bytes| - 1]
  }

  lemma {:induction false} DigitsOfValue(digits: seq<Digit>)
    ensures Digits(Value(digits), |digits|) == digits
  {
    if digits != [] {
      DigitsOfValue(digits[..|digits| - 1]);
      assert digits == digits[..|digits| - 1] + [digits[|digits| - 1]];
    }
  }

  lemma {:induction false} ValueOfDigits(n: nat, count: nat)
    requires n < Power(32, count)
    ensures Value(Digits(n, count)) == n
  {
    if count > 0 {
      ValueOfDigits(n / 32, count - 1);
      assert Digits(n, count)[..count - 1] == Digits(n / 32, count - 1);
    }
  }

  /** A number below k * 32 ^ (count - 1) has its first digit below k. */
  lemma {:induction false} FirstDigit(n: nat, count: nat, k: nat)
    requires count > 0 && n < k * Power(32, count - 1)
    ensures Digits(n, count)[0] < k
  {
    if count > 1 {
      assert k * Power(32, count - 1) == 32 * (k * Power(32, count - 2));
      FirstDigit(n / 32, count - 1, k);
    }
  }

  // ---------------------------------------------------------------- text

  function CharOf(d: Digit): char {
    CROCKFORD[d]
  }

  function TextOf(digits: seq<Digit>): string {
    seq(|digits|, i requires 0 <= i < |digits| => CharOf(digits[i]))
  }

  lemma AlphabetIsSorted(a: Digit, b: Digit)
    requires a < b
    ensures CharOf(a) < CharOf(b)
  {
  }

  predicate InPattern(c: char) {
    '0' <= c <= '9' || 'A' <= c <= 'H' || c in "JKMN" || 'P' <= c <= 'T' || 'V' <= c <= 'Z'
  }

  /** The documented shape: 26 alphabet characters, the first of them at most 7. */
  predicate IsUlid(text: string) {
    |text| == 26 && '0' <= text[0] <= '7' && forall i :: 0 <= i < |text| ==> InPattern(text[i])
  }

  lemma PatternIsAlphabet(c: char)
    ensures InPattern(c) <==> c in CROCKFORD
  {
  }

  lemma FirstIsOctal(c: char)
    ensures '0' <= c <= '7' <==> c in "01234567"
  {
  }

  /** The shape in terms of the alphabet. */
  lemma ShapeIs(text: string)
    ensures IsUlid(text) <==>
              |text| == 26 && text[0] in "01234567" && forall i :: 0 <= i < |text| ==> text[i] in CROCKFORD
  {
    forall i | 0 <= i < |text| ensures InPattern(text[i]) <==> text[i] in CROCKFORD {
      PatternIsAlphabet(text[i]);
    }
    if text != [] {
      FirstIsOctal(text[0]);
    }
  }

  lemma AlphabetInPattern(d: Digit)
    ensures InPattern(CharOf(d)) && (d < 8 ==> '0' <= CharOf(d) <= '7')
  {
  }

  /** Digit texts of one length are ordered as their numbers. */
  lemma {:induction false} DigitsOrder(a: nat, b: nat, count: nat)
    requires a < b < Power(32, count)
    ensures Less(TextOf(Digits(a, count)), TextOf(Digits(b, count)))
  {
    if count > 0 {
      var s, t := TextOf(Digits(a / 32, count - 1)), TextOf(Digits(b / 32, count - 1));
      assert TextOf(Digits(a, count)) == s + [CharOf(a % 32)];
      assert TextOf(Digits(b, count)) == t + [CharOf(b % 32)];
      if a / 32 < b / 32 {
        DigitsOrder(a / 32, b / 32, count - 1);
        LessExtends(s, t, [CharOf(a % 32)], [CharOf(b % 32)]);
      } else {
        AlphabetIsSorted(a % 32, b % 32);
        LessAfterPrefix(s, [CharOf(a % 32)], [CharOf(b % 32)]);
      }
    }
  }

  // ---------------------------------------------------------------- the encoders

  /** The documented text of a timestamp and ten bytes. */
  function Canonical(timestamp: nat, bytes: seq<Byte>): string {
    TextOf(Digits(timestamp, TIME_DIGITS)) + TextOf(Digits(BigEndian(bytes), RANDOM_DIGITS))
  }

  method EncodeLow(n: nat, count: nat) returns (text: string)
    ensures text == TextOf(Digits(n, count))
  {
    var rest := n;
    text := "";
    for index := 0 to count
      invariant |text| == index && TextOf(Digits(rest, count - index)) + text == TextOf(Digits(n, count))
    {
      ghost var before := text;
      text := [CharOf(rest % 32)] + text;
      assert TextOf(Digits(rest / 32, count - index - 1)) + [CharOf(rest % 32)] + before ==
             TextOf(Digits(rest / 32, count - index - 1)) + text;
      rest := rest / 32;
    }
    assert TextOf(Digits(rest, 0)) + text == text;
  }

  /** The big-integer form: exactly ten bytes of entropy. */
  method MemoryUlid(timestamp: int, entropy: seq<Byte>) returns (result: Result<string, string>)
    ensures result.Ok? <==> 0 <= timestamp <= MAX_TIMESTAMP && |entropy| == 10
    ensures result.Ok? ==> result.value == Canonical(timestamp, entropy)
  {
    if timestamp < 0 || timestamp > MAX_TIMESTAMP {
      return Err("ULID timestamp must be an integer in the unsigned 48-bit range");
    }
    if |entropy| != 10 {
      return Err("ULID entropy must contain exactly 10 bytes");
    }
    var encodedTime := EncodeLow(timestamp, TIME_DIGITS);
    var randomness: nat := 0;
    for i := 0 to |entropy|
      invariant randomness == BigEndian(entropy[..i])
    {
      assert entropy[..i + 1][..i] == entropy[..i];
      randomness := randomness * 256 + entropy[i];
    }
    assert entropy[..|entropy|] == entropy;
    var encodedRandom := EncodeLow(randomness, RANDOM_DIGITS);
    result := Ok(encodedTime + encodedRandom);
  }

  /** A value as a signed 32-bit integer. */
  function ToInt32(x: int): (r: int)
    ensures -0x8000_0000 <= r < 0x8000_0000 && (x - r) % 0x1_0000_0000 == 0
  {
    (x + 0x8000_0000) % 0x1_0000_0000 - 0x8000_0000
  }

  /** Shifting left by eight in 32 bits and setting the low byte. */
  function ShiftIn(accumulator: int, byte: Byte): int {
    ToInt32(accumulator * 256) + byte
  }

  /** Shifts and masks, one bit at a time. */
  function Shifted(n: nat, bits: nat): nat {
    if bits == 0 then n else 2 * Shifted(n, bits - 1)
  }

  function ShiftedRight(n: nat, bits: nat): nat {
    if bits == 0 then n else ShiftedRight(n / 2, bits - 1)
  }

  function LowBits(n: int, bits: nat): nat
    decreases bits
  {
    if bits == 0 then 0 else 2 * LowBits(n / 2, bits - 1) + n % 2
  }

  /** The unsigned shift right, masked to its low five bits. */
  function FiveBits(accumulator: int, bits: nat): Digit {
    ShiftedRight(accumulator % 0x1_0000_0000, bits) % 32
  }

  /** Emitted digits and pending bits together are the bytes read so far. */
  ghost predicate Streamed(read: nat, bytesRead: nat, digits: seq<Digit>, accumulator: int, bits: nat) {
    && 5 * |digits| + bits == 8 * bytesRead
    && 0 <= accumulator < Shifted(1, bits)
    && read == Shifted(Value(digits), bits) + accumulator
  }

  lemma {:induction false} SplitBits(n: nat, bits: nat)
    ensures n == Shifted(ShiftedRight(n, bits), bits) + LowBits(n, bits)
    ensures LowBits(n, bits) < Shifted(1, bits)
  {
    if bits > 0 {
      SplitBits(n / 2, bits - 1);
    }
  }

  lemma {:induction false} ShiftedSum(a: nat, b: nat, bits: nat)
    ensures Shifted(a + b, bits) == Shifted(a, bits) + Shifted(b, bits)
  {
    if bits > 0 {
      ShiftedSum(a, b, bits - 1);
    }
  }

  lemma {:induction false} ShiftedByFive(n: nat, bits: nat)
    ensures Shifted(n, bits + 5) == Shifted(32 * n, bits)
  {
    if bits > 0 {
      ShiftedByFive(n, bits - 1);
    } else {
      assert Shifted(n, 1) == 2 * n;
      assert Shifted(n, 3) == 8 * n;
    }
  }

  lemma ShiftedByEight(n: nat, bits: nat)
    ensures Shifted(n, bits + 8) == 256 * Shifted(n, bits)
  {
    assert Shifted(n, bits + 2) == 2 * Shifted(n, bits + 1);
    assert Shifted(n, bits + 4) == 2 * Shifted(n, bits + 3);
    assert Shifted(n, bits + 6) == 2 * Shifted(n, bits + 5);
    assert Shifted(n, bits + 8) == 2 * Shifted(n, bits + 7);
  }

  lemma {:induction false} ShiftedRightBound(n: nat, bits: nat, k: nat)
    requires n < Shifted(k, bits)
    ensures ShiftedRight(n, bits) < k
  {
    if bits > 0 {
      ShiftedRightBound(n / 2, bits - 1, k);
    }
  }

  /** At most twelve bits are below 4096. */
  lemma TwelveBits(bits: nat)
    requires bits <= 12
    ensures Shifted(1, bits) <= 4096
    decreases 12 - bits
  {
    if bits < 12 {
      TwelveBits(bits + 1);
    } else {
      ShiftedByEight(1, 4);
      assert Shifted(1, 2) == 4;
    }
  }

  lemma ShiftInStreams(read: nat, bytesRead: nat, digits: seq<Digit>, accumulator: int, bits: nat, byte: Byte)
    requires Streamed(read, bytesRead, digits, accumulator, bits) && bits < 5
    ensures ShiftIn(accumulator, byte) < 4096
    ensures Streamed(read * 256 + byte, bytesRead + 1, digits, ShiftIn(accumulator, byte), bits + 8)
  {
    ShiftedByEight(Value(digits), bits);
    ShiftedByEight(1, bits);
    TwelveBits(bits + 8);
    assert ShiftIn(accumulator, byte) == accumulator * 256 + byte;
  }

  lemma EmitStreams(read: nat, bytesRead: nat, digits: seq<Digit>, accumulator: int, bits: nat)
    requires Streamed(read, bytesRead, digits, accumulator, bits) && 5 <= bits <= 12
    ensures Streamed(read, bytesRead, digits + [FiveBits(accumulator, bits - 5)], LowBits(accumulator, bits - 5),
                     bits - 5)
  {
    var left := bits - 5;
    TwelveBits(bits);
    ShiftedByFive(1, left);
    ShiftedRightBound(accumulator, left, 32);
    FiveBitsOfSmall(accumulator, left);
    EmittedSum(Value(digits), accumulator, left);
    ValueMore(digits, ShiftedRight(accumulator, left));
    SplitBits(accumulator, left);
  }

  lemma EmittedSum(value: nat, accumulator: nat, left: nat)
    ensures Shifted(value, left + 5) + accumulator
              == Shifted(value * 32 + ShiftedRight(accumulator, left), left) + LowBits(accumulator, left)
  {
    ShiftedByFive(value, left);
    SplitBits(accumulator, left);
    ShiftedSum(value * 32, ShiftedRight(accumulator, left), left);
  }

  lemma FiveBitsOfSmall(accumulator: nat, bits: nat)
    requires accumulator < 4096 && ShiftedRight(accumulator, bits) < 32
    ensures FiveBits(accumulator, bits) == ShiftedRight(accumulator, bits)
  {
    assert accumulator % 0x1_0000_0000 == accumulator;
  }

  lemma ValueMore(digits: seq<Digit>, d: Digit)
    ensures Value(digits + [d]) == Value(digits) * 32 + d
  {
    assert (digits + [d])[..|digits|] == digits;
  }

  /** The state of the streaming encoder between two steps. */
  datatype Stream = Stream(digits: seq<Digit>, accumulator: int, bits: nat)

  function Emitted(s: Stream): Stream
    requires s.bits >= 5
  {
    Stream(s.digits + [FiveBits(s.accumulator, s.bits - 5)], LowBits(s.accumulator, s.bits - 5), s.bits - 5)
  }

  /** The inner loop: emits digits while five bits are pending and digits are wanted. */
  function Drain(s: Stream): Stream
    decreases s.bits
  {
    if s.bits >= 5 && |s.digits| < RANDOM_DIGITS then Drain(Emitted(s)) else s
  }

  function Read(s: Stream, byte: Byte): Stream {
    Stream(s.digits, ShiftIn(s.accumulator, byte), s.bits + 8)
  }

  /** The state after reading bytes and emitting what they complete. */
  function StreamState(bytes: seq<Byte>): Stream {
    if bytes == [] then Stream([], 0, 0)
    else Drain(Read(StreamState(bytes[..|bytes| - 1]), bytes[|bytes| - 1]))
  }

  ghost predicate InStream(s: Stream, bytes: seq<Byte>) {
    Streamed(BigEndian(bytes), |bytes|, s.digits, s.accumulator, s.bits)
  }

  lemma {:induction false} DrainStreams(s: Stream, bytes: seq<Byte>)
    requires InStream(s, bytes) && s.bits <= 12 && |bytes| <= 10
    ensures InStream(Drain(s), bytes) && Drain(s).bits < 5
    decreases s.bits
  {
    if s.bits >= 5 && |s.digits| < RANDOM_DIGITS {
      EmitStreams(BigEndian(bytes), |bytes|, s.digits, s.accumulator, s.bits);
      DrainStreams(Emitted(s), bytes);
    }
  }

  /** Through ten bytes nothing is lost: digits out and bits pending are the bytes read. */
  lemma {:induction false} StateStreams(bytes: seq<Byte>)
    requires |bytes| <= 10
    ensures InStream(StreamState(bytes), bytes) && StreamState(bytes).bits < 5
  {
    if bytes != [] {
      var init, last := bytes[..|bytes| - 1], bytes[|bytes| - 1];
      var s := StreamState(init);
      StateStreams(init);
      ShiftInStreams(BigEndian(init), |init|, s.digits, s.accumulator, s.bits, last);
      DrainStreams(Read(s, last), bytes);
    }
  }

  /** While the first ten bytes are read, the accumulator never needs more than twelve bits. */
  lemma AccumulatorIsSmall(entropy: seq<Byte>)
    requires |entropy| >= 10
    ensures forall i :: 0 <= i < 10 ==> 0 <= ShiftIn(StreamState(entropy[..i]).accumulator, entropy[i]) < 4096
  {
    forall i | 0 <= i < 10 ensures 0 <= ShiftIn(StreamState(entropy[..i]).accumulator, entropy[i]) < 4096 {
      var s := StreamState(entropy[..i]);
      StateStreams(entropy[..i]);
      ShiftInStreams(BigEndian(entropy[..i]), i, s.digits, s.accumulator, s.bits, entropy[i]);
    }
  }

  /** From the tenth byte on all digits are out; further bytes may wrap the accumulator but emit nothing. */
  lemma {:induction false} StateDigits(bytes: seq<Byte>)
    requires |bytes| >= 10
    ensures StreamState(bytes).digits == Digits(BigEndian(bytes[..10]), RANDOM_DIGITS)
    decreases |bytes|
  {
    if |bytes| == 10 {
      StateStreams(bytes);
      var s := StreamState(bytes);
      AllEmitted(BigEndian(bytes), s.digits, s.accumulator, s.bits);
      assert bytes[..10] == bytes;
    } else {
      var init := bytes[..|bytes| - 1];
      StateDigits(init);
      assert init[..10] == bytes[..10];
    }
  }

  /** Reads one byte and emits the digits it completes. */
  method StreamByte(s: Stream, byte: Byte) returns (next: Stream)
    ensures next == Drain(Read(s, byte))
  {
    next := Read(s, byte);
    while next.bits >= 5 && |next.digits| < RANDOM_DIGITS
      invariant Drain(next) == Drain(Read(s, byte))
      decreases next.bits
    {
      next := Emitted(next);
    }
  }

  /** The streaming form: sixteen random bytes, of which ten are encoded. */
  method StreamDigits(entropy: seq<Byte>) returns (digits: seq<Digit>)
    requires |entropy| == 16
    ensures digits == StreamState(entropy).digits
    ensures digits == Digits(BigEndian(entropy[..10]), RANDOM_DIGITS)
  {
    var s := Stream([], 0, 0);
    for i := 0 to |entropy|
      invariant s == StreamState(entropy[..i])
    {
      assert entropy[..i + 1][..i] == entropy[..i];
      s := StreamByte(s, entropy[i]);
    }
    assert entropy[..|entropy|] == entropy;
    StateDigits(entropy);
    digits := s.digits;
  }

  lemma AllEmitted(read: nat, digits: seq<Digit>, accumulator: int, bits: nat)
    requires Streamed(read, 10, digits, accumulator, bits) && bits < 5
    ensures digits == Digits(read, RANDOM_DIGITS)
  {
    assert bits == 0 && |digits| == 16;
    DigitsOfValue(digits);
  }

  method IssueUlid(now: int, entropy: seq<Byte>) returns (result: Result<string, string>)
    requires |entropy| == 16
    ensures result.Ok? <==> 0 <= now <= MAX_TIMESTAMP
    ensures result.Ok? ==> result.value == Canonical(now, entropy[..10])
  {
    if now < 0 || now > MAX_TIMESTAMP {
      return Err("ULID timestamp is outside the 48-bit range.");
    }
    var encodedTime := EncodeLow(now, TIME_DIGITS);
    var digits := StreamDigits(entropy);
    result := Ok(encodedTime + TextOf(digits));
  }

  // ---------------------------------------------------------------- what the text means

  lemma TimestampFits(timestamp: nat)
    requires timestamp <= MAX_TIMESTAMP
    ensures timestamp < Power(32, TIME_DIGITS) && timestamp < 8 * Power(32, TIME_DIGITS - 1)
  {
    assert Power(32, 1) == 32;
    assert Power(32, 3) == 32768;
    assert Power(32, 5) == 33554432;
    assert Power(32, 7) == 34359738368;
  }

  /** Every encoded text has the documented shape. */
  lemma EncodesUlid(timestamp: nat, bytes: seq<Byte>)
    requires timestamp <= MAX_TIMESTAMP
    ensures IsUlid(Canonical(timestamp, bytes))
  {
    TimestampFits(timestamp);
    FirstDigit(timestamp, TIME_DIGITS, 8);
    var text, time := Canonical(timestamp, bytes), Digits(timestamp, TIME_DIGITS);
    AlphabetInPattern(time[0]);
    forall i | 0 <= i < |text| ensures InPattern(text[i]) {
      AlphabetInPattern((time + Digits(BigEndian(bytes), RANDOM_DIGITS))[i]);
    }
  }

  /** The ten time digits decode to the timestamp. */
  lemma TimeDecodes(timestamp: nat)
    requires timestamp <= MAX_TIMESTAMP
    ensures Value(Digits(timestamp, TIME_DIGITS)) == timestamp
  {
    TimestampFits(timestamp);
    ValueOfDigits(timestamp, TIME_DIGITS);
  }

  /** String order follows the timestamps, whatever the entropy. */
  lemma OrderFollowsTime(a: nat, b: nat, abytes: seq<Byte>, bbytes: seq<Byte>)
    requires a < b <= MAX_TIMESTAMP
    ensures Less(Canonical(a, abytes), Canonical(b, bbytes))
  {
    TimestampFits(b);
    DigitsOrder(a, b, TIME_DIGITS);
    LessExtends(TextOf(Digits(a, TIME_DIGITS)), TextOf(Digits(b, TIME_DIGITS)),
                TextOf(Digits(BigEndian(abytes), RANDOM_DIGITS)), TextOf(Digits(BigEndian(bbytes), RANDOM_DIGITS)));
  }

  lemma {:induction false} BigEndianBound(bytes: seq<Byte>)
    ensures BigEndian(bytes) < Power(256, |bytes|)
  {
    if bytes != [] {
      BigEndianBound(bytes[..|bytes| - 1]);
    }
  }

  lemma {:induction false} BigEndianInjective(a: seq<Byte>, b: seq<Byte>)
    requires |a| == |b| && BigEndian(a) == BigEndian(b)
    ensures a == b
  {
    if a != [] {
      BigEndianInjective(a[..|a| - 1], b[..|b| - 1]);
      assert a == a[..|a| - 1] + [a[|a| - 1]];
      assert b == b[..|b| - 1] + [b[|b| - 1]];
    }
  }

  lemma {:induction false} TextInjective(a: seq<Digit>, b: seq<Digit>)
    requires TextOf(a) == TextOf(b)
    ensures a == b
  {
    assert |a| == |TextOf(a)| && |b| == |TextOf(b)|;
    forall i | 0 <= i < |a| ensures a[i] == b[i] {
      assert TextOf(a)[i] == TextOf(b)[i];
      if a[i] < b[i] {
        AlphabetIsSorted(a[i], b[i]);
      } else if b[i] < a[i] {
        AlphabetIsSorted(b[i], a[i]);
      }
    }
  }

  /** Equal texts come from equal timestamps and equal bytes: nothing is lost. */
  lemma NothingIsLost(a: nat, b: nat, abytes: seq<Byte>, bbytes: seq<Byte>)
    requires a <= MAX_TIMESTAMP && b <= MAX_TIMESTAMP && |abytes| == |bbytes| == 10
    requires Canonical(a, abytes) == Canonical(b, bbytes)
    ensures a == b && abytes == bbytes
  {
    var text := Canonical(a, abytes);
    assert text[..10] == TextOf(Digits(a, TIME_DIGITS)) && text[..10] == TextOf(Digits(b, TIME_DIGITS));
    assert text[10..] == TextOf(Digits(BigEndian(abytes), RANDOM_DIGITS));
    assert text[10..] == TextOf(Digits(BigEndian(bbytes), RANDOM_DIGITS));
    TextInjective(Digits(a, TIME_DIGITS), Digits(b, TIME_DIGITS));
    TextInjective(Digits(BigEndian(abytes), RANDOM_DIGITS), Digits(BigEndian(bbytes), RANDOM_DIGITS));
    TimeDecodes(a);
    TimeDecodes(b);
    EntropyFits(abytes);
    EntropyFits(bbytes);
    ValueOfDigits(BigEndian(abytes), RANDOM_DIGITS);
    ValueOfDigits(BigEndian(bbytes), RANDOM_DIGITS);
    BigEndianInjective(abytes, bbytes);
  }

  lemma EntropyFits(bytes: seq<Byte>)
    requires |bytes| == 10
    ensures BigEndian(bytes) < Power(32, RANDOM_DIGITS)
  {
    BigEndianBound(bytes);
    TenBytes();
  }

  /** Ten bytes are sixteen digits. */
  lemma TenBytes()
    ensures Power(256, 10) == Power(32, 16)
  {
    assert Power(256, 2) == 65536;
    assert Power(256, 4) == 4294967296;
    assert Power(256, 6) == 281474976710656;
    assert Power(256, 8) == 18446744073709551616;
    assert Power(32, 2) == 1024;
    assert Power(32, 4) == 1048576;
    assert Power(32, 6) == 1073741824;
    assert Power(32, 8) == 1099511627776;
    assert Power(32, 10) == 1125899906842624;
    assert Power(32, 12) == 1152921504606846976;
    assert Power(32, 14) == 1180591620717411303424;
  }
}
