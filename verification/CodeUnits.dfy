/**
 * Texts as UTF-16 code units, because both their UTF-8 size and the escapes of their JSON form
 * depend on surrogate pairs; and cutting them to a size.
 *
 * `Clip` cuts a text to a number of bytes as decoding does, with a replacement for a code point
 * that is cut in two. `Fitted` also shortens it until its JSON form fits and ends it in dots;
 * `CutFrom` says what a fitted text is, and `IsTight` that no more than the dots displaced could
 * have been kept.
 */
module CodeUnits {

  /** A UTF-16 code unit. */
  type Unit = u: nat | u < 0x10000

  type Units = seq<Unit>

  predicate IsHigh(u: Unit) { 0xD800 <= u < 0xDC00 }

  predicate IsLow(u: Unit) { 0xDC00 <= u < 0xE000 }

  /** How many units the first code point takes; a lone surrogate stands alone. */
  function FirstUnits(s: Units): (n: nat)
    requires s != []
    ensures 1 <= n <= 2 && n <= |s|
  {
    if |s| > 1 && IsHigh(s[0]) && IsLow(s[1]) then 2 else 1
  }

  /** Its size in UTF-8, where a lone surrogate becomes the replacement character. */
  function FirstBytes(s: Units): nat
    requires s != []
  {
    if FirstUnits(s) == 2 then 4 else if s[0] < 0x80 then 1 else if s[0] < 0x800 then 2 else 3
  }

  function Utf8Length(s: Units): nat {
    if s == [] then 0 else FirstBytes(s) + Utf8Length(s[FirstUnits(s)..])
  }

  /** Its size within a JSON string: escapes take two bytes, or six. */
  function FirstJsonBytes(s: Units): nat
    requires s != []
  {
    if FirstUnits(s) == 2 then 4
    else if IsHigh(s[0]) || IsLow(s[0]) then 6
    else if s[0] in {0x22, 0x5C, 0x08, 0x09, 0x0A, 0x0C, 0x0D} then 2
    else if s[0] < 0x20 then 6
    else FirstBytes(s)
  }

  function JsonChars(s: Units): nat {
    if s == [] then 0 else FirstJsonBytes(s) + JsonChars(s[FirstUnits(s)..])
  }

  function StringJson(s: Units): nat {
    2 + JsonChars(s)
  }

  const REPLACEMENT: Unit := 0xFFFD
  const SUFFIX: Units := [0x2E, 0x2E, 0x2E]

  /** The first code point decoded: a lone surrogate is replaced. */
  function DecodedFirst(s: Units): Units
    requires s != []
  {
    if FirstUnits(s) == 1 && (IsHigh(s[0]) || IsLow(s[0])) then [REPLACEMENT] else s[..FirstUnits(s)]
  }

  /** Text in UTF-8 cut after `maximum` bytes and decoded: a cut code point is replaced. */
  function DecodedPrefix(s: Units, maximum: nat): Units {
    if s == [] || maximum == 0 then []
    else if FirstBytes(s) > maximum then [REPLACEMENT]
    else DecodedFirst(s) + DecodedPrefix(s[FirstUnits(s)..], maximum - FirstBytes(s))
  }

  /** The text begins like the other, but for code points that could not be decoded. */
  ghost predicate Begins(text: Units, value: Units) {
    |text| <= |value| && forall i :: 0 <= i < |text| ==> SameUnit(text[i], value[i])
  }

  predicate SameUnit(u: Unit, v: Unit) {
    u == v || (u == REPLACEMENT && v >= 0x80)
  }

  lemma {:induction false} DecodedBegins(s: Units, maximum: nat)
    ensures Begins(DecodedPrefix(s, maximum), s)
  {
    if s != [] && maximum != 0 && FirstBytes(s) <= maximum {
      var n := FirstUnits(s);
      DecodedBegins(s[n..], maximum - FirstBytes(s));
      FirstBegins(s);
      BeginsConcat(DecodedFirst(s), DecodedPrefix(s[n..], maximum - FirstBytes(s)), s, n);
    }
  }

  lemma FirstBegins(s: Units)
    requires s != []
    ensures |DecodedFirst(s)| == FirstUnits(s) && Begins(DecodedFirst(s), s)
  {
  }

  lemma BeginsConcat(first: Units, rest: Units, s: Units, n: nat)
    requires |first| == n <= |s| && Begins(first, s) && Begins(rest, s[n..])
    ensures Begins(first + rest, s)
  {
    forall i | 0 <= i < |first + rest| ensures SameUnit((first + rest)[i], s[i]) {
      if i >= n {
        assert SameUnit(rest[i - n], s[n..][i - n]);
      }
    }
  }

  // ---------------------------------------------------------------- cutting

  /** Drops units from the end until the text is within its limit. */
  function Longest(text: Units, maximum: nat): Units {
    if Utf8Length(text) <= maximum then text else Longest(text[..|text| - 1], maximum)
  }

  /** A text cut to a number of bytes, decoded, and shortened if a replacement made it longer. */
  function Clip(s: Units, maximum: nat): Units {
    Longest(DecodedPrefix(s, maximum), maximum)
  }

  lemma {:induction false} LongestIsPrefix(text: Units, maximum: nat)
    ensures Longest(text, maximum) <= text && Utf8Length(Longest(text, maximum)) <= maximum
  {
    if Utf8Length(text) > maximum {
      LongestIsPrefix(text[..|text| - 1], maximum);
    }
  }

  /** The UTF-8 text is measured one code point at a time. */
  lemma FirstMeasured(s: Units, rest: Units)
    requires s != []
    ensures Utf8Length(DecodedFirst(s) + rest) == FirstBytes(s) + Utf8Length(rest)
  {
    var text := DecodedFirst(s) + rest;
    assert |DecodedFirst(s)| == FirstUnits(s);
    assert FirstUnits(text) == FirstUnits(s) && text[FirstUnits(s)..] == rest;
  }

  lemma {:induction false} LongestAfterFirst(s: Units, rest: Units, maximum: nat)
    requires s != [] && FirstBytes(s) <= maximum
    ensures Longest(DecodedFirst(s) + rest, maximum) == DecodedFirst(s) + Longest(rest, maximum - FirstBytes(s))
    decreases |rest|
  {
    FirstMeasured(s, rest);
    if Utf8Length(rest) > maximum - FirstBytes(s) {
      assert (DecodedFirst(s) + rest)[..|DecodedFirst(s) + rest| - 1] == DecodedFirst(s) + rest[..|rest| - 1];
      LongestAfterFirst(s, rest[..|rest| - 1], maximum);
    }
  }

  /** Clipping keeps whole code points as long as they fit. */
  lemma ClipStep(s: Units, maximum: nat)
    requires s != [] && FirstBytes(s) <= maximum
    ensures Clip(s, maximum) == DecodedFirst(s) + Clip(s[FirstUnits(s)..], maximum - FirstBytes(s))
  {
    LongestAfterFirst(s, DecodedPrefix(s[FirstUnits(s)..], maximum - FirstBytes(s)), maximum);
  }

  lemma PrefixMeasured(s: Units, k: nat)
    requires s != [] && FirstUnits(s) < k <= |s|
    ensures Utf8Length(s[..k]) == FirstBytes(s) + Utf8Length(s[FirstUnits(s)..][..k - FirstUnits(s)])
  {
    var n := FirstUnits(s);
    assert FirstUnits(s[..k]) == n && s[..k][n..] == s[n..][..k - n];
  }

  /** What is left begins like the text, fits, and one unit more of the text would not fit. */
  lemma ClipIsLongest(s: Units, maximum: nat)
    ensures Begins(Clip(s, maximum), s) && Utf8Length(Clip(s, maximum)) <= maximum
    ensures |Clip(s, maximum)| < |s| ==> Utf8Length(s[..|Clip(s, maximum)| + 1]) > maximum
    ensures |Clip(s, maximum)| == |s| ==> Utf8Length(s) <= maximum
  {
    LongestIsPrefix(DecodedPrefix(s, maximum), maximum);
    DecodedBegins(s, maximum);
    ClipStopsLate(s, maximum);
  }

  lemma {:induction false} ClipStopsLate(s: Units, maximum: nat)
    requires |Clip(s, maximum)| <= |s|
    ensures |Clip(s, maximum)| < |s| ==> Utf8Length(s[..|Clip(s, maximum)| + 1]) > maximum
    ensures |Clip(s, maximum)| == |s| ==> Utf8Length(s) <= maximum
  {
    if s != [] {
      if FirstBytes(s) <= maximum {
        ClipStep(s, maximum);
        ClipStopsLate(s[FirstUnits(s)..], maximum - FirstBytes(s));
        LongestAfterStep(s, maximum);
      } else {
        FirstDoesNotFit(s, maximum);
      }
    }
  }

  lemma LongestAfterStep(s: Units, maximum: nat)
    requires s != [] && FirstBytes(s) <= maximum
    requires var rest, left := s[FirstUnits(s)..], maximum - FirstBytes(s);
             && |Clip(rest, left)| <= |rest|
             && (|Clip(rest, left)| < |rest| ==> Utf8Length(rest[..|Clip(rest, left)| + 1]) > left)
             && (|Clip(rest, left)| == |rest| ==> Utf8Length(rest) <= left)
    ensures |Clip(s, maximum)| < |s| ==> Utf8Length(s[..|Clip(s, maximum)| + 1]) > maximum
    ensures |Clip(s, maximum)| == |s| ==> Utf8Length(s) <= maximum
  {
    ClipStep(s, maximum);
    FirstBegins(s);
    if |Clip(s, maximum)| < |s| {
      PrefixMeasured(s, |Clip(s, maximum)| + 1);
    }
  }

  /** Of a code point that does not fit only its replacement may be left. */
  lemma ClipOfUnfit(s: Units, maximum: nat)
    requires s != [] && FirstBytes(s) > maximum
    ensures Clip(s, maximum) == if maximum == 3 then [REPLACEMENT] else []
  {
    var replaced: Units := [REPLACEMENT];
    assert replaced[1..] == [] && replaced[..0] == [];
    assert Utf8Length([]) == 0 && Utf8Length(replaced) == 3;
    assert Longest([], maximum) == [];
    assert maximum > 0 ==> DecodedPrefix(s, maximum) == replaced;
    assert maximum < 3 ==> Longest(replaced, maximum) == Longest(replaced[..0], maximum);
  }

  lemma FirstDoesNotFit(s: Units, maximum: nat)
    requires s != [] && FirstBytes(s) > maximum
    ensures |Clip(s, maximum)| < |s| && Utf8Length(s[..|Clip(s, maximum)| + 1]) > maximum
  {
    ClipOfUnfit(s, maximum);
    assert s[..1][1..] == [];
    assert Utf8Length(s[..1]) == FirstBytes(s[..1]) == if FirstUnits(s) == 2 then 3 else FirstBytes(s);
    if maximum == 3 {
      assert s[..2][2..] == [];
    }
  }

  method ClipUtf8(value: Units, maximum: nat) returns (clipped: Units)
    ensures clipped == Clip(value, maximum)
  {
    clipped := DecodedPrefix(value, maximum);
    while Utf8Length(clipped) > maximum
      invariant Longest(clipped, maximum) == Clip(value, maximum)
      decreases |clipped|
    {
      clipped := clipped[..|clipped| - 1];
    }
  }

  /** The beginning of a text, and after it nothing but dots. */
  ghost predicate CutFrom(text: Units, value: Units) {
    exists n :: CutAt(text, value, n)
  }

  ghost predicate CutAt(text: Units, value: Units, n: int) {
    && 0 <= n <= |text| && n <= |value|
    && (forall i :: 0 <= i < n ==> SameUnit(text[i], value[i]))
    && forall i :: n <= i < |text| ==> text[i] == 0x2E
  }

  lemma CutAgain(shorter: Units, text: Units, value: Units)
    requires CutFrom(text, value) && Begins(shorter, text)
    ensures CutFrom(shorter, value) && CutFrom(shorter + SUFFIX, value)
  {
    var n :| CutAt(text, value, n);
    var m := if n <= |shorter| then n else |shorter|;
    assert CutAt(shorter, value, m);
    assert CutAt(shorter + SUFFIX, value, m);
  }

  lemma {:induction false} SuffixAdds(s: Units)
    ensures Utf8Length(s + SUFFIX) == Utf8Length(s) + 3
  {
    if s == [] {
      assert s + SUFFIX == SUFFIX;
      assert SUFFIX[1..][1..] == SUFFIX[2..];
      assert Utf8Length(SUFFIX[2..]) == 1;
    } else {
      var n := FirstUnits(s);
      assert (s + SUFFIX)[n..] == s[n..] + SUFFIX;
      SuffixAdds(s[n..]);
    }
  }

  /** Dropping the last unit never lengthens the UTF-8 text. */
  lemma {:induction false} ShorterText(s: Units)
    requires s != []
    ensures Utf8Length(s[..|s| - 1]) <= Utf8Length(s)
  {
    var n := FirstUnits(s);
    if |s| > n {
      assert s[..|s| - 1][n..] == s[n..][..|s| - n - 1];
      ShorterText(s[n..]);
    } else if n == 2 {
      assert s[..1][1..] == [];
    } else {
      assert s[..0] == [];
    }
  }

  lemma {:induction false} ThreeBytesPerUnit(s: Units)
    ensures Utf8Length(s) <= 3 * |s|
  {
    if s != [] {
      ThreeBytesPerUnit(s[FirstUnits(s)..]);
    }
  }

  lemma {:induction false} SixBytesPerUnit(s: Units)
    ensures JsonChars(s) <= 6 * |s|
  {
    if s != [] {
      SixBytesPerUnit(s[FirstUnits(s)..]);
    }
  }

  predicate Plain(s: Units) {
    forall i :: 0 <= i < |s| ==> 0x20 <= s[i] < 0x80 && s[i] != 0x22 && s[i] != 0x5C
  }

  lemma {:induction false} PlainJson(s: Units)
    requires Plain(s)
    ensures JsonChars(s) == |s|
  {
    if s != [] {
      PlainJson(s[1..]);
    }
  }

  lemma PlainConcat(a: Units, b: Units)
    requires Plain(a) && Plain(b)
    ensures Plain(a + b)
  {
  }

  predicate EndsWith(s: Units, suffix: Units) {
    |s| >= |suffix| && s[|s| - |suffix|..] == suffix
  }

  // ---------------------------------------------------------------- fitting a text into what is left

  /** Drops units from the end until the JSON string is within what is available. */
  function Shrink(text: Units, available: nat): Units {
    if text == [] || StringJson(text) <= available then text else Shrink(text[..|text| - 1], available)
  }

  function ShortBy(text: Units, bytes: nat): nat {
    if Utf8Length(text) >= bytes then Utf8Length(text) - bytes else 0
  }

  /** A text within a limit of its own: clipped and marked with dots when it is too long. */
  function Limited(value: Units, limit: nat): Units {
    if Utf8Length(value) > limit + 3 then Clip(value, limit) + SUFFIX else value
  }

  predicate NeedsDots(text: Units, value: Units, available: nat) {
    text != value && !EndsWith(text, SUFFIX) && available >= 5
  }

  /** The text as it is returned: limited, shrunk, and marked with dots if it was cut and there is room. */
  function Fitted(value: Units, limit: nat, available: nat): Units {
    var text := Shrink(Limited(value, limit), available);
    if NeedsDots(text, value, available) then Clip(text, ShortBy(text, 3)) + SUFFIX else text
  }

  lemma {:induction false} ShrinkIsPrefix(text: Units, available: nat)
    ensures Shrink(text, available) <= text && Utf8Length(Shrink(text, available)) <= Utf8Length(text)
    ensures Shrink(text, available) == [] || StringJson(Shrink(text, available)) <= available
    ensures |Shrink(text, available)| < |text| ==> StringJson(text[..|Shrink(text, available)| + 1]) > available
  {
    if text != [] && StringJson(text) > available {
      ShorterText(text);
      ShrinkIsPrefix(text[..|text| - 1], available);
      assert text[..|text|] == text;
      if |Shrink(text, available)| < |text| - 1 {
        assert text[..|text| - 1][..|Shrink(text, available)| + 1] == text[..|Shrink(text, available)| + 1];
      }
    }
  }

  /** Every unit counts for at least one byte. */
  lemma {:induction false} ByteEach(s: Units, k: nat)
    requires k <= |s|
    ensures Utf8Length(s[..k]) + (|s| - k) <= Utf8Length(s)
    decreases |s| - k
  {
    if k < |s| {
      ByteEach(s, k + 1);
      StrictlyShorter(s[..k + 1]);
      assert s[..k + 1][..k] == s[..k];
    } else {
      assert s[..k] == s;
    }
  }

  lemma {:induction false} StrictlyShorter(s: Units)
    requires s != []
    ensures Utf8Length(s[..|s| - 1]) < Utf8Length(s)
  {
    var n := FirstUnits(s);
    if |s| > n {
      assert s[..|s| - 1][n..] == s[n..][..|s| - n - 1];
      StrictlyShorter(s[n..]);
    } else if n == 2 {
      assert s[..1][1..] == [];
    } else {
      assert s[..0] == [];
    }
  }

  lemma FirstInJson(s: Units, rest: Units)
    requires s != []
    ensures JsonChars(DecodedFirst(s) + rest) <= FirstJsonBytes(s) + JsonChars(rest)
  {
    var text := DecodedFirst(s) + rest;
    assert FirstUnits(text) == FirstUnits(s) == |DecodedFirst(s)| && text[FirstUnits(s)..] == rest;
  }

  lemma PrefixInJson(s: Units, k: nat)
    requires s != [] && FirstUnits(s) <= k <= |s|
    ensures JsonChars(s[..k]) == FirstJsonBytes(s) + JsonChars(s[FirstUnits(s)..][..k - FirstUnits(s)])
  {
    var n := FirstUnits(s);
    assert s[..k][n..] == s[n..][..k - n];
  }

  /** Clipping never makes the JSON of a prefix longer. */
  lemma {:induction false} ClippedJson(s: Units, maximum: nat, k: nat)
    requires k <= |Clip(s, maximum)|
    ensures k <= |s| && JsonChars(Clip(s, maximum)[..k]) <= JsonChars(s[..k])
  {
    ClipIsLongest(s, maximum);
    if s != [] && k > 0 {
      if FirstBytes(s) > maximum {
        ReplacedJson(s, maximum, k);
      } else if k < FirstUnits(s) {
        ClipStep(s, maximum);
        assert Clip(s, maximum)[..k] == s[..k];
      } else {
        ClipStep(s, maximum);
        ClippedJson(s[FirstUnits(s)..], maximum - FirstBytes(s), k - FirstUnits(s));
        ClippedJsonStep(s, Clip(s[FirstUnits(s)..], maximum - FirstBytes(s)), k);
      }
    }
  }

  lemma ClippedJsonStep(s: Units, rest: Units, k: nat)
    requires s != [] && FirstUnits(s) <= k <= |s| && k <= FirstUnits(s) + |rest|
    requires JsonChars(rest[..k - FirstUnits(s)]) <= JsonChars(s[FirstUnits(s)..][..k - FirstUnits(s)])
    ensures JsonChars((DecodedFirst(s) + rest)[..k]) <= JsonChars(s[..k])
  {
    assert (DecodedFirst(s) + rest)[..k] == DecodedFirst(s) + rest[..k - FirstUnits(s)];
    FirstInJson(s, rest[..k - FirstUnits(s)]);
    PrefixInJson(s, k);
  }

  lemma ReplacedJson(s: Units, maximum: nat, k: nat)
    requires s != [] && FirstBytes(s) > maximum && 0 < k <= |Clip(s, maximum)|
    ensures k == 1 && JsonChars(Clip(s, maximum)[..k]) <= JsonChars(s[..k])
  {
    ClipOfUnfit(s, maximum);
    assert [REPLACEMENT][1..] == [] && [REPLACEMENT][..1] == [REPLACEMENT];
    assert s[..1][1..] == [];
  }

  lemma {:induction false} JsonCoversUtf8(s: Units)
    ensures Utf8Length(s) <= JsonChars(s)
  {
    if s != [] {
      JsonCoversUtf8(s[FirstUnits(s)..]);
    }
  }

  /** Clipping by some bytes shortens the JSON by at least as many. */
  lemma {:induction false} ClipSaves(s: Units, maximum: nat)
    requires maximum <= Utf8Length(s)
    ensures JsonChars(Clip(s, maximum)) + (Utf8Length(s) - maximum) <= JsonChars(s)
  {
    if s != [] {
      var n := FirstUnits(s);
      if FirstBytes(s) <= maximum {
        ClipStep(s, maximum);
        ClipSaves(s[n..], maximum - FirstBytes(s));
        FirstInJson(s, Clip(s[n..], maximum - FirstBytes(s)));
      } else {
        JsonCoversUtf8(s[n..]);
        ClipOfUnfit(s, maximum);
        assert [REPLACEMENT][1..] == [] && JsonChars([REPLACEMENT]) == 3;
      }
    }
  }

  lemma {:induction false} SuffixInJson(s: Units)
    ensures JsonChars(s + SUFFIX) == JsonChars(s) + 3
  {
    if s == [] {
      assert s + SUFFIX == SUFFIX;
      PlainJson(SUFFIX);
    } else {
      SuffixAfterFirst(s);
      SuffixInJson(s[FirstUnits(s)..]);
    }
  }

  lemma SuffixAfterFirst(s: Units)
    requires s != []
    ensures JsonChars(s + SUFFIX) == FirstJsonBytes(s) + JsonChars(s[FirstUnits(s)..] + SUFFIX)
  {
    var n := FirstUnits(s);
    assert (s + SUFFIX)[n..] == s[n..] + SUFFIX && FirstUnits(s + SUFFIX) == n;
    assert FirstJsonBytes(s + SUFFIX) == FirstJsonBytes(s);
  }

  lemma LimitedIs(value: Units, limit: nat)
    ensures Utf8Length(Limited(value, limit)) <= limit + 3 && CutFrom(Limited(value, limit), value)
  {
    assert CutAt(value, value, |value|);
    ClipIsLongest(value, limit);
    SuffixAdds(Clip(value, limit));
    if Utf8Length(value) > limit + 3 {
      CutAgain(Clip(value, limit), value, value);
    }
  }

  /** The text is within its limit, begins like the original, and is only dots after that. */
  lemma FittedIsCut(value: Units, limit: nat, available: nat)
    ensures Utf8Length(Fitted(value, limit, available)) <= limit + 3
    ensures CutFrom(Fitted(value, limit, available), value)
    ensures Fitted(value, limit, available) != value && available >= 5 ==>
              EndsWith(Fitted(value, limit, available), SUFFIX)
  {
    var text := Shrink(Limited(value, limit), available);
    LimitedIs(value, limit);
    ShrinkIsPrefix(Limited(value, limit), available);
    CutAgain(text, Limited(value, limit), value);
    ClipIsLongest(text, ShortBy(text, 3));
    SuffixAdds(Clip(text, ShortBy(text, 3)));
    CutAgain(Clip(text, ShortBy(text, 3)), text, value);
    SuffixLast(Clip(text, ShortBy(text, 3)));
  }

  lemma SuffixLast(s: Units)
    ensures EndsWith(s + SUFFIX, SUFFIX)
  {
  }

  /** A text stays whole exactly when it fits. */
  lemma WholeWhenItFits(value: Units, limit: nat, available: nat)
    requires Utf8Length(value) <= limit + 3 && StringJson(value) <= available
    ensures Fitted(value, limit, available) == value
  {
  }

  /** The result has room whenever its quotes do. */
  lemma FittedHasRoom(value: Units, limit: nat, available: nat)
    requires available >= 2
    ensures StringJson(Fitted(value, limit, available)) <= available
  {
    var text := Shrink(Limited(value, limit), available);
    ShrinkIsPrefix(Limited(value, limit), available);
    assert JsonChars([]) == 0;
    if NeedsDots(text, value, available) {
      DotsHaveRoom(text, available);
    }
  }

  lemma DotsHaveRoom(text: Units, available: nat)
    requires available >= 5 && StringJson(text) <= available
    ensures StringJson(Clip(text, ShortBy(text, 3)) + SUFFIX) <= available
  {
    SuffixInJson(Clip(text, ShortBy(text, 3)));
    if Utf8Length(text) >= 3 {
      ClipSaves(text, Utf8Length(text) - 3);
    } else {
      assert Clip(text, 0) == [];
    }
  }

  // ---------------------------------------------------------------- how much is kept

  /**
   * After `n` units the text was cut; one unit more than `k` of them, where `k` exceeds `n` by
   * what the dots displaced, would have been too long as UTF-8 or as JSON.
   */
  ghost predicate CutTight(text: Units, value: Units, n: int, k: int, limit: nat, available: nat) {
    && CutAt(text, value, n) && n <= k <= n + 3 && k < |value|
    && (Utf8Length(value[..k + 1]) > limit || StringJson(value[..k + 1]) > available)
  }

  ghost predicate IsTight(text: Units, value: Units, limit: nat, available: nat) {
    exists n, k :: CutTight(text, value, n, k, limit, available)
  }

  /** Where shrinking stops: the units of the text that are left, without the dots of a clipped one. */
  function StoppedAt(value: Units, limit: nat, available: nat): nat {
    var text := Shrink(Limited(value, limit), available);
    if Utf8Length(value) > limit + 3 && |text| > |Clip(value, limit)| then |Clip(value, limit)| else |text|
  }

  ghost predicate StopsTight(text: Units, value: Units, k: nat, limit: nat, available: nat) {
    && k < |value| && k <= |text| && CutAt(text, value, k)
    && (Utf8Length(value[..k + 1]) > limit || StringJson(value[..k + 1]) > available)
  }

  lemma ShrunkIsTight(value: Units, limit: nat, available: nat)
    requires Shrink(Limited(value, limit), available) != value
    ensures StopsTight(Shrink(Limited(value, limit), available), value, StoppedAt(value, limit, available), limit,
                       available)
  {
    ShrinkIsPrefix(Limited(value, limit), available);
    if Utf8Length(value) > limit + 3 {
      ClippedIsTight(value, limit, available, Shrink(Limited(value, limit), available));
    }
  }

  lemma ClippedIsTight(value: Units, limit: nat, available: nat, text: Units)
    requires Utf8Length(value) > limit + 3 && text <= Clip(value, limit) + SUFFIX
    requires |text| < |Clip(value, limit) + SUFFIX| ==>
               StringJson((Clip(value, limit) + SUFFIX)[..|text| + 1]) > available
    ensures StopsTight(text, value,
                       if |text| > |Clip(value, limit)| then |Clip(value, limit)| else |text|, limit, available)
  {
    var clipped := Clip(value, limit);
    ClipIsLongest(value, limit);
    if |text| < |clipped| {
      assert (clipped + SUFFIX)[..|text| + 1] == clipped[..|text| + 1];
      ClippedJson(value, limit, |text| + 1);
    }
  }

  /** Giving up three bytes for the dots gives up at most three units. */
  lemma DotsDisplace(text: Units, shorter: Units)
    requires shorter == Clip(text, ShortBy(text, 3))
    ensures |shorter| <= |text| <= |shorter| + 3
  {
    ClipIsLongest(text, ShortBy(text, 3));
    if |shorter| < |text| {
      ByteEach(text, |shorter| + 1);
    }
  }

  /** A text that was cut keeps as much as fits beside its dots. */
  lemma FittedIsTight(value: Units, limit: nat, available: nat)
    ensures Fitted(value, limit, available) != value ==>
              IsTight(Fitted(value, limit, available), value, limit, available)
  {
    var text := Shrink(Limited(value, limit), available);
    if text != value {
      ShrunkIsTight(value, limit, available);
      var k := StoppedAt(value, limit, available);
      if NeedsDots(text, value, available) {
        DottedIsTight(text, value, k, limit, available);
      } else {
        assert CutTight(text, value, k, k, limit, available);
      }
    }
  }

  lemma DottedIsTight(text: Units, value: Units, k: nat, limit: nat, available: nat)
    requires StopsTight(text, value, k, limit, available)
    ensures IsTight(Clip(text, ShortBy(text, 3)) + SUFFIX, value, limit, available)
  {
    var shorter := Clip(text, ShortBy(text, 3));
    ClipIsLongest(text, ShortBy(text, 3));
    DotsDisplace(text, shorter);
    var n := if |shorter| < k then |shorter| else k;
    assert CutAt(shorter + SUFFIX, value, n);
    assert CutTight(shorter + SUFFIX, value, n, k, limit, available);
  }
}
