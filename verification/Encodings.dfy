/**
 * What the sizes of `CodeUnits` and `Diagnostics` count: the bytes of UTF-8 (section 3 of RFC 3629)
 * and the JSON texts of strings and of whole values, written out.
 */
module Encodings {
  import opened CodeUnits
  import opened Diagnostics

  // ---------------------------------------------------------------- UTF-8

  /** Decodes UTF-16; a surrogate without its partner becomes the replacement character. */
  function CodePoints(s: Units): seq<nat> {
    if s == [] then []
    else if |s| > 1 && s[0] / 0x400 == 0x36 && s[1] / 0x400 == 0x37 then
      var (high, low) := (s[0] as nat, s[1] as nat);
      [0x1_0000 + high % 0x400 * 0x400 + low % 0x400] + CodePoints(s[2..])
    else [if s[0] / 0x800 == 0x1B then 0xFFFD else s[0]] + CodePoints(s[1..])
  }

  /** One code point as one to four bytes. */
  function Encode(c: nat): seq<nat> {
    if c < 0x80 then [c]
    else if c < 0x800 then [0xC0 + c / 0x40, 0x80 + c % 0x40]
    else if c < 0x1_0000 then [0xE0 + c / 0x1000, 0x80 + c / 0x40 % 0x40, 0x80 + c % 0x40]
    else [0xF0 + c / 0x4_0000, 0x80 + c / 0x1000 % 0x40, 0x80 + c / 0x40 % 0x40, 0x80 + c % 0x40]
  }

  function EncodeAll(points: seq<nat>): seq<nat> {
    if points == [] then [] else Encode(points[0]) + EncodeAll(points[1..])
  }

  /** The length of a sequence by its first byte. */
  function Width(lead: nat): (n: nat)
    ensures 1 <= n <= 4
  {
    if lead < 0x80 then 1 else if lead < 0xE0 then 2 else if lead < 0xF0 then 3 else 4
  }

  /** The six low bits of a continuation byte. */
  function Low(b: nat): nat {
    b % 0x40
  }

  function Payload(bytes: seq<nat>): nat
    requires bytes != [] && Width(bytes[0]) <= |bytes|
  {
    match Width(bytes[0])
    case 1 => bytes[0]
    case 2 => bytes[0] % 0x20 * 0x40 + Low(bytes[1])
    case 3 => bytes[0] % 0x10 * 0x1000 + Low(bytes[1]) * 0x40 + Low(bytes[2])
    case _ => bytes[0] % 0x08 * 0x4_0000 + Low(bytes[1]) * 0x1000 + Low(bytes[2]) * 0x40 + Low(bytes[3])
  }

  /** Decodes UTF-8; a sequence that is cut short at the end becomes the replacement character. */
  function Decode(bytes: seq<nat>): seq<nat> {
    if bytes == [] then []
    else if Width(bytes[0]) > |bytes| then [0xFFFD]
    else [Payload(bytes)] + Decode(bytes[Width(bytes[0])..])
  }

  /** A code point in UTF-16. */
  function UnitsOf(c: nat): Units
    requires c < 0x11_0000
  {
    if c < 0x1_0000 then [c] else [0xD800 + (c - 0x1_0000) / 0x400, 0xDC00 + (c - 0x1_0000) % 0x400]
  }

  function AllUnits(points: seq<nat>): Units
    requires forall i :: 0 <= i < |points| ==> points[i] < 0x11_0000
  {
    if points == [] then [] else UnitsOf(points[0]) + AllUnits(points[1..])
  }

  lemma Tail(x: nat)
    requires x < 0x40
    ensures Low(0x80 + x) == x
  {
  }

  lemma TwoBytes(high: nat, low: nat)
    requires high < 0x20 && low < 0x40
    ensures Payload([0xC0 + high, 0x80 + low]) == high * 0x40 + low
  {
    Tail(low);
  }

  lemma ThreeBytes(high: nat, middle: nat, low: nat)
    requires high < 0x10 && middle < 0x40 && low < 0x40
    ensures Payload([0xE0 + high, 0x80 + middle, 0x80 + low]) == high * 0x1000 + middle * 0x40 + low
  {
    Tail(middle);
    Tail(low);
  }

  lemma FourBytes(high: nat, second: nat, third: nat, low: nat)
    requires high < 0x08 && second < 0x40 && third < 0x40 && low < 0x40
    ensures Payload([0xF0 + high, 0x80 + second, 0x80 + third, 0x80 + low])
         == high * 0x4_0000 + second * 0x1000 + third * 0x40 + low
  {
    Tail(second);
    Tail(third);
    Tail(low);
  }

  lemma InThree(c: nat)
    requires c < 0x1_0000
    ensures c / 0x1000 < 0x10 && c == c / 0x1000 * 0x1000 + c / 0x40 % 0x40 * 0x40 + c % 0x40
  {
    var q := c / 0x40;
    assert c == q * 0x40 + c % 0x40 && q == q / 0x40 * 0x40 + q % 0x40 && q / 0x40 == c / 0x1000;
  }

  lemma InFour(c: nat)
    requires c < 0x20_0000
    ensures c / 0x4_0000 < 0x08
    ensures c == c / 0x4_0000 * 0x4_0000 + c / 0x1000 % 0x40 * 0x1000 + c / 0x40 % 0x40 * 0x40 + c % 0x40
  {
    var q := c / 0x1000;
    var low := c % 0x1000;
    assert c == q * 0x1000 + low && q == q / 0x40 * 0x40 + q % 0x40 && q / 0x40 == c / 0x4_0000;
    assert c % 0x40 == low % 0x40 && c / 0x40 % 0x40 == low / 0x40;
  }

  /** Every code point is read back, and what follows its first byte are continuation bytes. */
  lemma EncodedDecodes(c: nat)
    requires c < 0x11_0000
    ensures Encode(c) != [] && Width(Encode(c)[0]) == |Encode(c)| && Payload(Encode(c)) == c
    ensures forall i :: 0 < i < |Encode(c)| ==> 0x80 <= Encode(c)[i] < 0xC0
  {
    if c < 0x80 {
    } else if c < 0x800 {
      TwoBytes(c / 0x40, c % 0x40);
    } else if c < 0x1_0000 {
      InThree(c);
      ThreeBytes(c / 0x1000, c / 0x40 % 0x40, c % 0x40);
    } else {
      InFour(c);
      FourBytes(c / 0x4_0000, c / 0x1000 % 0x40, c / 0x40 % 0x40, c % 0x40);
    }
  }

  lemma FirstPoint(s: Units)
    requires s != []
    ensures var n := FirstUnits(s);
            && CodePoints(s) != [] && CodePoints(s)[1..] == CodePoints(s[n..])
            && CodePoints(s)[0] < 0x11_0000 && UnitsOf(CodePoints(s)[0]) == DecodedFirst(s)
            && |Encode(CodePoints(s)[0])| == FirstBytes(s)
  {
    Surrogates(s[0]);
    if |s| > 1 {
      Surrogates(s[1]);
    }
  }

  /** What `subarray` keeps. */
  function Cut(bytes: seq<nat>, maximum: nat): seq<nat> {
    if maximum < |bytes| then bytes[..maximum] else bytes
  }

  /** Cutting a text to a number of bytes is encoding it, cutting the bytes, and decoding them again. */
  lemma {:induction false} PrefixIsDecoded(s: Units, maximum: nat)
    ensures var points := Decode(Cut(EncodeAll(CodePoints(s)), maximum));
            && (forall i :: 0 <= i < |points| ==> points[i] < 0x11_0000)
            && AllUnits(points) == DecodedPrefix(s, maximum)
  {
    if s != [] {
      FirstPoint(s);
      var c, rest := CodePoints(s)[0], EncodeAll(CodePoints(s[FirstUnits(s)..]));
      EncodedDecodes(c);
      assert EncodeAll(CodePoints(s)) == Encode(c) + rest;
      if FirstBytes(s) > maximum {
        assert Cut(Encode(c) + rest, maximum) == Encode(c)[..maximum];
      } else {
        CutLater(c, rest, maximum);
        PrefixIsDecoded(s[FirstUnits(s)..], maximum - FirstBytes(s));
      }
    }
  }

  lemma CutLater(c: nat, rest: seq<nat>, maximum: nat)
    requires c < 0x11_0000 && |Encode(c)| <= maximum
    ensures Decode(Cut(Encode(c) + rest, maximum)) == [c] + Decode(Cut(rest, maximum - |Encode(c)|))
  {
    EncodedDecodes(c);
    var cut := Cut(Encode(c) + rest, maximum);
    assert cut[..|Encode(c)|] == Encode(c) && cut[|Encode(c)|..] == Cut(rest, maximum - |Encode(c)|);
    assert Payload(cut) == c;
  }

  /** The measured length is the number of bytes. */
  lemma {:induction false} Utf8Measures(s: Units)
    ensures |EncodeAll(CodePoints(s))| == Utf8Length(s)
  {
    if s != [] {
      FirstPoint(s);
      Utf8Measures(s[FirstUnits(s)..]);
    }
  }

  lemma Surrogates(u: Unit)
    ensures IsHigh(u) <==> u / 0x400 == 0x36
    ensures IsLow(u) <==> u / 0x400 == 0x37
    ensures IsHigh(u) || IsLow(u) <==> u / 0x800 == 0x1B
  {
  }

  // ---------------------------------------------------------------- JSON strings

  const QUOTE: Unit := 0x22
  const BACKSLASH: Unit := 0x5C

  function Hex(d: nat): Unit
    requires d < 16
  {
    if d < 10 then 0x30 + d else 0x57 + d
  }

  /** A unit that stands alone: its short escape, its numeric escape, or itself. */
  function Escaped(u: Unit): Units {
    if u == QUOTE || u == BACKSLASH then [BACKSLASH, u]
    else if u == 8 then [BACKSLASH, 0x62]
    else if u == 9 then [BACKSLASH, 0x74]
    else if u == 10 then [BACKSLASH, 0x6E]
    else if u == 12 then [BACKSLASH, 0x66]
    else if u == 13 then [BACKSLASH, 0x72]
    else if u < 32 || u / 0x800 == 0x1B then
      [BACKSLASH, 0x75, Hex(u / 0x1000), Hex(u / 0x100 % 16), Hex(u / 16 % 16), Hex(u % 16)]
    else [u]
  }

  /** Surrogate pairs are copied, every other unit escaped where it has to be. */
  function JsonBody(s: Units): Units {
    if s == [] then []
    else if |s| > 1 && s[0] / 0x400 == 0x36 && s[1] / 0x400 == 0x37 then s[..2] + JsonBody(s[2..])
    else Escaped(s[0]) + JsonBody(s[1..])
  }

  function JsonText(s: Units): Units {
    [QUOTE] + JsonBody(s) + [QUOTE]
  }

  function Unhex(u: Unit): (d: nat)
    ensures d < 16
  {
    if 0x30 <= u < 0x3A then u - 0x30 else if 0x61 <= u < 0x67 then u - 0x57 else 0
  }

  /** What a short escape stands for. */
  function Named(u: Unit): Unit {
    match u
    case 0x62 => 8
    case 0x74 => 9
    case 0x6E => 10
    case 0x66 => 12
    case 0x72 => 13
    case _ => u
  }

  /** Reads what stands between the quotes of a JSON string. */
  function ReadBody(text: Units): Units {
    if text == [] then []
    else if text[0] != BACKSLASH then [text[0]] + ReadBody(text[1..])
    else if |text| >= 6 && text[1] == 0x75 then
      [Unhex(text[2]) * 0x1000 + Unhex(text[3]) * 0x100 + Unhex(text[4]) * 16 + Unhex(text[5])] + ReadBody(text[6..])
    else if |text| >= 2 then [Named(text[1])] + ReadBody(text[2..])
    else []
  }

  lemma HexDigits(u: Unit)
    ensures u / 0x1000 < 16 && u == u / 0x1000 * 0x1000 + u / 0x100 % 16 * 0x100 + u / 16 % 16 * 16 + u % 16
  {
    assert u / 0x100 / 16 == u / 0x1000 && u / 16 / 16 == u / 0x100;
  }

  lemma UnhexHex(d: nat)
    requires d < 16
    ensures Unhex(Hex(d)) == d
  {
  }

  lemma ReadNumeric(u: Unit, rest: Units)
    ensures var escape := [BACKSLASH, 0x75, Hex(u / 0x1000), Hex(u / 0x100 % 16), Hex(u / 16 % 16), Hex(u % 16)];
            ReadBody(escape + rest) == [u] + ReadBody(rest)
  {
    HexDigits(u);
    UnhexHex(u / 0x1000);
    UnhexHex(u / 0x100 % 16);
    UnhexHex(u / 16 % 16);
    UnhexHex(u % 16);
    var escape := [BACKSLASH, 0x75, Hex(u / 0x1000), Hex(u / 0x100 % 16), Hex(u / 16 % 16), Hex(u % 16)];
    assert (escape + rest)[6..] == rest;
  }

  lemma ReadEscaped(u: Unit, rest: Units)
    ensures ReadBody(Escaped(u) + rest) == [u] + ReadBody(rest)
  {
    if |Escaped(u)| == 6 {
      ReadNumeric(u, rest);
    } else {
      assert (Escaped(u) + rest)[|Escaped(u)|..] == rest;
    }
  }

  /** A string reads back from its JSON text unit by unit, lone surrogates included. */
  lemma {:induction false} JsonReadsBack(s: Units)
    ensures ReadBody(JsonBody(s)) == s
  {
    if s != [] {
      Surrogates(s[0]);
      if FirstUnits(s) == 2 {
        Surrogates(s[1]);
        JsonReadsBack(s[2..]);
        assert JsonBody(s)[1..] == [s[1]] + JsonBody(s[2..]) && JsonBody(s)[1..][1..] == JsonBody(s[2..]);
      } else {
        if |s| > 1 {
          Surrogates(s[1]);
        }
        JsonReadsBack(s[1..]);
        ReadEscaped(s[0], JsonBody(s[1..]));
      }
    }
  }

  lemma {:induction false} AsciiMeasured(ascii: Units, rest: Units)
    requires forall i :: 0 <= i < |ascii| ==> ascii[i] < 0x80
    ensures Utf8Length(ascii + rest) == |ascii| + Utf8Length(rest)
  {
    if ascii == [] {
      assert ascii + rest == rest;
    } else {
      assert (ascii + rest)[1..] == ascii[1..] + rest;
      AsciiMeasured(ascii[1..], rest);
    }
  }

  lemma EscapedMeasured(s: Units, rest: Units)
    requires s != [] && FirstUnits(s) == 1
    ensures Utf8Length(Escaped(s[0]) + rest) == FirstJsonBytes(s) + Utf8Length(rest)
  {
    Surrogates(s[0]);
    if Escaped(s[0]) != [s[0]] {
      AsciiMeasured(Escaped(s[0]), rest);
    } else {
      assert ([s[0]] + rest)[1..] == rest;
    }
  }

  lemma {:induction false} BodyMeasured(s: Units, rest: Units)
    ensures Utf8Length(JsonBody(s) + rest) == JsonChars(s) + Utf8Length(rest)
  {
    if s == [] {
      assert JsonBody(s) + rest == rest;
    } else {
      Surrogates(s[0]);
      if |s| > 1 {
        Surrogates(s[1]);
      }
      var n := FirstUnits(s);
      var first := if n == 2 then s[..2] else Escaped(s[0]);
      assert JsonBody(s) + rest == first + (JsonBody(s[n..]) + rest);
      BodyMeasured(s[n..], rest);
      if n == 2 {
        FirstMeasured(s, JsonBody(s[n..]) + rest);
      } else {
        EscapedMeasured(s, JsonBody(s[n..]) + rest);
      }
    }
  }

  lemma QuotedMeasured(s: Units, rest: Units)
    ensures Utf8Length(JsonText(s) + rest) == StringJson(s) + Utf8Length(rest)
  {
    assert JsonText(s) + rest == [QUOTE] + (JsonBody(s) + ([QUOTE] + rest));
    AsciiMeasured([QUOTE], JsonBody(s) + ([QUOTE] + rest));
    BodyMeasured(s, [QUOTE] + rest);
    AsciiMeasured([QUOTE], rest);
  }

  // ---------------------------------------------------------------- JSON values

  function Ascii(text: string): (units: Units)
    requires forall i :: 0 <= i < |text| ==> text[i] < '\U{80}'
    ensures |units| == |text| && forall i :: 0 <= i < |text| ==> units[i] == text[i] as int < 0x80
  {
    seq(|text|, i requires 0 <= i < |text| => text[i] as nat)
  }

  function ValueText(value: Detail): Units
    decreases value
  {
    match value
    case Null => Ascii("null")
    case Bool(b) => if b then Ascii("true") else Ascii("false")
    case Number(digits) => digits
    case NonFinite(number) => JsonText(NameOf(number))
    case Str(text) => JsonText(text)
    case List(items) => Ascii("[") + ItemsText(items) + Ascii("]")
    case Record(fields) => Ascii("{") + FieldsText(fields) + Ascii("}")
    case Other(shown) => JsonText(shown)
  }

  function ItemsText(items: seq<Detail>): Units
    decreases items
  {
    if items == [] then []
    else if |items| == 1 then ValueText(items[0])
    else ItemsText(items[..|items| - 1]) + Ascii(",") + ValueText(items[|items| - 1])
  }

  function FieldText(field: Field): Units
    decreases field
  {
    JsonText(field.key) + Ascii(":") + ValueText(field.value)
  }

  function FieldsText(fields: seq<Field>): Units
    decreases fields
  {
    if fields == [] then []
    else if |fields| == 1 then FieldText(fields[0])
    else FieldsText(fields[..|fields| - 1]) + Ascii(",") + FieldText(fields[|fields| - 1])
  }

  /** Finite numbers print as ASCII. */
  predicate AsciiNumbers(value: Detail)
    decreases value
  {
    match value
    case Number(digits) => forall i :: 0 <= i < |digits| ==> digits[i] < 0x80
    case List(items) => forall i :: 0 <= i < |items| ==> AsciiNumbers(items[i])
    case Record(fields) => forall i :: 0 <= i < |fields| ==> AsciiNumbers(fields[i].value)
    case _ => true
  }

  lemma Enclosed(open: string, body: Units, close: string, rest: Units)
    requires |open| == |close| == 1 && open[0] < '\U{80}' && close[0] < '\U{80}'
    ensures Utf8Length(Ascii(open) + body + Ascii(close) + rest)
         == 2 + Utf8Length(body + (Ascii(close) + rest)) - Utf8Length(Ascii(close) + rest) + Utf8Length(rest)
  {
    var tail := body + (Ascii(close) + rest);
    assert Ascii(open) + body + Ascii(close) + rest == Ascii(open) + tail;
    AsciiMeasured(Ascii(open), tail);
    AsciiMeasured(Ascii(close), rest);
  }

  lemma {:induction false} ValueMeasured(value: Detail, rest: Units)
    requires AsciiNumbers(value)
    ensures Utf8Length(ValueText(value) + rest) == JsonLength(value) + Utf8Length(rest)
    decreases value
  {
    match value
    case Null => AsciiMeasured(Ascii("null"), rest);
    case Bool(b) => AsciiMeasured(ValueText(value), rest);
    case Number(digits) => AsciiMeasured(digits, rest);
    case NonFinite(number) => QuotedMeasured(NameOf(number), rest);
    case Str(text) => QuotedMeasured(text, rest);
    case List(items) =>
      ItemsMeasured(items, Ascii("]") + rest);
      Enclosed("[", ItemsText(items), "]", rest);
    case Record(fields) =>
      FieldsMeasured(fields, Ascii("}") + rest);
      Enclosed("{", FieldsText(fields), "}", rest);
    case Other(shown) => QuotedMeasured(shown, rest);
  }

  lemma {:induction false} ItemsMeasured(items: seq<Detail>, rest: Units)
    requires forall i :: 0 <= i < |items| ==> AsciiNumbers(items[i])
    ensures Utf8Length(ItemsText(items) + rest) == ItemsLength(items) + Utf8Length(rest)
    decreases items
  {
    if items == [] {
      assert ItemsText(items) + rest == rest;
    } else {
      var before, last := items[..|items| - 1], items[|items| - 1];
      ValueMeasured(last, rest);
      if |items| > 1 {
        var tail := ValueText(last) + rest;
        assert ItemsText(items) + rest == ItemsText(before) + (Ascii(",") + tail);
        ItemsMeasured(before, Ascii(",") + tail);
        AsciiMeasured(Ascii(","), tail);
      } else {
        assert ItemsLength(before) == 0;
      }
    }
  }

  lemma Regroup(a: Units, b: Units, c: Units, d: Units)
    ensures a + b + c + d == a + (b + (c + d))
  {
  }

  lemma {:induction false} FieldMeasured(field: Field, rest: Units)
    requires AsciiNumbers(field.value)
    ensures Utf8Length(FieldText(field) + rest)
         == StringJson(field.key) + 1 + JsonLength(field.value) + Utf8Length(rest)
    decreases field
  {
    var tail := ValueText(field.value) + rest;
    Regroup(JsonText(field.key), Ascii(":"), ValueText(field.value), rest);
    QuotedMeasured(field.key, Ascii(":") + tail);
    AsciiMeasured(Ascii(":"), tail);
    ValueMeasured(field.value, rest);
  }

  lemma {:induction false} FieldsMeasured(fields: seq<Field>, rest: Units)
    requires forall i :: 0 <= i < |fields| ==> AsciiNumbers(fields[i].value)
    ensures Utf8Length(FieldsText(fields) + rest) == FieldsLength(fields) + Utf8Length(rest)
    decreases fields
  {
    if fields == [] {
      assert FieldsText(fields) + rest == rest;
    } else {
      var before, last := fields[..|fields| - 1], fields[|fields| - 1];
      FieldMeasured(last, rest);
      if |fields| > 1 {
        var tail := FieldText(last) + rest;
        assert FieldsText(fields) + rest == FieldsText(before) + (Ascii(",") + tail);
        FieldsMeasured(before, Ascii(",") + tail);
        AsciiMeasured(Ascii(","), tail);
      } else {
        assert FieldsLength(before) == 0;
      }
    }
  }

  /** The measured length of a JSON value is the number of bytes of its text. */
  lemma JsonMeasures(value: Detail)
    requires AsciiNumbers(value)
    ensures |EncodeAll(CodePoints(ValueText(value)))| == JsonLength(value)
  {
    Utf8Measures(ValueText(value));
    ValueMeasured(value, []);
    assert ValueText(value) + [] == ValueText(value);
  }
}
