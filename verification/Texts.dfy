/** What components agree on about strings: their order, repetitions, and which ones trim to nothing. */
module Texts {

  /** The white space and line terminators that trimming removes. */
  predicate IsSpace(c: char)
    ensures IsSpace(c) <==>
              var code := c as int;
              || 9 <= code <= 13 || code == 32 || code == 160 || code == 5760 || 8192 <= code <= 8202
              || code == 8232 || code == 8233 || code == 8239 || code == 8287 || code == 12288 || code == 65279
  {
    c in " \t\n\r\U{B}\U{C}\U{A0}\U{1680}\U{2028}\U{2029}\U{202F}\U{205F}\U{3000}\U{FEFF}"
      || '\U{2000}' <= c <= '\U{200A}'
  }

  /** Nothing is left of the text after trimming. */
  predicate Blank(text: string)
    ensures !Blank(text) <==> exists i :: 0 <= i < |text| && !IsSpace(text[i])
  {
    forall c :: c in text ==> IsSpace(c)
  }

  ghost predicate Distinct(texts: seq<string>) {
    forall i, j :: 0 <= i < j < |texts| ==> texts[i] != texts[j]
  }

  /** Lexicographic order by code. */
  predicate Less(a: string, b: string) {
    if b == [] then false
    else if a == [] then true
    else if a[0] == b[0] then Less(a[1..], b[1..])
    else a[0] < b[0]
  }

  lemma {:induction false} LessIsTotal(a: string, b: string)
    ensures Less(a, b) ==> !Less(b, a) && a != b
    ensures Less(a, b) || Less(b, a) || a == b
  {
    if a != [] && b != [] && a[0] == b[0] {
      LessIsTotal(a[1..], b[1..]);
      assert a == [a[0]] + a[1..] && b == [b[0]] + b[1..];
    }
  }

  lemma {:induction false} LessIsTransitive(a: string, b: string, c: string)
    requires Less(a, b) && Less(b, c)
    ensures Less(a, c)
  {
    if a != [] && a[0] == b[0] == c[0] {
      LessIsTransitive(a[1..], b[1..], c[1..]);
    }
  }

  /** The first difference decides, whatever follows. */
  lemma {:induction false} LessExtends(s: string, t: string, u: string, v: string)
    requires |s| == |t| && Less(s, t)
    ensures Less(s + u, t + v)
  {
    assert (s + u)[1..] == s[1..] + u && (t + v)[1..] == t[1..] + v;
    if s[0] == t[0] {
      LessExtends(s[1..], t[1..], u, v);
    }
  }

  lemma {:induction false} LessAfterPrefix(s: string, u: string, v: string)
    requires Less(u, v)
    ensures Less(s + u, s + v)
  {
    if s == [] {
      assert s + u == u && s + v == v;
    } else {
      assert (s + u)[1..] == s[1..] + u && (s + v)[1..] == s[1..] + v;
      LessAfterPrefix(s[1..], u, v);
    }
  }

  // ---------------------------------------------------------------- sorting

  ghost predicate Ascending(texts: seq<string>) {
    forall i, j :: 0 <= i < j < |texts| ==> Less(texts[i], texts[j])
  }

  /** Equal texts may stand side by side. */
  ghost predicate NonDescending(texts: seq<string>) {
    forall i, j :: 0 <= i < j < |texts| ==> !Less(texts[j], texts[i])
  }

  method Least(texts: set<string>) returns (least: string)
    requires texts != {}
    ensures least in texts && forall text :: text in texts ==> text == least || Less(least, text)
  {
    var left := texts;
    least :| least in left;
    left := left - {least};
    while left != {}
      invariant left <= texts && least in texts
                && forall text :: text in texts - left ==> text == least || Less(least, text)
      decreases |left|
    {
      var text :| text in left;
      LessIsTotal(text, least);
      if Less(text, least) {
        forall other | other in texts - left && other != least ensures Less(text, other) {
          LessIsTransitive(text, least, other);
        }
        least := text;
      }
      left := left - {text};
    }
  }

  method SortSet(keys: set<string>) returns (sorted: seq<string>)
    ensures Ascending(sorted) && forall text :: text in sorted <==> text in keys
  {
    sorted := [];
    var left := keys;
    while left != {}
      invariant left <= keys && Ascending(sorted) && forall text :: text in sorted <==> text in keys - left
      invariant forall a, b :: a in sorted && b in left ==> Less(a, b)
      decreases |left|
    {
      var least := Least(left);
      sorted, left := sorted + [least], left - {least};
    }
  }

  method SortTexts(texts: seq<string>) returns (sorted: seq<string>)
    ensures NonDescending(sorted) && multiset(sorted) == multiset(texts)
  {
    sorted := [];
    for i := 0 to |texts|
      invariant NonDescending(sorted) && multiset(sorted) == multiset(texts[..i])
    {
      assert texts[..i + 1] == texts[..i] + [texts[i]];
      sorted := Insert(sorted, texts[i]);
    }
    assert texts[..|texts|] == texts;
  }

  method Insert(sorted: seq<string>, text: string) returns (longer: seq<string>)
    requires NonDescending(sorted)
    ensures NonDescending(longer) && multiset(longer) == multiset(sorted) + multiset{text}
  {
    var k := |sorted|;
    while k > 0 && Less(text, sorted[k - 1])
      invariant 0 <= k <= |sorted|
      invariant forall l :: k <= l < |sorted| ==> Less(text, sorted[l])
    {
      k := k - 1;
    }
    InsertedInOrder(sorted, k, text);
    assert sorted == sorted[..k] + sorted[k..];
    longer := sorted[..k] + [text] + sorted[k..];
  }

  lemma InsertedInOrder(sorted: seq<string>, k: nat, text: string)
    requires NonDescending(sorted) && k <= |sorted| && (k > 0 ==> !Less(text, sorted[k - 1]))
    requires forall l :: k <= l < |sorted| ==> Less(text, sorted[l])
    ensures NonDescending(sorted[..k] + [text] + sorted[k..])
  {
    forall i | 0 <= i < k ensures !Less(text, sorted[i]) {
      NotBelow(text, sorted[i], sorted[k - 1]);
    }
    forall l | k <= l < |sorted| ensures !Less(sorted[l], text) {
      LessIsTotal(text, sorted[l]);
    }
  }

  lemma NotBelow(text: string, low: string, high: string)
    requires !Less(text, high) && (low == high || !Less(high, low))
    ensures !Less(text, low)
  {
    LessIsTotal(low, high);
    if Less(text, low) && Less(low, high) {
      LessIsTransitive(text, low, high);
    }
  }
}
