/** The sanitizer as it is written, over one budget object, refines the reference copy; and bounded details. */
module Sanitizer {
  import opened CodeUnits
  import opened Diagnostics
  import opened Values

  class DetailBudget {
    var bytes: nat
    var items: nat
    var truncated: bool

    constructor ()
      ensures bytes == 0 && items == 0 && !truncated
    {
      bytes, items, truncated := 0, 0, false;
    }

    method Charge(amount: nat) returns (charged: bool)
      modifies this
      ensures charged <==> old(bytes) + amount <= DETAIL_CONTENT_BYTES
      ensures bytes == old(bytes) + if charged then amount else 0
      ensures items == old(items) && truncated == (old(truncated) || !charged)
    {
      charged := bytes + amount <= DETAIL_CONTENT_BYTES;
      if charged {
        bytes := bytes + amount;
      } else {
        truncated := true;
      }
    }

    method ChargeItem() returns (charged: bool)
      modifies this
      ensures items == old(items) + 1 && bytes == old(bytes)
      ensures charged <==> items <= DETAIL_TOTAL_ITEMS
      ensures truncated == (old(truncated) || !charged)
    {
      items := items + 1;
      charged := items <= DETAIL_TOTAL_ITEMS;
      if !charged {
        truncated := true;
      }
    }

    /** The charge is exactly the JSON text, or the value is skipped. */
    method ChargedPrimitive(value: Detail) returns (result: Option<Detail>)
      modifies this
      ensures result == if old(bytes) + JsonLength(value) <= DETAIL_CONTENT_BYTES then Some(value) else None
      ensures bytes == old(bytes) + if result.Some? then JsonLength(value) else 0
      ensures items == old(items) && truncated == (old(truncated) || result.None?)
    {
      var charged := Charge(JsonLength(value));
      result := if charged then Some(value) else None;
    }

    /** Clips and shrinks a string to what is left; it stays whole exactly when it fits. */
    method ChargedString(value: Units) returns (result: Option<Detail>)
      requires Kept(AccountOf(this))
      modifies this
      ensures Outcome(result, AccountOf(this)) == TrimText(value, old(AccountOf(this)))
    {
      TextCharged(value, AccountOf(this));
      var output := FitString(value);
      result := ChargedPrimitive(Str(output));
    }

    method FitString(value: Units) returns (output: Units)
      requires Kept(AccountOf(this))
      modifies this
      ensures output == Fitted(value, DETAIL_STRING_BYTES - 3, Available(old(AccountOf(this))))
      ensures bytes == old(bytes) && items == old(items)
      ensures truncated == (old(truncated) || IsCut(value, Available(old(AccountOf(this)))))
    {
      output := value;
      if Utf8Length(output) > DETAIL_STRING_BYTES {
        var clipped := ClipUtf8(output, DETAIL_STRING_BYTES - 3);
        output := clipped + SUFFIX;
        truncated := true;
      }
      var available := DETAIL_CONTENT_BYTES - bytes;
      output := ShrinkTo(output, available);
      if output != value && !EndsWith(output, SUFFIX) && available >= 5 {
        var shorter := ClipUtf8(output, if Utf8Length(output) >= 3 then Utf8Length(output) - 3 else 0);
        output := shorter + SUFFIX;
      }
    }

    /** Drops units until the JSON string fits; having to is a truncation. */
    method ShrinkTo(text: Units, available: nat) returns (output: Units)
      modifies this
      ensures output == Shrink(text, available) && bytes == old(bytes) && items == old(items)
      ensures truncated == (old(truncated) || (text != [] && StringJson(text) > available))
    {
      output := text;
      while output != [] && StringJson(output) > available
        invariant bytes == old(bytes) && items == old(items) && Shrink(output, available) == Shrink(text, available)
        invariant truncated == (old(truncated) || output != text)
        invariant output != text ==> text != [] && StringJson(text) > available
        decreases |output|
      {
        output := output[..|output| - 1];
        truncated := true;
      }
    }
  }

  /** Units were dropped, from a text too long by itself or for what is left. */
  predicate IsCut(text: Units, available: nat) {
    || Utf8Length(text) > DETAIL_STRING_BYTES
    || (text != [] && StringJson(text) > available)
  }

  /** An empty text that does not fit is not cut, but charging it fails. */
  lemma TextCharged(text: Units, a: Account)
    requires Kept(a)
    ensures TrimText(text, a)
            == TrimPrimitive(Str(Fitted(text, DETAIL_STRING_BYTES - 3, Available(a))),
                             a.(truncated := a.truncated || IsCut(text, Available(a))))
  {
    if text == [] {
      assert Fitted([], DETAIL_STRING_BYTES - 3, Available(a)) == [];
    }
  }

  function AccountOf(budget: DetailBudget): Account
    reads budget
  {
    Account(budget.bytes, budget.items, budget.truncated)
  }

  /** Copies a value into a bounded JSON-safe one, or skips it. */
  method SanitizeValue(value: Detail, budget: DetailBudget, depth: nat) returns (result: Option<Detail>)
    requires Kept(AccountOf(budget)) && depth <= DETAIL_DEPTH
    modifies budget
    ensures Outcome(result, AccountOf(budget)) == Trim(value, old(AccountOf(budget)), depth)
    ensures Done(Outcome(result, AccountOf(budget)), old(AccountOf(budget)), DemandOf(value, depth), Image(value))
    ensures Paid(Outcome(result, AccountOf(budget)), old(AccountOf(budget)), 0, 0)
    ensures result.Some? ==> Trimmed(result.value, value, depth)
    decreases value, 1
  {
    TrimIsDone(value, AccountOf(budget), depth);
    TrimIsPaid(value, AccountOf(budget), depth);
    TrimIsTrimmed(value, AccountOf(budget), depth);
    if depth >= DETAIL_DEPTH || !(value.List? || value.Record?) {
      result := SanitizeLeaf(value, budget, depth);
      return;
    }
    var charged := budget.Charge(2);
    if !charged {
      return None;
    }
    if value.List? {
      var kept := SanitizeItems(value, budget, depth);
      result := Some(List(kept));
    } else {
      var kept := SanitizeFields(value, budget, depth);
      result := Some(Record(kept));
    }
  }

  /** Everything without parts, and the marker that stands for what is too deep. */
  method SanitizeLeaf(value: Detail, budget: DetailBudget, depth: nat) returns (result: Option<Detail>)
    requires Kept(AccountOf(budget)) && depth <= DETAIL_DEPTH
    requires depth == DETAIL_DEPTH || !(value.List? || value.Record?)
    modifies budget
    ensures Outcome(result, AccountOf(budget)) == Trim(value, old(AccountOf(budget)), depth)
  {
    if depth >= DETAIL_DEPTH {
      budget.truncated := true;
      result := budget.ChargedPrimitive(Str(MARKER));
    } else {
      match value {
        case Null => result := budget.ChargedPrimitive(value);
        case Bool(_) => result := budget.ChargedPrimitive(value);
        case Number(_) => result := budget.ChargedPrimitive(value);
        case NonFinite(number) => result := budget.ChargedPrimitive(Str(NameOf(number)));
        case Str(text) => result := budget.ChargedString(text);
        case Other(shown) => result := budget.ChargedString(shown);
      }
    }
  }

  /** The elements that are kept, up to the first that does not fit. */
  method SanitizeItems(value: Detail, budget: DetailBudget, depth: nat) returns (result: seq<Detail>)
    requires value.List? && Kept(AccountOf(budget)) && depth < DETAIL_DEPTH
    modifies budget
    ensures var start := old(AccountOf(budget)).(truncated := old(budget.truncated) || |value.items| > DETAIL_ITEMS);
            var run := TrimItems(value.items, Width(|value.items|), start, depth);
            result == run.kept && AccountOf(budget) == run.account
    decreases value, 0, 2
  {
    var n := if |value.items| > DETAIL_ITEMS then DETAIL_ITEMS else |value.items|;
    if |value.items| > DETAIL_ITEMS {
      budget.truncated := true;
    }
    result := KeepItems(value, n, budget, depth);
  }

  method KeepItems(value: Detail, n: nat, budget: DetailBudget, depth: nat) returns (result: seq<Detail>)
    requires value.List? && n <= |value.items| && Kept(AccountOf(budget)) && depth < DETAIL_DEPTH
    modifies budget
    ensures var run := TrimItems(value.items, n, old(AccountOf(budget)), depth);
            result == run.kept && AccountOf(budget) == run.account
    decreases value, 0, 1
  {
    ghost var start := AccountOf(budget);
    result := [];
    for i := 0 to n
      invariant TrimItems(value.items, i, start, depth) == Run(result, AccountOf(budget), false)
      invariant Kept(AccountOf(budget))
    {
      ghost var before := AccountOf(budget);
      var item := SanitizeItem(value, i, budget, depth);
      NextItem(value.items, i, start, depth, result, before, Outcome(item, AccountOf(budget)));
      if item.None? {
        ItemsStayStopped(value.items, i + 1, n, start, depth);
        return;
      }
      result := result + [item.value];
    }
  }

  lemma NextItem(items: seq<Detail>, i: nat, a: Account, depth: nat, kept: seq<Detail>, before: Account, next: Outcome)
    requires i < |items| && TrimItems(items, i, a, depth) == Run(kept, before, false)
    requires next == TrimEntry(items[i], Comma(i), before, depth)
    ensures next.kept.None? ==> TrimItems(items, i + 1, a, depth) == Run(kept, next.account, true)
    ensures next.kept.Some? ==> TrimItems(items, i + 1, a, depth) == Run(kept + [next.kept.value], next.account, false)
  {
  }

  lemma {:induction false} ItemsStayStopped(items: seq<Detail>, i: nat, n: nat, a: Account, depth: nat)
    requires i <= n <= |items| && TrimItems(items, i, a, depth).stopped
    ensures TrimItems(items, n, a, depth) == TrimItems(items, i, a, depth)
  {
    if i < n {
      ItemsStayStopped(items, i, n - 1, a, depth);
    }
  }

  /** One element with its comma; none if it must be left out. */
  method SanitizeItem(value: Detail, i: nat, budget: DetailBudget, depth: nat) returns (item: Option<Detail>)
    requires value.List? && i < |value.items| && Kept(AccountOf(budget)) && depth < DETAIL_DEPTH
    modifies budget
    ensures Outcome(item, AccountOf(budget)) == TrimEntry(value.items[i], Comma(i), old(AccountOf(budget)), depth)
    ensures Kept(AccountOf(budget))
    decreases value, 0, 0
  {
    var counted := budget.ChargeItem();
    if !counted {
      return None;
    }
    if i > 0 {
      var charged := budget.Charge(1);
      if !charged {
        return None;
      }
    }
    item := SanitizeValue(value.items[i], budget, depth + 1);
  }

  /** The entries that are kept, up to the first that does not fit. */
  method SanitizeFields(value: Detail, budget: DetailBudget, depth: nat) returns (result: seq<Field>)
    requires value.Record? && Kept(AccountOf(budget)) && depth < DETAIL_DEPTH
    modifies budget
    ensures var start := old(AccountOf(budget)).(truncated := old(budget.truncated) || |value.fields| > DETAIL_ITEMS);
            var run := TrimFields(value.fields, Width(|value.fields|), start, depth);
            result == run.kept && AccountOf(budget) == run.account
    decreases value, 0, 2
  {
    var n := if |value.fields| > DETAIL_ITEMS then DETAIL_ITEMS else |value.fields|;
    if |value.fields| > DETAIL_ITEMS {
      budget.truncated := true;
    }
    result := KeepFields(value, n, budget, depth);
  }

  method KeepFields(value: Detail, n: nat, budget: DetailBudget, depth: nat) returns (result: seq<Field>)
    requires value.Record? && n <= |value.fields| && Kept(AccountOf(budget)) && depth < DETAIL_DEPTH
    modifies budget
    ensures var run := TrimFields(value.fields, n, old(AccountOf(budget)), depth);
            result == run.kept && AccountOf(budget) == run.account
    decreases value, 0, 1
  {
    ghost var start := AccountOf(budget);
    result := [];
    for i := 0 to n
      invariant TrimFields(value.fields, i, start, depth) == Run(result, AccountOf(budget), false)
      invariant Kept(AccountOf(budget))
    {
      ghost var before := AccountOf(budget);
      var item := SanitizeField(value, i, budget, depth);
      NextField(value.fields, i, start, depth, result, before, Outcome(item, AccountOf(budget)));
      if item.None? {
        FieldsStayStopped(value.fields, i + 1, n, start, depth);
        return;
      }
      result := result + [Field(value.fields[i].key, item.value)];
    }
  }

  lemma NextField(fields: seq<Field>, i: nat, a: Account, depth: nat, kept: seq<Field>, before: Account, next: Outcome)
    requires i < |fields| && TrimFields(fields, i, a, depth) == Run(kept, before, false)
    requires next == TrimEntry(fields[i].value, Framing(fields[i].key, i), before, depth)
    ensures next.kept.None? ==> TrimFields(fields, i + 1, a, depth) == Run(kept, next.account, true)
    ensures next.kept.Some? ==>
              TrimFields(fields, i + 1, a, depth)
                == Run(kept + [Field(fields[i].key, next.kept.value)], next.account, false)
  {
  }

  lemma {:induction false} FieldsStayStopped(fields: seq<Field>, i: nat, n: nat, a: Account, depth: nat)
    requires i <= n <= |fields| && TrimFields(fields, i, a, depth).stopped
    ensures TrimFields(fields, n, a, depth) == TrimFields(fields, i, a, depth)
  {
    if i < n {
      FieldsStayStopped(fields, i, n - 1, a, depth);
    }
  }

  /** One entry with its framing; none if it must be left out. */
  method SanitizeField(value: Detail, i: nat, budget: DetailBudget, depth: nat) returns (item: Option<Detail>)
    requires value.Record? && i < |value.fields| && Kept(AccountOf(budget)) && depth < DETAIL_DEPTH
    modifies budget
    ensures Outcome(item, AccountOf(budget))
            == TrimEntry(value.fields[i].value, Framing(value.fields[i].key, i), old(AccountOf(budget)), depth)
    ensures Kept(AccountOf(budget))
    decreases value, 0, 0
  {
    var counted := budget.ChargeItem();
    if !counted {
      return None;
    }
    var charged := budget.Charge(Framing(value.fields[i].key, i));
    if !charged {
      return None;
    }
    item := SanitizeValue(value.fields[i].value, budget, depth + 1);
  }

  // ---------------------------------------------------------------- bounded details

  /** The words detailsTruncated and value. */
  const DETAILS_WORD: Units := [0x64, 0x65, 0x74, 0x61, 0x69, 0x6C, 0x73]
  const TRUNCATED_WORD: Units := [0x54, 0x72, 0x75, 0x6E, 0x63, 0x61, 0x74, 0x65, 0x64]
  const TRUNCATED_KEY: Units := DETAILS_WORD + TRUNCATED_WORD
  const VALUE_KEY: Units := [0x76, 0x61, 0x6C, 0x75, 0x65]

  predicate HasKey(fields: seq<Field>, key: Units) {
    exists i :: 0 <= i < |fields| && fields[i].key == key
  }

  function ReplaceField(fields: seq<Field>, key: Units, value: Detail): seq<Field> {
    if fields == [] then []
    else
      var n := |fields| - 1;
      ReplaceField(fields[..n], key, value) + [if fields[n].key == key then Field(key, value) else fields[n]]
  }

  /** Sets a key as an object spread does: in place if present, otherwise at the end. */
  function Spread(fields: seq<Field>, key: Units, value: Detail): seq<Field> {
    if HasKey(fields, key) then ReplaceField(fields, key, value) else fields + [Field(key, value)]
  }

  /** The fields under all other keys, in order. */
  ghost function Besides(fields: seq<Field>, key: Units): seq<Field> {
    if fields == [] then []
    else
      var last, rest := fields[|fields| - 1], Besides(fields[..|fields| - 1], key);
      if last.key == key then rest else rest + [last]
  }

  /** The key stands exactly once, with this value. */
  ghost predicate SetOnce(fields: seq<Field>, key: Units, value: Detail) {
    exists i :: 0 <= i < |fields| && fields[i] == Field(key, value)
                && forall j :: 0 <= j < |fields| && j != i ==> fields[j].key != key
  }

  lemma {:induction false} ReplacedBesides(fields: seq<Field>, key: Units, value: Detail)
    ensures Besides(ReplaceField(fields, key, value), key) == Besides(fields, key)
  {
    if fields != [] {
      var n := |fields| - 1;
      ReplacedBesides(fields[..n], key, value);
      BesidesMore(ReplaceField(fields[..n], key, value),
                  if fields[n].key == key then Field(key, value) else fields[n], key);
    }
  }

  lemma BesidesMore(fields: seq<Field>, field: Field, key: Units)
    ensures Besides(fields + [field], key) == Besides(fields, key) + if field.key == key then [] else [field]
  {
    assert (fields + [field])[..|fields|] == fields;
  }

  lemma {:induction false} ReplacedAt(fields: seq<Field>, key: Units, value: Detail, i: nat)
    requires i < |fields|
    ensures |ReplaceField(fields, key, value)| == |fields|
    ensures ReplaceField(fields, key, value)[i] == if fields[i].key == key then Field(key, value) else fields[i]
  {
    var n := |fields| - 1;
    ReplacedSize(fields[..n], key, value);
    if i < n {
      ReplacedAt(fields[..n], key, value, i);
    }
  }

  lemma ReplaceSets(fields: seq<Field>, key: Units, value: Detail)
    requires DistinctKeys(fields) && HasKey(fields, key)
    ensures SetOnce(ReplaceField(fields, key, value), key, value)
  {
    var i :| 0 <= i < |fields| && fields[i].key == key;
    ReplacedSize(fields, key, value);
    ReplacedAt(fields, key, value, i);
    forall j | 0 <= j < |fields| && j != i ensures ReplaceField(fields, key, value)[j].key != key {
      ReplacedAt(fields, key, value, j);
    }
  }

  lemma AppendSets(fields: seq<Field>, key: Units, value: Detail)
    requires !HasKey(fields, key)
    ensures SetOnce(fields + [Field(key, value)], key, value)
  {
    assert (fields + [Field(key, value)])[|fields|] == Field(key, value);
  }

  /** A spread sets its key exactly once and leaves everything else as it was. */
  lemma SpreadSets(fields: seq<Field>, key: Units, value: Detail)
    requires DistinctKeys(fields)
    ensures SetOnce(Spread(fields, key, value), key, value)
    ensures Besides(Spread(fields, key, value), key) == Besides(fields, key)
  {
    if HasKey(fields, key) {
      ReplaceSets(fields, key, value);
      ReplacedBesides(fields, key, value);
    } else {
      AppendSets(fields, key, value);
      BesidesMore(fields, Field(key, value), key);
    }
  }

  ghost predicate DistinctKeys(fields: seq<Field>) {
    forall i, j :: 0 <= i < j < |fields| ==> fields[i].key != fields[j].key
  }

  lemma LastKey(fields: seq<Field>, key: Units)
    requires fields != [] && DistinctKeys(fields)
    ensures HasKey(fields, key) <==> HasKey(fields[..|fields| - 1], key) || fields[|fields| - 1].key == key
    ensures HasKey(fields[..|fields| - 1], key) ==> fields[|fields| - 1].key != key
    ensures DistinctKeys(fields[..|fields| - 1])
  {
    var n := |fields| - 1;
    if HasKey(fields[..n], key) {
      var i :| 0 <= i < n && fields[..n][i].key == key;
      assert fields[i].key == key;
    }
    if fields[n].key == key {
      assert HasKey(fields, key);
    }
  }

  lemma {:induction false} ReplacedSize(fields: seq<Field>, key: Units, value: Detail)
    ensures |ReplaceField(fields, key, value)| == |fields|
  {
    if fields != [] {
      ReplacedSize(fields[..|fields| - 1], key, value);
    }
  }

  /** Replacing at most one entry adds at most the new value. */
  lemma {:induction false} ReplacedLength(fields: seq<Field>, key: Units, value: Detail)
    requires DistinctKeys(fields)
    ensures FieldsLength(ReplaceField(fields, key, value)) <= FieldsLength(fields) +
              if HasKey(fields, key) then JsonLength(value) else 0
  {
    if fields != [] {
      var n := |fields| - 1;
      LastKey(fields, key);
      ReplacedLength(fields[..n], key, value);
      ReplacedSize(fields[..n], key, value);
      FieldsMore(ReplaceField(fields[..n], key, value), if fields[n].key == key then Field(key, value) else fields[n]);
    }
  }

  lemma SpreadLength(fields: seq<Field>, key: Units, value: Detail)
    requires DistinctKeys(fields)
    ensures FieldsLength(Spread(fields, key, value)) <= FieldsLength(fields) + StringJson(key) + 2 + JsonLength(value)
  {
    ReplacedLength(fields, key, value);
    FieldsMore(fields, Field(key, value));
  }

  lemma TruncatedKeyLength()
    ensures StringJson(TRUNCATED_KEY) == 18
  {
    PlainConcat(DETAILS_WORD, TRUNCATED_WORD);
    PlainJson(TRUNCATED_KEY);
  }

  lemma ValueKeyLength()
    ensures StringJson(VALUE_KEY) == 7
  {
    assert VALUE_KEY[0] == 0x76 && VALUE_KEY[1] == 0x61 && VALUE_KEY[2] == 0x6C && VALUE_KEY[3] == 0x75
           && VALUE_KEY[4] == 0x65;
    assert Plain(VALUE_KEY);
    PlainJson(VALUE_KEY);
  }

  /** The entries of a record, or the wrapper around what is not one. */
  function Wrapped(sanitized: Option<Detail>): seq<Field> {
    if sanitized.Some? && sanitized.value.Record? then sanitized.value.fields
    else [Field(VALUE_KEY, if sanitized.Some? then sanitized.value else Str(MARKER))]
  }

  function Marked(fields: seq<Field>): seq<Field> {
    Spread(fields, TRUNCATED_KEY, Detail.Bool(true))
  }

  /** What was kept: the fields of a record, or one field with anything else, or with the marker for nothing. */
  ghost function FieldsKept(kept: Option<Detail>): seq<Field> {
    match kept
    case None => [Field(VALUE_KEY, Str(MARKER))]
    case Some(Record(fields)) => fields
    case Some(value) => [Field(VALUE_KEY, value)]
  }

  /** These fields, beside the truncation marker if something was left out. */
  ghost predicate Carries(result: seq<Field>, kept: Option<Detail>, truncated: bool) {
    if truncated then
      && SetOnce(result, TRUNCATED_KEY, Detail.Bool(true))
      && Besides(result, TRUNCATED_KEY) == Besides(FieldsKept(kept), TRUNCATED_KEY)
    else result == FieldsKept(kept)
  }

  /** The keys and the marker, spelled out. */
  lemma Spelled()
    ensures Spells(TRUNCATED_KEY, "detailsTruncated") && Spells(VALUE_KEY, "value") && Spells(MARKER, "[truncated]")
    ensures Spells(NameOf(NaN), "NaN") && Spells(NameOf(PositiveInfinity), "Infinity")
    ensures Spells(NameOf(NegativeInfinity), "-Infinity") && Spells(SUFFIX, "...")
  {
  }

  ghost predicate Spells(units: Units, text: string) {
    |units| == |text| && forall i :: 0 <= i < |text| ==> units[i] as int == text[i] as int
  }

  /** Assembles the result; the size is checked once more, and that check never fires. */
  method Assemble(sanitized: Option<Detail>, truncated: bool) returns (result: seq<Field>)
    requires sanitized.Some? ==> JsonLength(sanitized.value) <= DETAIL_CONTENT_BYTES
    requires DistinctKeys(Wrapped(sanitized))
    ensures result == if truncated then Marked(Wrapped(sanitized)) else Wrapped(sanitized)
    ensures Carries(result, sanitized, truncated)
    ensures JsonLength(Record(result)) <= DETAIL_TOTAL_BYTES
  {
    var bounded := if truncated then Spread(Wrapped(sanitized), TRUNCATED_KEY, Detail.Bool(true))
                     else Wrapped(sanitized);
    DetailsFit(sanitized);
    SpreadSets(Wrapped(sanitized), TRUNCATED_KEY, Detail.Bool(true));
    result := if JsonLength(Record(bounded)) > DETAIL_TOTAL_BYTES then [Field(TRUNCATED_KEY, Detail.Bool(true))]
                else bounded;
  }

  lemma DetailsFit(sanitized: Option<Detail>)
    requires sanitized.Some? ==> JsonLength(sanitized.value) <= DETAIL_CONTENT_BYTES
    requires DistinctKeys(Wrapped(sanitized))
    ensures JsonLength(Record(Wrapped(sanitized))) <= DETAIL_CONTENT_BYTES + 10
    ensures JsonLength(Record(Marked(Wrapped(sanitized)))) <= DETAIL_TOTAL_BYTES
  {
    TruncatedKeyLength();
    ValueKeyLength();
    SixBytesPerUnit(MARKER);
    if !(sanitized.Some? && sanitized.value.Record?) {
      OneField(Wrapped(sanitized)[0]);
    }
    SpreadLength(Wrapped(sanitized), TRUNCATED_KEY, Detail.Bool(true));
  }

  lemma OneField(field: Field)
    ensures FieldsLength([field]) == StringJson(field.key) + 1 + JsonLength(field.value)
  {
    FieldsMore([], field);
    assert [] + [field] == [field];
  }

  lemma KeysStayDistinct(kept: Detail, details: Detail)
    requires Trimmed(kept, details, 0) && (details.Record? ==> DistinctKeys(details.fields))
    ensures DistinctKeys(Wrapped(Some(kept)))
  {
  }

  /**
   * The diagnostics are exactly what the sanitizer keeps, wrapped if it is no record, and marked
   * exactly if something was left out; their text stays within 16 KiB.
   */
  method BoundedDetails(details: Detail) returns (result: seq<Field>)
    requires details.Record? ==> DistinctKeys(details.fields)
    ensures JsonLength(Record(result)) <= DETAIL_TOTAL_BYTES
    ensures Fits(details) ==> result == Wrapped(Some(Image(details)))
    ensures !Fits(details) ==> result == Marked(Wrapped(Trim(details, FRESH, 0).kept))
    ensures Carries(result, Trim(details, FRESH, 0).kept, !Fits(details))
    ensures var kept := Trim(details, FRESH, 0).kept;
            (details.Record? ==> kept.Some?) && (kept.Some? ==> WithinLimits(kept.value, details))
  {
    var budget := new DetailBudget();
    FreshIsExact(details);
    FreshIsBounded(details);
    var sanitized := SanitizeValue(details, budget, 0);
    if sanitized.Some? {
      KeysStayDistinct(sanitized.value, details);
    }
    result := Assemble(sanitized, budget.truncated);
  }
}
