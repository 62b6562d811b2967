/**
 * Diagnostics under a budget: what the sanitizer charges bounds the JSON text it returns, and
 * it reports a truncation exactly when something had to be left out.
 *
 * Values carry the entries of a record as a list already sorted by key. The reference is the
 * function `Trim`, which copies a value under a budget; an `Account` is a state of that budget,
 * `Exact` says what a copy does to it, `Paid` that a returned value has been charged, and
 * `Trimmed` how it relates to the original. The methods that make this copy over one budget
 * object are in `Sanitizer`.
 */
module Diagnostics {
  import opened CodeUnits
  import opened Values

  const DETAIL_STRING_BYTES: nat := 1024
  const DETAIL_TOTAL_BYTES: nat := 16 * 1024
  const DETAIL_ITEMS: nat := 20
  const DETAIL_TOTAL_ITEMS: nat := 500
  const DETAIL_DEPTH: nat := 5
  const DETAIL_CONTENT_BYTES: nat := DETAIL_TOTAL_BYTES - 64

  // ---------------------------------------------------------------- values

  datatype Detail =
    | Null
    | Bool(b: bool)
    | Number(digits: Units)
    | NonFinite(number: NonFiniteNumber)
    | Str(text: Units)
    | List(items: seq<Detail>)
    | Record(fields: seq<Field>)
    | Other(shown: Units)

  datatype Field = Field(key: Units, value: Detail)

  datatype NonFiniteNumber = NaN | PositiveInfinity | NegativeInfinity

  /** The words NaN, Infinity and -Infinity. */
  function NameOf(number: NonFiniteNumber): (name: Units)
    ensures |name| <= 9
  {
    match number
    case NaN => [0x4E, 0x61, 0x4E]
    case PositiveInfinity => [0x49, 0x6E, 0x66, 0x69, 0x6E, 0x69, 0x74, 0x79]
    case NegativeInfinity => [0x2D, 0x49, 0x6E, 0x66, 0x69, 0x6E, 0x69, 0x74, 0x79]
  }

  /** The length of the JSON text of a value. */
  function JsonLength(value: Detail): nat
    decreases value
  {
    match value
    case Null => 4
    case Bool(b) => if b then 4 else 5
    case Number(digits) => |digits|
    case NonFinite(number) => StringJson(NameOf(number))
    case Str(text) => StringJson(text)
    case List(items) => 2 + ItemsLength(items)
    case Record(fields) => 2 + FieldsLength(fields)
    case Other(shown) => StringJson(shown)
  }

  function ItemsLength(items: seq<Detail>): nat
    decreases items
  {
    if items == [] then 0
    else
      var n := |items| - 1;
      ItemsLength(items[..n]) + Comma(n) + JsonLength(items[n])
  }

  function FieldsLength(fields: seq<Field>): nat
    decreases fields
  {
    if fields == [] then 0
    else
      var n := |fields| - 1;
      FieldsLength(fields[..n]) + StringJson(fields[n].key) + 1 + Comma(n) + JsonLength(fields[n].value)
  }

  function Comma(before: nat): nat {
    if before > 0 then 1 else 0
  }

  /** The array elements and record entries in a value, at all depths. */
  function ItemCount(value: Detail): nat
    decreases value
  {
    match value
    case List(items) => ItemsCount(items)
    case Record(fields) => FieldsCount(fields)
    case _ => 0
  }

  function ItemsCount(items: seq<Detail>): nat
    decreases items
  {
    if items == [] then 0 else ItemsCount(items[..|items| - 1]) + 1 + ItemCount(items[|items| - 1])
  }

  function FieldsCount(fields: seq<Field>): nat
    decreases fields
  {
    if fields == [] then 0 else FieldsCount(fields[..|fields| - 1]) + 1 + ItemCount(fields[|fields| - 1].value)
  }

  /** The JSON-safe form of a value, with nothing left out. */
  function Image(value: Detail): Detail
    decreases value
  {
    match value
    case NonFinite(number) => Str(NameOf(number))
    case Other(shown) => Str(shown)
    case List(items) => List(ItemImages(items))
    case Record(fields) => Record(FieldImages(fields))
    case _ => value
  }

  function ItemImages(items: seq<Detail>): seq<Detail>
    decreases items
  {
    if items == [] then [] else ItemImages(items[..|items| - 1]) + [Image(items[|items| - 1])]
  }

  function FieldImages(fields: seq<Field>): seq<Field>
    decreases fields
  {
    if fields == [] then []
    else
      var last := fields[|fields| - 1];
      FieldImages(fields[..|fields| - 1]) + [Field(last.key, Image(last.value))]
  }

  /** No string too long, nothing too wide, and nothing too deep. */
  predicate Small(value: Detail, depth: nat)
    decreases value
  {
    && depth < DETAIL_DEPTH
    && match value
       case Str(text) => Utf8Length(text) <= DETAIL_STRING_BYTES
       case Other(shown) => Utf8Length(shown) <= DETAIL_STRING_BYTES
       case List(items) => |items| <= DETAIL_ITEMS && forall i :: 0 <= i < |items| ==> Small(items[i], depth + 1)
       case Record(fields) => |fields| <= DETAIL_ITEMS
         && forall i :: 0 <= i < |fields| ==> Small(fields[i].value, depth + 1)
       case _ => true
  }

  lemma {:induction false} ItemImagesLength(items: seq<Detail>)
    ensures |ItemImages(items)| == |items|
  {
    if items != [] {
      ItemImagesLength(items[..|items| - 1]);
    }
  }

  lemma {:induction false} FieldImagesLength(fields: seq<Field>)
    ensures |FieldImages(fields)| == |fields|
  {
    if fields != [] {
      FieldImagesLength(fields[..|fields| - 1]);
    }
  }

  /** What the sanitizer may return: the same bounds, except that a marker may stand one level deeper. */
  predicate Bounded(value: Detail, depth: nat)
    decreases value
  {
    match value
    case Str(text) => Utf8Length(text) <= DETAIL_STRING_BYTES
    case List(items) => depth < DETAIL_DEPTH && |items| <= DETAIL_ITEMS
      && forall i :: 0 <= i < |items| ==> Bounded(items[i], depth + 1)
    case Record(fields) =>
      depth < DETAIL_DEPTH && |fields| <= DETAIL_ITEMS
        && forall i :: 0 <= i < |fields| ==> Bounded(fields[i].value, depth + 1)
    case NonFinite(_) => false
    case Other(_) => false
    case _ => true
  }

  lemma ItemsStep(items: seq<Detail>, i: nat)
    requires i < |items|
    ensures ItemImages(items[..i + 1]) == ItemImages(items[..i]) + [Image(items[i])]
    ensures ItemsCount(items[..i + 1]) == ItemsCount(items[..i]) + 1 + ItemCount(items[i])
    ensures |ItemImages(items[..i])| == i
  {
    assert items[..i + 1][..i] == items[..i];
    ItemImagesLength(items[..i]);
  }

  lemma FieldsStep(fields: seq<Field>, i: nat)
    requires i < |fields|
    ensures FieldImages(fields[..i + 1]) == FieldImages(fields[..i]) + [Field(fields[i].key, Image(fields[i].value))]
    ensures FieldsCount(fields[..i + 1]) == FieldsCount(fields[..i]) + 1 + ItemCount(fields[i].value)
    ensures |FieldImages(fields[..i])| == i
  {
    assert fields[..i + 1][..i] == fields[..i];
    FieldImagesLength(fields[..i]);
  }

  lemma FieldsMore(fields: seq<Field>, field: Field)
    ensures FieldsLength(fields + [field])
              == FieldsLength(fields) + Framing(field.key, |fields|) + JsonLength(field.value)
    ensures FieldsCount(fields + [field]) == FieldsCount(fields) + 1 + ItemCount(field.value)
  {
    assert (fields + [field])[..|fields|] == fields;
  }

  /** A key with its quotes, the colon, and a comma after an earlier entry. */
  function Framing(key: Units, before: nat): nat {
    StringJson(key) + 1 + Comma(before)
  }

  // ---------------------------------------------------------------- the reference

  /** The text [truncated]. */
  const MARKER: Units := [0x5B, 0x74, 0x72, 0x75, 0x6E, 0x63, 0x61, 0x74, 0x65, 0x64, 0x5D]

  /** A state of the budget. */
  datatype Account = Account(bytes: nat, items: nat, truncated: bool)

  /** A value copied, or none, and the budget after it. */
  datatype Outcome = Outcome(kept: Option<Detail>, account: Account)

  /** The elements copied so far, the budget after them, and whether one had to be left out. */
  datatype Run<T> = Run(kept: seq<T>, account: Account, stopped: bool)

  predicate Affords(a: Account, amount: nat) {
    a.bytes + amount <= DETAIL_CONTENT_BYTES
  }

  function Charged(a: Account, amount: nat): Account {
    if Affords(a, amount) then a.(bytes := a.bytes + amount) else a.(truncated := true)
  }

  function Counted(a: Account): Account {
    Account(a.bytes, a.items + 1, a.truncated || a.items + 1 > DETAIL_TOTAL_ITEMS)
  }

  function Available(a: Account): nat {
    if a.bytes <= DETAIL_CONTENT_BYTES then DETAIL_CONTENT_BYTES - a.bytes else 0
  }

  function Width(n: nat): nat {
    if n > DETAIL_ITEMS then DETAIL_ITEMS else n
  }

  /** Inside a list or a record: its brackets are charged, and too many entries are a truncation. */
  function Opened(a: Account, n: nat): Account {
    a.(bytes := a.bytes + 2, truncated := a.truncated || n > DETAIL_ITEMS)
  }

  function TrimPrimitive(value: Detail, a: Account): Outcome {
    Outcome(if Affords(a, JsonLength(value)) then Some(value) else None, Charged(a, JsonLength(value)))
  }

  /** A text that has to be cut is a truncation. */
  function TrimText(text: Units, a: Account): Outcome {
    var cut := Utf8Length(text) > DETAIL_STRING_BYTES || !Affords(a, StringJson(text));
    TrimPrimitive(Str(Fitted(text, DETAIL_STRING_BYTES - 3, Available(a))), a.(truncated := a.truncated || cut))
  }

  /** The copy of a value: as much of it, from the beginning, as the budget allows. */
  function Trim(value: Detail, a: Account, depth: nat): Outcome
    decreases value, 0
  {
    if depth >= DETAIL_DEPTH then TrimPrimitive(Str(MARKER), a.(truncated := true))
    else
      match value
      case Null => TrimPrimitive(value, a)
      case Bool(_) => TrimPrimitive(value, a)
      case Number(_) => TrimPrimitive(value, a)
      case NonFinite(number) => TrimPrimitive(Str(NameOf(number)), a)
      case Str(text) => TrimText(text, a)
      case Other(shown) => TrimText(shown, a)
      case List(items) =>
        if !Affords(a, 2) then Outcome(None, a.(truncated := true))
        else
          var run := TrimItems(items, Width(|items|), Opened(a, |items|), depth);
          Outcome(Some(List(run.kept)), run.account)
      case Record(fields) =>
        if !Affords(a, 2) then Outcome(None, a.(truncated := true))
        else
          var run := TrimFields(fields, Width(|fields|), Opened(a, |fields|), depth);
          Outcome(Some(Record(run.kept)), run.account)
  }

  /** One entry: it is counted, its framing is charged, and its value copied one level deeper. */
  function TrimEntry(value: Detail, framing: nat, a: Account, depth: nat): Outcome
    decreases value, 1
  {
    var b := Counted(a);
    if b.items > DETAIL_TOTAL_ITEMS then Outcome(None, b)
    else if !Affords(b, framing) then Outcome(None, Charged(b, framing))
    else Trim(value, Charged(b, framing), depth + 1)
  }

  /** The first `n` elements; copying ends at the first that is left out. */
  function TrimItems(items: seq<Detail>, n: nat, a: Account, depth: nat): Run<Detail>
    requires n <= |items|
    decreases items, n
  {
    if n == 0 then Run([], a, false)
    else
      var earlier := TrimItems(items, n - 1, a, depth);
      if earlier.stopped then earlier
      else WithItem(earlier, TrimEntry(items[n - 1], Comma(n - 1), earlier.account, depth))
  }

  function WithItem(earlier: Run<Detail>, next: Outcome): Run<Detail> {
    if next.kept.None? then Run(earlier.kept, next.account, true)
    else Run(earlier.kept + [next.kept.value], next.account, false)
  }

  function TrimFields(fields: seq<Field>, n: nat, a: Account, depth: nat): Run<Field>
    requires n <= |fields|
    decreases fields, n
  {
    if n == 0 then Run([], a, false)
    else
      var earlier := TrimFields(fields, n - 1, a, depth);
      if earlier.stopped then earlier
      else
        var field := fields[n - 1];
        WithField(earlier, field.key, TrimEntry(field.value, Framing(field.key, n - 1), earlier.account, depth))
  }

  function WithField(earlier: Run<Field>, key: Units, next: Outcome): Run<Field> {
    if next.kept.None? then Run(earlier.kept, next.account, true)
    else Run(earlier.kept + [Field(key, next.kept.value)], next.account, false)
  }

  // ---------------------------------------------------------------- what a copy does

  function Used(items: nat): nat {
    if items < DETAIL_TOTAL_ITEMS then items else DETAIL_TOTAL_ITEMS
  }

  /** The limits hold as long as nothing was truncated. */
  predicate Kept(a: Account) {
    a.bytes <= DETAIL_CONTENT_BYTES && (!a.truncated ==> a.items <= DETAIL_TOTAL_ITEMS)
  }

  /** Charges only grow, and a truncation is never forgotten. */
  predicate Grows(before: Account, after: Account) {
    before.bytes <= after.bytes && before.items <= after.items && (before.truncated ==> after.truncated)
  }

  /** What a whole value asks of the budget, if it is small enough to be kept at all. */
  datatype Demand = Demand(small: bool, bytes: nat, items: nat)

  function Plus(d: Demand, e: Demand): Demand {
    Demand(d.small && e.small, d.bytes + e.bytes, d.items + e.items)
  }

  function Leaf(value: Detail): Demand {
    Demand(true, JsonLength(value), 0)
  }

  function TextDemand(text: Units): Demand {
    Demand(Utf8Length(text) <= DETAIL_STRING_BYTES, StringJson(text), 0)
  }

  function DemandOf(value: Detail, depth: nat): Demand
    decreases value, 0
  {
    var d :=
      match value
      case Str(text) => TextDemand(text)
      case Other(shown) => TextDemand(shown)
      case NonFinite(number) => Leaf(Str(NameOf(number)))
      case List(items) => Enclosed(|items|, ItemsDemand(items, |items|, depth))
      case Record(fields) => Enclosed(|fields|, FieldsDemand(fields, |fields|, depth))
      case _ => Leaf(value);
    Demand(depth < DETAIL_DEPTH && d.small, d.bytes, d.items)
  }

  function Enclosed(n: nat, d: Demand): Demand {
    Demand(n <= DETAIL_ITEMS && d.small, 2 + d.bytes, d.items)
  }

  function EntryDemand(value: Detail, framing: nat, depth: nat): Demand
    decreases value, 1
  {
    Framed(framing, DemandOf(value, depth + 1))
  }

  function Framed(framing: nat, d: Demand): Demand {
    Demand(d.small, framing + d.bytes, 1 + d.items)
  }

  /** What the first elements ask. */
  function ItemsDemand(items: seq<Detail>, n: nat, depth: nat): Demand
    requires n <= |items|
    decreases items, n
  {
    if n == 0 then Demand(true, 0, 0)
    else Plus(ItemsDemand(items, n - 1, depth), EntryDemand(items[n - 1], Comma(n - 1), depth))
  }

  function FieldsDemand(fields: seq<Field>, n: nat, depth: nat): Demand
    requires n <= |fields|
    decreases fields, n
  {
    if n == 0 then Demand(true, 0, 0)
    else
      var field := fields[n - 1];
      Plus(FieldsDemand(fields, n - 1, depth), EntryDemand(field.value, Framing(field.key, n - 1), depth))
  }

  predicate Room(a: Account, d: Demand) {
    d.small && a.bytes + d.bytes <= DETAIL_CONTENT_BYTES && a.items + d.items <= DETAIL_TOTAL_ITEMS
  }

  /** With room the charge is exact and nothing is truncated; without, something is. */
  predicate Exact(before: Account, after: Account, d: Demand) {
    if Room(before, d) then after == Account(before.bytes + d.bytes, before.items + d.items, before.truncated)
    else after.truncated
  }

  /** The limits hold, charges only grow, and they are exact. */
  predicate Settled(before: Account, after: Account, d: Demand) {
    Kept(after) && Grows(before, after) && Exact(before, after, d)
  }

  lemma SettledChain(a: Account, b: Account, c: Account, d: Demand, e: Demand)
    requires Settled(a, b, d) && Settled(b, c, e)
    ensures Settled(a, c, Plus(d, e))
    ensures Room(a, Plus(d, e)) ==> Room(a, d) && Room(b, e)
  {
  }

  lemma SettledStopped(a: Account, b: Account, d: Demand, e: Demand)
    requires Settled(a, b, d) && b.truncated && !Room(a, d)
    ensures Settled(a, b, Plus(d, e)) && !Room(a, Plus(d, e))
  {
  }

  /** The budget after a copy, and that the copy is the whole value when there is room for it. */
  ghost predicate Done(o: Outcome, before: Account, d: Demand, whole: Detail) {
    && Settled(before, o.account, d) && (o.kept.None? ==> o.account.truncated)
    && (Room(before, d) ==> o.kept == Some(whole))
  }

  lemma PrimitiveIsDone(value: Detail, a: Account)
    requires Kept(a)
    ensures Done(TrimPrimitive(value, a), a, Leaf(value), value)
  {
  }

  lemma CutIsDone(value: Detail, a: Account, d: Demand, whole: Detail)
    requires Kept(a) && !Room(a, d)
    ensures Done(TrimPrimitive(value, a.(truncated := true)), a, d, whole)
  {
  }

  lemma TextIsDone(text: Units, a: Account)
    requires Kept(a)
    ensures Done(TrimText(text, a), a, TextDemand(text), Str(text))
  {
    if Utf8Length(text) <= DETAIL_STRING_BYTES && Affords(a, StringJson(text)) {
      WholeWhenItFits(text, DETAIL_STRING_BYTES - 3, Available(a));
      PrimitiveIsDone(Str(text), a);
    } else {
      CutIsDone(Str(Fitted(text, DETAIL_STRING_BYTES - 3, Available(a))), a, TextDemand(text), Str(text));
    }
  }

  lemma EntryOfDone(a: Account, framing: nat, o: Outcome, d: Demand, whole: Detail)
    requires Kept(a) && a.items + 1 <= DETAIL_TOTAL_ITEMS && Affords(a, framing)
    requires Done(o, Account(a.bytes + framing, a.items + 1, a.truncated), d, whole)
    ensures Done(o, a, Framed(framing, d), whole)
  {
  }

  lemma EntryLeftOut(a: Account, framing: nat, o: Outcome, d: Demand, whole: Detail)
    requires Kept(a) && o == Outcome(None, Account(a.bytes, a.items + 1, true))
    requires a.items + 1 > DETAIL_TOTAL_ITEMS || !Affords(a, framing)
    ensures Done(o, a, Framed(framing, d), whole)
  {
  }

  lemma {:induction false} EntryIsDone(value: Detail, framing: nat, a: Account, depth: nat)
    requires Kept(a) && depth < DETAIL_DEPTH
    ensures Done(TrimEntry(value, framing, a, depth), a, EntryDemand(value, framing, depth), Image(value))
    decreases value, 1
  {
    var b, d := Counted(a), DemandOf(value, depth + 1);
    if b.items > DETAIL_TOTAL_ITEMS {
      EntryLeftOut(a, framing, Outcome(None, b), d, Image(value));
    } else if !Affords(b, framing) {
      EntryLeftOut(a, framing, Outcome(None, Charged(b, framing)), d, Image(value));
    } else {
      TrimIsDone(value, Charged(b, framing), depth + 1);
      EntryOfDone(a, framing, Trim(value, Charged(b, framing), depth + 1), d, Image(value));
    }
  }

  /** The charge is exact and the copy is the whole value exactly when it is small and there is room for it. */
  lemma {:induction false} TrimIsDone(value: Detail, a: Account, depth: nat)
    requires Kept(a) && depth <= DETAIL_DEPTH
    ensures Done(Trim(value, a, depth), a, DemandOf(value, depth), Image(value))
    decreases value, 0
  {
    if depth == DETAIL_DEPTH {
      CutIsDone(Str(MARKER), a, DemandOf(value, depth), Image(value));
    } else if value.List? {
      if Affords(a, 2) {
        ItemsAreDone(value.items, Width(|value.items|), Opened(a, |value.items|), depth);
        ListIsDone(value.items, a, depth,
                   TrimItems(value.items, Width(|value.items|), Opened(a, |value.items|), depth));
      }
    } else if value.Record? {
      if Affords(a, 2) {
        FieldsAreDone(value.fields, Width(|value.fields|), Opened(a, |value.fields|), depth);
        RecordIsDone(value.fields, a, depth,
                     TrimFields(value.fields, Width(|value.fields|), Opened(a, |value.fields|), depth));
      }
    } else if value.Str? {
      TextIsDone(value.text, a);
    } else if value.Other? {
      TextIsDone(value.shown, a);
    } else {
      PrimitiveIsDone(Image(value), a);
    }
  }

  ghost predicate WholeItems(kept: seq<Detail>, items: seq<Detail>, n: nat) {
    |kept| == n <= |items| && forall i :: 0 <= i < n ==> kept[i] == Image(items[i])
  }

  /** The budget after the first elements, and that they are whole when there is room for them. */
  ghost predicate ItemsDone(run: Run<Detail>, items: seq<Detail>, n: nat, a: Account, d: Demand) {
    && Settled(a, run.account, d) && (run.stopped ==> run.account.truncated && !Room(a, d))
    && (Room(a, d) ==> WholeItems(run.kept, items, n))
  }

  lemma {:induction false} ItemsAreDone(items: seq<Detail>, n: nat, a: Account, depth: nat)
    requires n <= |items| && Kept(a) && depth < DETAIL_DEPTH
    ensures ItemsDone(TrimItems(items, n, a, depth), items, n, a, ItemsDemand(items, n, depth))
    decreases items, n
  {
    if n > 0 {
      var earlier, d := TrimItems(items, n - 1, a, depth), ItemsDemand(items, n - 1, depth);
      var e := EntryDemand(items[n - 1], Comma(n - 1), depth);
      ItemsAreDone(items, n - 1, a, depth);
      if earlier.stopped {
        SettledStopped(a, earlier.account, d, e);
      } else {
        EntryIsDone(items[n - 1], Comma(n - 1), earlier.account, depth);
        NextItemDone(items, n, a, earlier, d, TrimEntry(items[n - 1], Comma(n - 1), earlier.account, depth), e);
      }
    }
  }

  lemma NextItemDone(items: seq<Detail>, n: nat, a: Account, earlier: Run<Detail>, d: Demand, next: Outcome, e: Demand)
    requires 0 < n <= |items| && ItemsDone(earlier, items, n - 1, a, d)
    requires Done(next, earlier.account, e, Image(items[n - 1]))
    ensures ItemsDone(WithItem(earlier, next), items, n, a, Plus(d, e))
  {
    SettledChain(a, earlier.account, next.account, d, e);
  }

  lemma ListIsDone(items: seq<Detail>, a: Account, depth: nat, run: Run<Detail>)
    requires Kept(a) && depth < DETAIL_DEPTH && Affords(a, 2)
    requires ItemsDone(run, items, Width(|items|), Opened(a, |items|), ItemsDemand(items, Width(|items|), depth))
    ensures Done(Outcome(Some(List(run.kept)), run.account), a, DemandOf(List(items), depth), Image(List(items)))
  {
    if WholeItems(run.kept, items, |items|) {
      WholeItemsAre(run.kept, items);
    }
    if |items| <= DETAIL_ITEMS {
      EnclosedIsDone(a, run.account, ItemsDemand(items, |items|, depth), |items|);
    }
  }

  lemma EnclosedIsDone(a: Account, now: Account, d: Demand, n: nat)
    requires Kept(a) && Affords(a, 2) && n <= DETAIL_ITEMS && Settled(Opened(a, n), now, d)
    ensures Settled(a, now, Enclosed(n, d)) && (Room(a, Enclosed(n, d)) ==> Room(Opened(a, n), d))
  {
  }

  lemma {:induction false} WholeItemsAre(kept: seq<Detail>, items: seq<Detail>)
    requires WholeItems(kept, items, |items|)
    ensures kept == ItemImages(items)
  {
    if items != [] {
      var n := |items| - 1;
      WholeItemsAre(kept[..n], items[..n]);
      assert kept == kept[..n] + [kept[n]];
    }
  }

  ghost predicate WholeFields(kept: seq<Field>, fields: seq<Field>, n: nat) {
    |kept| == n <= |fields| && forall i :: 0 <= i < n ==> kept[i] == Field(fields[i].key, Image(fields[i].value))
  }

  ghost predicate FieldsDone(run: Run<Field>, fields: seq<Field>, n: nat, a: Account, d: Demand) {
    && Settled(a, run.account, d) && (run.stopped ==> run.account.truncated && !Room(a, d))
    && (Room(a, d) ==> WholeFields(run.kept, fields, n))
  }

  lemma {:induction false} FieldsAreDone(fields: seq<Field>, n: nat, a: Account, depth: nat)
    requires n <= |fields| && Kept(a) && depth < DETAIL_DEPTH
    ensures FieldsDone(TrimFields(fields, n, a, depth), fields, n, a, FieldsDemand(fields, n, depth))
    decreases fields, n
  {
    if n > 0 {
      var earlier, d := TrimFields(fields, n - 1, a, depth), FieldsDemand(fields, n - 1, depth);
      var field, framing := fields[n - 1], Framing(fields[n - 1].key, n - 1);
      var e := EntryDemand(field.value, framing, depth);
      FieldsAreDone(fields, n - 1, a, depth);
      if earlier.stopped {
        SettledStopped(a, earlier.account, d, e);
      } else {
        EntryIsDone(field.value, framing, earlier.account, depth);
        NextFieldDone(fields, n, a, earlier, d, TrimEntry(field.value, framing, earlier.account, depth), e);
      }
    }
  }

  lemma NextFieldDone(fields: seq<Field>, n: nat, a: Account, earlier: Run<Field>, d: Demand, next: Outcome, e: Demand)
    requires 0 < n <= |fields| && FieldsDone(earlier, fields, n - 1, a, d)
    requires Done(next, earlier.account, e, Image(fields[n - 1].value))
    ensures FieldsDone(WithField(earlier, fields[n - 1].key, next), fields, n, a, Plus(d, e))
  {
    SettledChain(a, earlier.account, next.account, d, e);
  }

  lemma RecordIsDone(fields: seq<Field>, a: Account, depth: nat, run: Run<Field>)
    requires Kept(a) && depth < DETAIL_DEPTH && Affords(a, 2)
    requires FieldsDone(run, fields, Width(|fields|), Opened(a, |fields|), FieldsDemand(fields, Width(|fields|), depth))
    ensures Done(Outcome(Some(Record(run.kept)), run.account), a, DemandOf(Record(fields), depth),
                 Image(Record(fields)))
  {
    if WholeFields(run.kept, fields, |fields|) {
      WholeFieldsAre(run.kept, fields);
    }
    if |fields| <= DETAIL_ITEMS {
      EnclosedIsDone(a, run.account, FieldsDemand(fields, |fields|, depth), |fields|);
    }
  }

  lemma {:induction false} WholeFieldsAre(kept: seq<Field>, fields: seq<Field>)
    requires WholeFields(kept, fields, |fields|)
    ensures kept == FieldImages(fields)
  {
    if fields != [] {
      var n := |fields| - 1;
      WholeFieldsAre(kept[..n], fields[..n]);
      assert kept == kept[..n] + [kept[n]];
    }
  }

  // ---------------------------------------------------------------- what the charges cover

  /** The charges between two states are at least these. */
  predicate Covers(before: Account, after: Account, bytes: nat, items: nat) {
    before.bytes + bytes <= after.bytes && Used(before.items) + items <= Used(after.items)
  }

  lemma CoversChain(a: Account, b: Account, c: Account, bytes0: nat, items0: nat, bytes1: nat, items1: nat)
    requires Covers(a, b, bytes0, items0) && Covers(b, c, bytes1, items1)
    ensures Covers(a, c, bytes0 + bytes1, items0 + items1)
  {
  }

  /** What is returned has been paid for. */
  predicate Paid(o: Outcome, before: Account, framing: nat, entries: nat) {
    o.kept.Some? ==> Covers(before, o.account, framing + JsonLength(o.kept.value), entries + ItemCount(o.kept.value))
  }

  lemma {:induction false} TrimIsPaid(value: Detail, a: Account, depth: nat)
    requires Kept(a) && depth <= DETAIL_DEPTH
    ensures Paid(Trim(value, a, depth), a, 0, 0)
    decreases value, 0
  {
    if depth < DETAIL_DEPTH && Affords(a, 2) {
      if value.List? {
        var run := TrimItems(value.items, Width(|value.items|), Opened(a, |value.items|), depth);
        ItemsArePaid(value.items, Width(|value.items|), Opened(a, |value.items|), depth);
        CoversChain(a, Opened(a, |value.items|), run.account, 2, 0, ItemsLength(run.kept), ItemsCount(run.kept));
      } else if value.Record? {
        var run := TrimFields(value.fields, Width(|value.fields|), Opened(a, |value.fields|), depth);
        FieldsArePaid(value.fields, Width(|value.fields|), Opened(a, |value.fields|), depth);
        CoversChain(a, Opened(a, |value.fields|), run.account, 2, 0, FieldsLength(run.kept), FieldsCount(run.kept));
      }
    }
  }

  lemma {:induction false} EntryIsPaid(value: Detail, framing: nat, a: Account, depth: nat)
    requires Kept(a) && depth < DETAIL_DEPTH
    ensures Paid(TrimEntry(value, framing, a, depth), a, framing, 1)
    decreases value, 1
  {
    var b := Counted(a);
    if b.items <= DETAIL_TOTAL_ITEMS && Affords(b, framing) {
      var o := Trim(value, Charged(b, framing), depth + 1);
      TrimIsPaid(value, Charged(b, framing), depth + 1);
      if o.kept.Some? {
        CoversChain(a, Charged(b, framing), o.account, framing, 1, JsonLength(o.kept.value), ItemCount(o.kept.value));
      }
    }
  }

  predicate PaidItems(run: Run<Detail>, n: nat, before: Account) {
    && Covers(before, run.account, ItemsLength(run.kept), ItemsCount(run.kept))
    && |run.kept| <= n && (!run.stopped ==> |run.kept| == n)
  }

  lemma {:induction false} ItemsArePaid(items: seq<Detail>, n: nat, a: Account, depth: nat)
    requires n <= |items| && Kept(a) && depth < DETAIL_DEPTH
    ensures PaidItems(TrimItems(items, n, a, depth), n, a)
    decreases items, n
  {
    if n > 0 {
      var earlier := TrimItems(items, n - 1, a, depth);
      ItemsArePaid(items, n - 1, a, depth);
      ItemsAreDone(items, n - 1, a, depth);
      if !earlier.stopped {
        EntryIsDone(items[n - 1], Comma(n - 1), earlier.account, depth);
        EntryIsPaid(items[n - 1], Comma(n - 1), earlier.account, depth);
        NextItemPaid(n, a, earlier, TrimEntry(items[n - 1], Comma(n - 1), earlier.account, depth));
      }
    }
  }

  lemma NextItemPaid(n: nat, a: Account, earlier: Run<Detail>, next: Outcome)
    requires n > 0 && PaidItems(earlier, n - 1, a) && !earlier.stopped
    requires Grows(earlier.account, next.account) && Paid(next, earlier.account, Comma(n - 1), 1)
    ensures PaidItems(WithItem(earlier, next), n, a)
  {
    if next.kept.Some? {
      assert (earlier.kept + [next.kept.value])[..n - 1] == earlier.kept;
    }
  }

  predicate PaidFields(run: Run<Field>, n: nat, before: Account) {
    && Covers(before, run.account, FieldsLength(run.kept), FieldsCount(run.kept))
    && |run.kept| <= n && (!run.stopped ==> |run.kept| == n)
  }

  lemma {:induction false} FieldsArePaid(fields: seq<Field>, n: nat, a: Account, depth: nat)
    requires n <= |fields| && Kept(a) && depth < DETAIL_DEPTH
    ensures PaidFields(TrimFields(fields, n, a, depth), n, a)
    decreases fields, n
  {
    if n > 0 {
      var earlier := TrimFields(fields, n - 1, a, depth);
      FieldsArePaid(fields, n - 1, a, depth);
      FieldsAreDone(fields, n - 1, a, depth);
      if !earlier.stopped {
        var field, framing := fields[n - 1], Framing(fields[n - 1].key, n - 1);
        EntryIsDone(field.value, framing, earlier.account, depth);
        EntryIsPaid(field.value, framing, earlier.account, depth);
        NextFieldPaid(field.key, n, a, earlier, TrimEntry(field.value, framing, earlier.account, depth));
      }
    }
  }

  lemma NextFieldPaid(key: Units, n: nat, a: Account, earlier: Run<Field>, next: Outcome)
    requires n > 0 && PaidFields(earlier, n - 1, a) && !earlier.stopped
    requires Grows(earlier.account, next.account) && Paid(next, earlier.account, Framing(key, n - 1), 1)
    ensures PaidFields(WithField(earlier, key, next), n, a)
  {
    if next.kept.Some? {
      FieldsMore(earlier.kept, Field(key, next.kept.value));
    }
  }

  // ---------------------------------------------------------------- what is left of a value

  /**
   * Of a list or a record the first entries, at most twenty, each trimmed itself and under its own
   * key; of a text its beginning, within the limit; the marker for whatever is too deep; anything
   * else whole.
   */
  ghost predicate Trimmed(kept: Detail, original: Detail, depth: nat)
    decreases original
  {
    if depth >= DETAIL_DEPTH then kept == Str(MARKER)
    else
      match original
      case Str(text) => TrimmedText(kept, text)
      case Other(shown) => TrimmedText(kept, shown)
      case List(items) =>
        && kept.List? && |kept.items| <= Width(|items|)
        && forall i :: 0 <= i < |kept.items| ==> Trimmed(kept.items[i], items[i], depth + 1)
      case Record(fields) =>
        && kept.Record? && |kept.fields| <= Width(|fields|)
        && forall i :: 0 <= i < |kept.fields| ==>
             kept.fields[i].key == fields[i].key && Trimmed(kept.fields[i].value, fields[i].value, depth + 1)
      case _ => kept == Image(original)
  }

  ghost predicate TrimmedText(kept: Detail, text: Units) {
    kept.Str? && CutFrom(kept.text, text) && Utf8Length(kept.text) <= DETAIL_STRING_BYTES
  }

  lemma {:induction false} TrimIsTrimmed(value: Detail, a: Account, depth: nat)
    ensures var o := Trim(value, a, depth); o.kept.Some? ==> Trimmed(o.kept.value, value, depth)
    decreases value, 0
  {
    if depth < DETAIL_DEPTH {
      match value {
        case Str(text) => FittedIsCut(text, DETAIL_STRING_BYTES - 3, Available(a));
        case Other(shown) => FittedIsCut(shown, DETAIL_STRING_BYTES - 3, Available(a));
        case List(items) => ItemsAreTrimmed(items, Width(|items|), Opened(a, |items|), depth);
        case Record(fields) => FieldsAreTrimmed(fields, Width(|fields|), Opened(a, |fields|), depth);
        case _ =>
      }
    }
  }

  ghost predicate TrimmedItems(kept: seq<Detail>, items: seq<Detail>, n: nat, depth: nat) {
    |kept| <= n <= |items| && forall i :: 0 <= i < |kept| ==> Trimmed(kept[i], items[i], depth + 1)
  }

  lemma {:induction false} ItemsAreTrimmed(items: seq<Detail>, n: nat, a: Account, depth: nat)
    requires n <= |items|
    ensures RunIsTrimmed(TrimItems(items, n, a, depth), items, n, depth)
    decreases items, n
  {
    if n > 0 {
      var earlier := TrimItems(items, n - 1, a, depth);
      ItemsAreTrimmed(items, n - 1, a, depth);
      if !earlier.stopped {
        EntryIsTrimmed(items[n - 1], Comma(n - 1), earlier.account, depth);
        NextItemTrimmed(items, n, depth, earlier, TrimEntry(items[n - 1], Comma(n - 1), earlier.account, depth));
      }
    }
  }

  ghost predicate RunIsTrimmed(run: Run<Detail>, items: seq<Detail>, n: nat, depth: nat) {
    TrimmedItems(run.kept, items, n, depth) && (!run.stopped ==> |run.kept| == n)
  }

  lemma NextItemTrimmed(items: seq<Detail>, n: nat, depth: nat, earlier: Run<Detail>, next: Outcome)
    requires 0 < n <= |items| && RunIsTrimmed(earlier, items, n - 1, depth) && !earlier.stopped
    requires next.kept.Some? ==> Trimmed(next.kept.value, items[n - 1], depth + 1)
    ensures RunIsTrimmed(WithItem(earlier, next), items, n, depth)
  {
  }

  lemma {:induction false} EntryIsTrimmed(value: Detail, framing: nat, a: Account, depth: nat)
    ensures var o := TrimEntry(value, framing, a, depth); o.kept.Some? ==> Trimmed(o.kept.value, value, depth + 1)
    decreases value, 1
  {
    TrimIsTrimmed(value, Charged(Counted(a), framing), depth + 1);
  }

  ghost predicate TrimmedFields(kept: seq<Field>, fields: seq<Field>, n: nat, depth: nat) {
    && |kept| <= n <= |fields|
    && forall i :: 0 <= i < |kept| ==>
         kept[i].key == fields[i].key && Trimmed(kept[i].value, fields[i].value, depth + 1)
  }

  lemma {:induction false} FieldsAreTrimmed(fields: seq<Field>, n: nat, a: Account, depth: nat)
    requires n <= |fields|
    ensures FieldRunIsTrimmed(TrimFields(fields, n, a, depth), fields, n, depth)
    decreases fields, n
  {
    if n > 0 {
      var earlier, field := TrimFields(fields, n - 1, a, depth), fields[n - 1];
      FieldsAreTrimmed(fields, n - 1, a, depth);
      if !earlier.stopped {
        var framing := Framing(field.key, n - 1);
        EntryIsTrimmed(field.value, framing, earlier.account, depth);
        NextFieldTrimmed(fields, n, depth, earlier, TrimEntry(field.value, framing, earlier.account, depth));
      }
    }
  }

  ghost predicate FieldRunIsTrimmed(run: Run<Field>, fields: seq<Field>, n: nat, depth: nat) {
    TrimmedFields(run.kept, fields, n, depth) && (!run.stopped ==> |run.kept| == n)
  }

  lemma NextFieldTrimmed(fields: seq<Field>, n: nat, depth: nat, earlier: Run<Field>, next: Outcome)
    requires 0 < n <= |fields| && FieldRunIsTrimmed(earlier, fields, n - 1, depth) && !earlier.stopped
    requires next.kept.Some? ==> Trimmed(next.kept.value, fields[n - 1].value, depth + 1)
    ensures FieldRunIsTrimmed(WithField(earlier, fields[n - 1].key, next), fields, n, depth)
  {
  }

  lemma {:induction false} TrimmedIsBounded(kept: Detail, original: Detail, depth: nat)
    requires Trimmed(kept, original, depth)
    ensures Bounded(kept, depth)
    decreases original
  {
    if depth >= DETAIL_DEPTH {
      ThreeBytesPerUnit(MARKER);
    } else {
      match original {
        case NonFinite(number) => ThreeBytesPerUnit(NameOf(number));
        case List(items) =>
          forall i | 0 <= i < |kept.items| ensures Bounded(kept.items[i], depth + 1) {
            TrimmedIsBounded(kept.items[i], items[i], depth + 1);
          }
        case Record(fields) =>
          forall i | 0 <= i < |kept.fields| ensures Bounded(kept.fields[i].value, depth + 1) {
            TrimmedIsBounded(kept.fields[i].value, fields[i].value, depth + 1);
          }
        case _ =>
      }
    }
  }

  // ---------------------------------------------------------------- what the demand is

  lemma ItemsSum(items: seq<Detail>, i: nat)
    requires i < |items|
    ensures ItemsLength(ItemImages(items[..i + 1]))
            == ItemsLength(ItemImages(items[..i])) + (Comma(i) + JsonLength(Image(items[i])))
    ensures ItemsCount(items[..i + 1]) == ItemsCount(items[..i]) + (1 + ItemCount(items[i]))
  {
    ItemsStep(items, i);
  }

  lemma FieldsSum(fields: seq<Field>, i: nat)
    requires i < |fields|
    ensures FieldsLength(FieldImages(fields[..i + 1]))
            == FieldsLength(FieldImages(fields[..i])) + (Framing(fields[i].key, i) + JsonLength(Image(fields[i].value)))
    ensures FieldsCount(fields[..i + 1]) == FieldsCount(fields[..i]) + (1 + ItemCount(fields[i].value))
  {
    FieldsStep(fields, i);
    FieldsMore(FieldImages(fields[..i]), Field(fields[i].key, Image(fields[i].value)));
  }

  predicate SmallItems(items: seq<Detail>, n: nat, depth: nat)
    requires n <= |items|
  {
    forall i :: 0 <= i < n ==> Small(items[i], depth + 1)
  }

  predicate SmallFields(fields: seq<Field>, n: nat, depth: nat)
    requires n <= |fields|
  {
    forall i :: 0 <= i < n ==> Small(fields[i].value, depth + 1)
  }

  /** The same sizes, measured on the whole image. */
  function Measure(value: Detail, depth: nat): Demand {
    Demand(Small(value, depth), JsonLength(Image(value)), ItemCount(value))
  }

  function ItemsMeasure(items: seq<Detail>, n: nat, depth: nat): Demand
    requires n <= |items|
  {
    Demand(SmallItems(items, n, depth), ItemsLength(ItemImages(items[..n])), ItemsCount(items[..n]))
  }

  function FieldsMeasure(fields: seq<Field>, n: nat, depth: nat): Demand
    requires n <= |fields|
  {
    Demand(SmallFields(fields, n, depth), FieldsLength(FieldImages(fields[..n])), FieldsCount(fields[..n]))
  }

  lemma ItemsMeasureStep(items: seq<Detail>, n: nat, depth: nat)
    requires 0 < n <= |items|
    ensures ItemsMeasure(items, n, depth)
            == Plus(ItemsMeasure(items, n - 1, depth), Framed(Comma(n - 1), Measure(items[n - 1], depth + 1)))
  {
    ItemsSum(items, n - 1);
    SmallItemsMore(items, n, depth);
  }

  lemma SmallItemsMore(items: seq<Detail>, n: nat, depth: nat)
    requires 0 < n <= |items|
    ensures SmallItems(items, n, depth) == (SmallItems(items, n - 1, depth) && Small(items[n - 1], depth + 1))
  {
  }

  lemma FieldsMeasureStep(fields: seq<Field>, n: nat, depth: nat)
    requires 0 < n <= |fields|
    ensures FieldsMeasure(fields, n, depth)
            == Plus(FieldsMeasure(fields, n - 1, depth),
                    Framed(Framing(fields[n - 1].key, n - 1), Measure(fields[n - 1].value, depth + 1)))
  {
    FieldsSum(fields, n - 1);
    SmallFieldsMore(fields, n, depth);
  }

  lemma SmallFieldsMore(fields: seq<Field>, n: nat, depth: nat)
    requires 0 < n <= |fields|
    ensures SmallFields(fields, n, depth)
              == (SmallFields(fields, n - 1, depth) && Small(fields[n - 1].value, depth + 1))
  {
  }

  /** A value asks for its JSON text and its items, and is small if every part is. */
  lemma {:induction false} DemandIs(value: Detail, depth: nat)
    ensures DemandOf(value, depth) == Measure(value, depth)
    decreases value, 0
  {
    match value {
      case List(items) =>
        ItemsDemandIs(items, |items|, depth);
        assert items[..|items|] == items;
      case Record(fields) =>
        FieldsDemandIs(fields, |fields|, depth);
        assert fields[..|fields|] == fields;
      case _ =>
    }
  }

  lemma {:induction false} ItemsDemandIs(items: seq<Detail>, n: nat, depth: nat)
    requires n <= |items|
    ensures ItemsDemand(items, n, depth) == ItemsMeasure(items, n, depth)
    decreases items, n
  {
    if n > 0 {
      ItemsDemandIs(items, n - 1, depth);
      DemandIs(items[n - 1], depth + 1);
      ItemsMeasureStep(items, n, depth);
    }
  }

  lemma {:induction false} FieldsDemandIs(fields: seq<Field>, n: nat, depth: nat)
    requires n <= |fields|
    ensures FieldsDemand(fields, n, depth) == FieldsMeasure(fields, n, depth)
    decreases fields, n
  {
    if n > 0 {
      FieldsDemandIs(fields, n - 1, depth);
      DemandIs(fields[n - 1].value, depth + 1);
      FieldsMeasureStep(fields, n, depth);
    }
  }

  // ---------------------------------------------------------------- strings, and whole diagnostics

  /** A string is a truncation exactly when it is too long or does not fit; a whole one is charged as it is. */
  lemma TextIsWhole(text: Units, a: Account)
    requires Kept(a)
    ensures var o := TrimText(text, a);
            var fits := Utf8Length(text) <= DETAIL_STRING_BYTES && Affords(a, StringJson(text));
            && (o.account.truncated <==> a.truncated || !fits)
            && (fits ==> o == Outcome(Some(Str(text)), Charged(a, StringJson(text))))
  {
    if Utf8Length(text) <= DETAIL_STRING_BYTES && Affords(a, StringJson(text)) {
      WholeWhenItFits(text, DETAIL_STRING_BYTES - 3, Available(a));
    }
  }

  /** A string is left out only when not even its quotes fit. */
  lemma TextIsKept(text: Units, a: Account)
    requires Kept(a)
    ensures TrimText(text, a).kept.Some? <==> Affords(a, 2)
  {
    if Affords(a, 2) {
      FittedHasRoom(text, DETAIL_STRING_BYTES - 3, Available(a));
    }
  }

  /**
   * What is kept of a string begins like it and continues with dots only; a string that was cut
   * ends in three dots if there is room for them, and keeps as much as fits beside them.
   */
  lemma TextIsTrimmed(text: Units, a: Account)
    requires Kept(a) && TrimText(text, a).kept.Some?
    ensures TrimmedText(TrimText(text, a).kept.value, text)
    ensures var kept := TrimText(text, a).kept.value.text;
            kept != text ==>
              && IsTight(kept, text, DETAIL_STRING_BYTES - 3, Available(a))
              && (Affords(a, 5) ==> |kept| >= 3 && kept[|kept| - 3..] == SUFFIX)
  {
    FittedIsCut(text, DETAIL_STRING_BYTES - 3, Available(a));
    FittedIsTight(text, DETAIL_STRING_BYTES - 3, Available(a));
  }

  /** Everything fits: then, and only then, nothing is left out. */
  predicate Fits(details: Detail) {
    && Small(details, 0)
    && JsonLength(Image(details)) <= DETAIL_CONTENT_BYTES && ItemCount(details) <= DETAIL_TOTAL_ITEMS
  }

  const FRESH := Account(0, 0, false)

  /** From a fresh budget nothing is truncated, and the copy is the whole value, exactly when everything fits. */
  lemma FreshIsExact(details: Detail)
    ensures IsExact(Trim(details, FRESH, 0), Fits(details), Image(details))
  {
    TrimIsDone(details, FRESH, 0);
    DemandIs(details, 0);
    DoneIsExact(Trim(details, FRESH, 0), Measure(details, 0), Image(details));
  }

  ghost predicate IsExact(o: Outcome, fits: bool, whole: Detail) {
    (o.account.truncated <==> !fits) && (fits ==> o.kept == Some(whole))
  }

  lemma DoneIsExact(o: Outcome, d: Demand, whole: Detail)
    requires Done(o, FRESH, d, whole)
    ensures IsExact(o, Room(FRESH, d), whole)
  {
  }

  /** What is kept is charged, trimmed and bounded; of a record there is always something left. */
  lemma FreshIsBounded(details: Detail)
    ensures var o := Trim(details, FRESH, 0);
            && (details.Record? ==> o.kept.Some?) && (o.kept.Some? ==> WithinLimits(o.kept.value, details))
  {
    var o := Trim(details, FRESH, 0);
    TrimIsTrimmed(details, FRESH, 0);
    if o.kept.Some? {
      FreshIsPaid(details);
      TrimmedIsBounded(o.kept.value, details, 0);
    }
  }

  lemma FreshIsPaid(details: Detail)
    ensures var o := Trim(details, FRESH, 0);
            o.kept.Some? ==>
              JsonLength(o.kept.value) <= DETAIL_CONTENT_BYTES && ItemCount(o.kept.value) <= DETAIL_TOTAL_ITEMS
  {
    TrimIsDone(details, FRESH, 0);
    TrimIsPaid(details, FRESH, 0);
  }

  ghost predicate WithinLimits(kept: Detail, details: Detail) {
    && Trimmed(kept, details, 0) && Bounded(kept, 0)
    && JsonLength(kept) <= DETAIL_CONTENT_BYTES && ItemCount(kept) <= DETAIL_TOTAL_ITEMS
  }
}
