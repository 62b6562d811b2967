/** Canonical memories: retired once, never deleted; an import is accepted exactly when the union is valid. */
module MemoryStore {
  import opened Values
  import opened Graphs
  import opened Supersession

  datatype Tombstone = Tombstone(id: Id, target: Id, content: string)

  datatype State = State(records: seq<Record>, tombstones: seq<Tombstone>)

  const EMPTY: State := State([], [])

  function TombstoneIds(tombstones: seq<Tombstone>): seq<Id> {
    seq(|tombstones|, i requires 0 <= i < |tombstones| => tombstones[i].id)
  }

  function TombstoneTargets(tombstones: seq<Tombstone>): seq<Id> {
    seq(|tombstones|, i requires 0 <= i < |tombstones| => tombstones[i].target)
  }

  /** All identities, of records and of tombstones. */
  function Ids(state: State): seq<Id> {
    RecordIds(state.records) + TombstoneIds(state.tombstones)
  }

  /** Every transition out of the active state, by its target. */
  function Retired(state: State): seq<Id> {
    Superseded(state.records) + TombstoneTargets(state.tombstones)
  }

  function Active(state: State): set<Id> {
    set id | id in RecordIds(state.records) && id !in Retired(state)
  }

  ghost predicate Resolves(state: State) {
    forall id :: id in Retired(state) ==> id in RecordIds(state.records)
  }

  ghost predicate Valid(state: State) {
    Once(Ids(state)) && Resolves(state) && Once(Retired(state)) && Acyclic(EdgesOf(state.records))
  }

  datatype Kind = BySupersession | ByTombstone

  datatype Error =
    | InvalidDocument(id: Id)
    | IdExists(id: Id)
    | NotFound(id: Id)
    | NotActive(id: Id)
    | BrokenReference(id: Id)
    | BothRetired(id: Id)
    | AlreadyInactive(id: Id)
    | MultipleRetirements(id: Id, kind: Kind)
    | CyclicSupersession(id: Id)

  function Union(a: State, b: State): State {
    State(a.records + b.records, a.tombstones + b.tombstones)
  }

  lemma UnionIds(a: State, b: State)
    ensures multiset(Ids(Union(a, b))) == multiset(Ids(a)) + multiset(Ids(b))
    ensures RecordIds(Union(a, b).records) == RecordIds(a.records) + RecordIds(b.records)
  {
    assert RecordIds(a.records + b.records) == RecordIds(a.records) + RecordIds(b.records);
    assert TombstoneIds(a.tombstones + b.tombstones) == TombstoneIds(a.tombstones) + TombstoneIds(b.tombstones);
  }

  lemma UnionRetired(a: State, b: State)
    ensures multiset(Retired(Union(a, b))) == multiset(Retired(a)) + multiset(Retired(b))
  {
    SupersededConcat(a.records, b.records);
    TombstoneTargetsConcat(a.tombstones, b.tombstones);
    Regrouped(Superseded(a.records), Superseded(b.records), TombstoneTargets(a.tombstones),
              TombstoneTargets(b.tombstones));
  }

  lemma TombstoneTargetsConcat(a: seq<Tombstone>, b: seq<Tombstone>)
    ensures TombstoneTargets(a + b) == TombstoneTargets(a) + TombstoneTargets(b)
  {
  }

  lemma Regrouped(w: seq<Id>, x: seq<Id>, y: seq<Id>, z: seq<Id>)
    ensures multiset((w + x) + (y + z)) == multiset(w + y) + multiset(x + z)
  {
  }

  lemma InRetiredOfUnion(a: State, b: State, id: Id)
    ensures id in Retired(Union(a, b)) <==> id in Retired(a) || id in Retired(b)
  {
    UnionRetired(a, b);
    assert id in Retired(Union(a, b)) <==> id in multiset(Retired(Union(a, b)));
  }

  // ---------------------------------------------------------------- loaded states

  /** Resolves references, rejects cycles, and returns the records that remain active. */
  method ValidateAndClassifySnapshot(state: State) returns (result: Result<set<Id>, Error>)
    ensures result.Ok? <==> Resolves(state) && Acyclic(EdgesOf(state.records))
    ensures result.Ok? ==> result.value == Active(state)
    ensures result.Err? ==> match result.error {
      case BrokenReference(id) => id in Retired(state) && id !in RecordIds(state.records)
      case CyclicSupersession(id) => CycleAt(EdgesOf(state.records), id)
      case _ => false
    }
  {
    var broken := FirstBroken(Superseded(state.records), state.records);
    if broken.None? {
      broken := FirstBroken(TombstoneTargets(state.tombstones), state.records);
    }
    if broken.Some? {
      return Err(BrokenReference(broken.value));
    }
    var cycle := Supersession.AssertAcyclic(state.records);
    if cycle.Some? {
      return Err(CyclicSupersession(cycle.value));
    }
    result := Ok(Active(state));
  }

  method FirstBroken(targets: seq<Id>, records: seq<Record>) returns (broken: Option<Id>)
    ensures broken.None? <==> forall id :: id in targets ==> id in RecordIds(records)
    ensures broken.Some? ==> broken.value in targets && broken.value !in RecordIds(records)
  {
    for i := 0 to |targets|
      invariant forall k :: 0 <= k < i ==> targets[k] in RecordIds(records)
    {
      if targets[i] !in RecordIds(records) {
        return Some(targets[i]);
      }
    }
    broken := None;
  }

  // ---------------------------------------------------------------- single retirement

  datatype Retirement = Retirement(target: Id, kind: Kind, imported: bool)

  function Targets(events: seq<Retirement>): seq<Id> {
    seq(|events|, i requires 0 <= i < |events| => events[i].target)
  }

  function Marked(ids: seq<Id>, kind: Kind, imported: bool): seq<Retirement> {
    seq(|ids|, i requires 0 <= i < |ids| => Retirement(ids[i], kind, imported))
  }

  /** All retirements in the order in which they are examined. */
  function Events(state: State, batch: State): seq<Retirement> {
    Marked(Superseded(state.records), BySupersession, false) +
    Marked(TombstoneTargets(state.tombstones), ByTombstone, false) +
    Marked(Superseded(batch.records), BySupersession, true) +
    Marked(TombstoneTargets(batch.tombstones), ByTombstone, true)
  }

  function ErrorOf(previous: Retirement, next: Retirement): (error: Error)
    ensures error == BothRetired(next.target) <==> previous.kind.BySupersession? == next.kind.ByTombstone?
    ensures error == AlreadyInactive(next.target) <==>
              previous.kind == next.kind && (previous.imported, next.imported) == (false, true)
    ensures error.BothRetired? || error.AlreadyInactive? || error == MultipleRetirements(next.target, previous.kind)
  {
    if previous.kind != next.kind then BothRetired(next.target)
    else if next.imported && !previous.imported then AlreadyInactive(next.target)
    else MultipleRetirements(next.target, next.kind)
  }

  /** The error describes the first retirement whose target was already retired. */
  ghost predicate Conflicted(events: seq<Retirement>, error: Error) {
    exists i, j :: Conflict(events, i, j) && error == ErrorOf(events[i], events[j])
  }

  ghost predicate Conflict(events: seq<Retirement>, i: int, j: int) {
    0 <= i < j < |events| && events[i].target == events[j].target && Once(Targets(events[..j]))
  }

  lemma ConflictRemains(events: seq<Retirement>, more: seq<Retirement>, error: Error)
    requires Conflicted(events, error)
    ensures Conflicted(events + more, error)
  {
    var i, j :| Conflict(events, i, j) && error == ErrorOf(events[i], events[j]);
    assert (events + more)[..j] == events[..j];
    assert Conflict(events + more, i, j);
  }

  lemma ConflictRepeats(events: seq<Retirement>, error: Error)
    requires Conflicted(events, error)
    ensures !Once(Targets(events))
  {
    var i, j :| Conflict(events, i, j) && error == ErrorOf(events[i], events[j]);
    RepeatedTwice(Targets(events), i, j);
  }

  lemma RepeatedTwice(ids: seq<Id>, i: nat, j: nat)
    requires i < j < |ids| && ids[i] == ids[j]
    ensures multiset(ids)[ids[i]] >= 2
  {
    assert ids == ids[..i] + [ids[i]] + ids[i + 1..j] + [ids[j]] + ids[j + 1..];
  }

  lemma TargetsOfEvents(state: State, batch: State)
    ensures multiset(Targets(Events(state, batch))) == multiset(Retired(Union(state, batch)))
  {
    UnionRetired(state, batch);
    var a, b := Marked(Superseded(state.records), BySupersession, false),
                  Marked(TombstoneTargets(state.tombstones), ByTombstone, false);
    var c, d := Marked(Superseded(batch.records), BySupersession, true),
                  Marked(TombstoneTargets(batch.tombstones), ByTombstone, true);
    TargetsConcat(a + b + c, d);
    TargetsConcat(a + b, c);
    TargetsConcat(a, b);
    MarkedTargets(Superseded(state.records), BySupersession, false);
    MarkedTargets(TombstoneTargets(state.tombstones), ByTombstone, false);
    MarkedTargets(Superseded(batch.records), BySupersession, true);
    MarkedTargets(TombstoneTargets(batch.tombstones), ByTombstone, true);
    assert Targets(Events(state, batch)) == Retired(state) + Targets(c) + Targets(d);
  }

  lemma TargetsConcat(a: seq<Retirement>, b: seq<Retirement>)
    ensures Targets(a + b) == Targets(a) + Targets(b)
  {
  }

  lemma MarkedTargets(ids: seq<Id>, kind: Kind, imported: bool)
    ensures Targets(Marked(ids, kind, imported)) == ids
  {
  }

  class Retirements {
    var known: map<Id, Retirement>
    ghost var events: seq<Retirement>

    constructor ()
      ensures Valid() && events == []
    {
      known, events := map[], [];
    }

    ghost predicate Valid()
      reads this
    {
      && Once(Targets(events))
      && (forall id :: id in known <==> id in Targets(events))
      && forall i :: 0 <= i < |events| ==> events[i].target in known && known[events[i].target] == events[i]
    }

    method Retire(retirement: Retirement) returns (error: Option<Error>)
      requires Valid()
      modifies this
      ensures events == old(events) + [retirement]
      ensures error.None? ==> Valid()
      ensures error.Some? ==> Conflicted(events, error.value)
    {
      events := events + [retirement];
      ghost var before := old(events);
      assert Targets(events) == Targets(before) + [retirement.target];
      if retirement.target !in known {
        OnceMore(Targets(before), retirement.target);
        known := known[retirement.target := retirement];
        return None;
      }
      error := Some(ErrorOf(known[retirement.target], retirement));
      ghost var i :| 0 <= i < |before| && Targets(before)[i] == retirement.target;
      assert events[..|before|] == before;
      assert Conflict(events, i, |before|);
    }

    method RetireAll(ids: seq<Id>, kind: Kind, imported: bool) returns (error: Option<Error>)
      requires Valid()
      modifies this
      ensures error.None? ==> Valid() && events == old(events) + Marked(ids, kind, imported)
      ensures error.Some? ==> Conflicted(old(events) + Marked(ids, kind, imported), error.value)
    {
      ghost var before := old(events);
      assert ids[..|ids|] == ids;
      for i := 0 to |ids|
        invariant Valid() && events == before + Marked(ids[..i], kind, imported)
      {
        MarkedMore(before, ids, i, kind, imported);
        error := Retire(Retirement(ids[i], kind, imported));
        if error.Some? {
          MarkedPrefix(before, ids, i + 1, kind, imported, error.value);
          return;
        }
      }
      error := None;
    }

    method RetireSuperseded(records: seq<Record>, imported: bool) returns (error: Option<Error>)
      requires Valid()
      modifies this
      ensures error.None? ==> Valid() && events == old(events) + Marked(Superseded(records), BySupersession, imported)
      ensures error.Some? ==>
                Conflicted(old(events) + Marked(Superseded(records), BySupersession, imported), error.value)
    {
      ghost var before := old(events);
      for i := 0 to |records|
        invariant Valid() && events == before + Marked(Superseded(records[..i]), BySupersession, imported)
      {
        MarkedStep(before, records, i, imported);
        error := RetireAll(records[i].supersedes, BySupersession, imported);
        if error.Some? {
          SupersededPrefix(records, i + 1);
          MarkedPrefix(before, Superseded(records), |Superseded(records[..i + 1])|, BySupersession, imported,
                       error.value);
          return;
        }
      }
      assert records[..|records|] == records;
      error := None;
    }
  }

  lemma MarkedStep(before: seq<Retirement>, records: seq<Record>, i: nat, imported: bool)
    requires i < |records|
    ensures before + Marked(Superseded(records[..i]), BySupersession, imported) +
              Marked(records[i].supersedes, BySupersession, imported)
         == before + Marked(Superseded(records[..i + 1]), BySupersession, imported)
  {
    assert records[..i + 1][..i] == records[..i];
    assert Superseded(records[..i + 1]) == Superseded(records[..i]) + records[i].supersedes;
  }

  lemma MarkedMore(before: seq<Retirement>, ids: seq<Id>, i: nat, kind: Kind, imported: bool)
    requires i < |ids|
    ensures before + Marked(ids[..i], kind, imported) + [Retirement(ids[i], kind, imported)]
         == before + Marked(ids[..i + 1], kind, imported)
  {
    assert Marked(ids[..i + 1], kind, imported)
             == Marked(ids[..i], kind, imported) + [Retirement(ids[i], kind, imported)];
  }

  lemma MarkedConcat(a: seq<Id>, b: seq<Id>, kind: Kind, imported: bool)
    ensures Marked(a + b, kind, imported) == Marked(a, kind, imported) + Marked(b, kind, imported)
  {
  }

  lemma MarkedPrefix(before: seq<Retirement>, ids: seq<Id>, n: nat, kind: Kind, imported: bool, error: Error)
    requires n <= |ids| && Conflicted(before + Marked(ids[..n], kind, imported), error)
    ensures Conflicted(before + Marked(ids, kind, imported), error)
  {
    var first, rest := Marked(ids[..n], kind, imported), Marked(ids[n..], kind, imported);
    assert ids == ids[..n] + ids[n..];
    MarkedConcat(ids[..n], ids[n..], kind, imported);
    Regroup(before, first, rest);
    ConflictRemains(before + first, rest, error);
  }

  lemma Regroup(a: seq<Retirement>, b: seq<Retirement>, c: seq<Retirement>)
    ensures a + (b + c) == a + b + c
  {
  }

  lemma SupersededPrefix(records: seq<Record>, n: nat)
    requires n <= |records|
    ensures Superseded(records[..n]) <= Superseded(records)
    ensures Superseded(records)[..|Superseded(records[..n])|] == Superseded(records[..n])
  {
    assert records == records[..n] + records[n..];
    SupersededConcat(records[..n], records[n..]);
  }

  /** Every target has at most one transition out of the active state, or the first clash is named. */
  method AssertSingleRetirement(state: State, batch: State) returns (error: Option<Error>)
    ensures error.None? <==> Once(Retired(Union(state, batch)))
    ensures error.Some? ==> Conflicted(Events(state, batch), error.value)
  {
    var retirements := new Retirements();
    error := retirements.RetireSuperseded(state.records, false);
    ghost var a := Marked(Superseded(state.records), BySupersession, false);
    ghost var b := Marked(TombstoneTargets(state.tombstones), ByTombstone, false);
    ghost var c := Marked(Superseded(batch.records), BySupersession, true);
    ghost var d := Marked(TombstoneTargets(batch.tombstones), ByTombstone, true);
    if error.None? {
      error := retirements.RetireAll(TombstoneTargets(state.tombstones), ByTombstone, false);
      if error.None? {
        error := retirements.RetireSuperseded(batch.records, true);
        if error.None? {
          error := retirements.RetireAll(TombstoneTargets(batch.tombstones), ByTombstone, true);
        }
      }
    }
    Clash(state, batch, a, b, c, d, error);
  }

  lemma Clash(state: State, batch: State, a: seq<Retirement>, b: seq<Retirement>, c: seq<Retirement>,
              d: seq<Retirement>, error: Option<Error>)
    requires Events(state, batch) == a + b + c + d
    requires error.None? ==> Once(Targets([] + a + b + c + d))
    requires error.Some? ==>
               || Conflicted([] + a, error.value) || Conflicted([] + a + b, error.value)
               || Conflicted([] + a + b + c, error.value) || Conflicted([] + a + b + c + d, error.value)
    ensures error.None? <==> Once(Retired(Union(state, batch)))
    ensures error.Some? ==> Conflicted(Events(state, batch), error.value)
  {
    assert [] + a + b + c + d == Events(state, batch);
    TargetsOfEvents(state, batch);
    if error.Some? {
      ConflictStays(a, b, c, d, error.value);
      ConflictRepeats(Events(state, batch), error.value);
    }
  }

  lemma ConflictStays(a: seq<Retirement>, b: seq<Retirement>, c: seq<Retirement>, d: seq<Retirement>, error: Error)
    requires || Conflicted([] + a, error) || Conflicted([] + a + b, error)
             || Conflicted([] + a + b + c, error) || Conflicted([] + a + b + c + d, error)
    ensures Conflicted([] + a + b + c + d, error)
  {
    if Conflicted([] + a, error) {
      ConflictRemains([] + a, b, error);
    }
    if Conflicted([] + a + b, error) {
      ConflictRemains([] + a + b, c, error);
    }
    if Conflicted([] + a + b + c, error) {
      ConflictRemains([] + a + b + c, d, error);
    }
  }

  // ---------------------------------------------------------------- import

  datatype Item = RecordItem(record: Record) | TombstoneItem(tombstone: Tombstone)

  function ItemId(item: Item): Id {
    match item
    case RecordItem(record) => record.id
    case TombstoneItem(tombstone) => tombstone.id
  }

  function Batch(items: seq<Item>): State {
    if items == [] then EMPTY
    else
      var before := Batch(items[..|items| - 1]);
      match items[|items| - 1]
      case RecordItem(record) => State(before.records + [record], before.tombstones)
      case TombstoneItem(tombstone) => State(before.records, before.tombstones + [tombstone])
  }

  /** The document schema: no self-reference and no repeated target. */
  predicate SchemaAccepts(record: Record) {
    record.id !in record.supersedes &&
    forall i, j :: 0 <= i < j < |record.supersedes| ==> record.supersedes[i] != record.supersedes[j]
  }

  lemma SchemaIff(record: Record)
    ensures SchemaAccepts(record) <==> record.id !in record.supersedes && Once(record.supersedes)
  {
    var ids := record.supersedes;
    forall id ensures SchemaAccepts(record) ==> multiset(ids)[id] <= 1 {
      if multiset(ids)[id] > 1 {
        CountedTwice(ids, id);
      }
    }
    forall i, j | 0 <= i < j < |ids| && ids[i] == ids[j] ensures !Once(ids) {
      RepeatedTwice(ids, i, j);
    }
  }

  lemma {:induction false} CountedTwice(ids: seq<Id>, id: Id)
    requires multiset(ids)[id] >= 2
    ensures exists i, j :: 0 <= i < j < |ids| && ids[i] == ids[j] == id
  {
    var before, last := ids[..|ids| - 1], ids[|ids| - 1];
    assert ids == before + [last];
    if last == id {
      assert id in before;
      var i :| 0 <= i < |before| && before[i] == id;
      assert ids[i] == ids[|before|] == id;
    } else {
      CountedTwice(before, id);
      var i, j :| 0 <= i < j < |before| && before[i] == before[j] == id;
      assert ids[i] == ids[j] == id;
    }
  }

  /** What the loading of a state has already checked; retirements may still clash. */
  ghost predicate Loaded(state: State) {
    Once(Ids(state)) && Resolves(state) && Acyclic(EdgesOf(state.records))
  }

  ghost predicate Explains(state: State, batch: State, error: Error) {
    var all := Union(state, batch);
    match error
    case InvalidDocument(id) => exists r :: r in batch.records && r.id == id && !SchemaAccepts(r)
    case IdExists(id) => multiset(Ids(all))[id] >= 2
    case BrokenReference(id) => id in Retired(all) && id !in RecordIds(all.records)
    case BothRetired(_) => Conflicted(Events(state, batch), error)
    case AlreadyInactive(_) => Conflicted(Events(state, batch), error)
    case MultipleRetirements(_, _) => Conflicted(Events(state, batch), error)
    case CyclicSupersession(id) => CycleAt(EdgesOf(all.records), id)
    case NotFound(_) => false
    case NotActive(_) => false
  }

  lemma ItemIds(state: State, items: seq<Item>, i: nat)
    requires i < |items|
    ensures multiset(Ids(Union(state, Batch(items[..i + 1]))))
              == multiset(Ids(Union(state, Batch(items[..i])))) + multiset{ItemId(items[i])}
  {
    assert items[..i + 1][..i] == items[..i];
    var before, after := Batch(items[..i]), Batch(items[..i + 1]);
    UnionIds(state, before);
    UnionIds(state, after);
    match items[i] {
      case RecordItem(record) => {
        assert RecordIds(after.records) == RecordIds(before.records) + [record.id];
      }
      case TombstoneItem(tombstone) => {
        assert TombstoneIds(after.tombstones) == TombstoneIds(before.tombstones) + [tombstone.id];
      }
    }
  }

  lemma {:induction false} BatchPrefix(items: seq<Item>, n: nat)
    requires n <= |items|
    ensures Batch(items[..n]).records <= Batch(items).records && Batch(items[..n]).tombstones <= Batch(items).tombstones
    decreases |items|
  {
    if n < |items| {
      BatchPrefix(items[..|items| - 1], n);
      assert items[..|items| - 1][..n] == items[..n];
    } else {
      assert items[..n] == items;
    }
  }

  lemma PrefixIds(state: State, items: seq<Item>, n: nat, id: Id)
    requires n <= |items|
    ensures multiset(Ids(Union(state, Batch(items[..n]))))[id] <= multiset(Ids(Union(state, Batch(items))))[id]
  {
    BatchPrefix(items, n);
    UnionIds(state, Batch(items[..n]));
    UnionIds(state, Batch(items));
    PartIds(Batch(items[..n]), Batch(items));
  }

  lemma PartIds(part: State, whole: State)
    requires part.records <= whole.records && part.tombstones <= whole.tombstones
    ensures multiset(Ids(part)) <= multiset(Ids(whole))
  {
    var rest := Rest(part, whole);
    UnionIds(part, rest);
  }

  ghost function Rest(part: State, whole: State): (rest: State)
    requires part.records <= whole.records && part.tombstones <= whole.tombstones
    ensures whole == Union(part, rest)
  {
    State(whole.records[|part.records|..], whole.tombstones[|part.tombstones|..])
  }

  method CollectItems(state: State, items: seq<Item>) returns (result: Result<State, Error>)
    requires Once(Ids(state))
    ensures result.Ok? ==> result.value == Batch(items) && Once(Ids(Union(state, Batch(items))))
    ensures result.Ok? ==> forall item :: item in items && item.RecordItem? ==> SchemaAccepts(item.record)
    ensures result.Err? ==> Explains(state, Batch(items), result.error)
  {
    var records: seq<Record>, tombstones: seq<Tombstone> := [], [];
    var ids := set id | id in Ids(state);
    assert Union(state, EMPTY) == state;
    for i := 0 to |items|
      invariant State(records, tombstones) == Batch(items[..i])
      invariant Collected(state, items[..i], ids)
      invariant forall k :: 0 <= k < i && items[k].RecordItem? ==> SchemaAccepts(items[k].record)
    {
      var item := items[i];
      CollectMore(state, items, i, ids);
      if item.RecordItem? && !SchemaAccepts(item.record) {
        RejectedDocument(state, items, i);
        return Err(InvalidDocument(item.record.id));
      }
      if ItemId(item) in ids {
        return Err(IdExists(ItemId(item)));
      }
      ids := ids + {ItemId(item)};
      match item {
        case RecordItem(record) => records := records + [record];
        case TombstoneItem(tombstone) => tombstones := tombstones + [tombstone];
      }
      assert items[..i + 1][..i] == items[..i];
    }
    assert items[..|items|] == items;
    result := Ok(State(records, tombstones));
  }

  /** The identities in use after a part of the batch, none of them twice. */
  ghost predicate Collected(state: State, items: seq<Item>, ids: set<Id>) {
    var all := Ids(Union(state, Batch(items)));
    Once(all) && forall id :: id in ids <==> id in all
  }

  lemma CollectMore(state: State, items: seq<Item>, i: nat, ids: set<Id>)
    requires i < |items| && Collected(state, items[..i], ids)
    ensures ItemId(items[i]) !in ids ==> Collected(state, items[..i + 1], ids + {ItemId(items[i])})
    ensures ItemId(items[i]) in ids ==> Explains(state, Batch(items), IdExists(ItemId(items[i])))
  {
    var id := ItemId(items[i]);
    var before, after := Ids(Union(state, Batch(items[..i]))), Ids(Union(state, Batch(items[..i + 1])));
    ItemIds(state, items, i);
    PrefixIds(state, items, i + 1, id);
    forall x ensures x in after <==> x in before || x == id {
      assert x in after <==> x in multiset(after);
    }
    if id !in ids {
      forall x ensures multiset(after)[x] <= 1 {
        assert multiset(before)[x] <= 1;
      }
    }
  }

  lemma RejectedDocument(state: State, items: seq<Item>, i: nat)
    requires i < |items| && items[i].RecordItem? && !SchemaAccepts(items[i].record)
    ensures Explains(state, Batch(items), InvalidDocument(items[i].record.id))
  {
    BatchPrefix(items, i + 1);
    assert items[..i + 1][..i] == items[..i];
    assert items[i].record in Batch(items[..i + 1]).records;
  }

  method AssertImportRelationships(state: State, batch: State) returns (error: Option<Error>)
    requires Resolves(state)
    ensures error.None? ==> Resolves(Union(state, batch)) && Once(Retired(Union(state, batch)))
    ensures error.Some? ==> Explains(state, batch, error.value)
  {
    ghost var all := Union(state, batch);
    UnionIds(state, batch);
    var combined := state.records + batch.records;
    var broken := FirstBroken(Superseded(batch.records), combined);
    if broken.None? {
      broken := FirstBroken(TombstoneTargets(batch.tombstones), combined);
    }
    if broken.Some? {
      InRetiredOfUnion(state, batch, broken.value);
      return Some(BrokenReference(broken.value));
    }
    forall id | id in Retired(all) ensures id in RecordIds(all.records) {
      InRetiredOfUnion(state, batch, id);
    }
    error := AssertSingleRetirement(state, batch);
  }

  /** An import is accepted exactly when the union with what is stored is valid. */
  method ValidateImportBatch(state: State, items: seq<Item>) returns (result: Result<State, Error>)
    requires Loaded(state)
    ensures result.Ok? <==> Valid(Union(state, Batch(items)))
    ensures result.Ok? ==> result.value == Batch(items)
    ensures result.Err? ==> Explains(state, Batch(items), result.error)
  {
    result := CollectItems(state, items);
    if result.Ok? {
      var batch := result.value;
      var error := AssertImportRelationships(state, batch);
      if error.Some? {
        result := Err(error.value);
      } else {
        var cycle := Supersession.AssertAcyclic(state.records + batch.records);
        if cycle.Some? {
          result := Err(CyclicSupersession(cycle.value));
        }
      }
    }
    if result.Err? {
      ExplainedIsInvalid(state, Batch(items), result.error);
    }
  }

  lemma ExplainedIsInvalid(state: State, batch: State, error: Error)
    requires Explains(state, batch, error)
    ensures !Valid(Union(state, batch))
  {
    var all := Union(state, batch);
    match error {
      case InvalidDocument(id) => {
        var r :| r in batch.records && r.id == id && !SchemaAccepts(r);
        var i :| 0 <= i < |batch.records| && batch.records[i] == r;
        assert all.records[|state.records| + i] == r;
        InvalidRecord(all, |state.records| + i);
      }
      case IdExists(id) => {}
      case BrokenReference(id) => {}
      case BothRetired(_) => {
        ClashRepeats(state, batch, error);
      }
      case AlreadyInactive(_) => {
        ClashRepeats(state, batch, error);
      }
      case MultipleRetirements(_, _) => {
        ClashRepeats(state, batch, error);
      }
      case CyclicSupersession(id) => {}
    }
  }

  lemma ClashRepeats(state: State, batch: State, error: Error)
    requires Conflicted(Events(state, batch), error)
    ensures !Once(Retired(Union(state, batch)))
  {
    ConflictRepeats(Events(state, batch), error);
    TargetsOfEvents(state, batch);
  }

  lemma InvalidRecord(state: State, i: nat)
    requires i < |state.records| && !SchemaAccepts(state.records[i])
    ensures !Valid(state)
  {
    var r := state.records[i];
    SupersededHas(state.records, i);
    if r.id in r.supersedes {
      OwnTarget(state, i);
    } else {
      var j, k :| 0 <= j < k < |r.supersedes| && r.supersedes[j] == r.supersedes[k];
      RepeatedTwice(r.supersedes, j, k);
      assert multiset(Retired(state))[r.supersedes[j]] >= 2;
    }
  }

  lemma OwnTarget(state: State, i: nat)
    requires i < |state.records| && state.records[i].id in state.records[i].supersedes
    ensures !Valid(state)
  {
    var ids, g := RecordIds(state.records), EdgesOf(state.records);
    if Once(Ids(state)) {
      OncePart(ids, Ids(state));
      EdgesOfRecord(state.records, i);
      var id := state.records[i].id;
      assert Edge(g, id, id);
      assert Cycle(g, [id, id]);
    }
  }

  function RecordItems(records: seq<Record>): seq<Item> {
    seq(|records|, i requires 0 <= i < |records| => RecordItem(records[i]))
  }

  function TombstoneItems(tombstones: seq<Tombstone>): seq<Item> {
    seq(|tombstones|, i requires 0 <= i < |tombstones| => TombstoneItem(tombstones[i]))
  }

  function Export(state: State): seq<Item> {
    RecordItems(state.records) + TombstoneItems(state.tombstones)
  }

  lemma {:induction false} BatchOfRecords(records: seq<Record>)
    ensures Batch(RecordItems(records)) == State(records, [])
  {
    if records != [] {
      var n := |records| - 1;
      BatchOfRecords(records[..n]);
      assert RecordItems(records) == RecordItems(records[..n]) + [RecordItem(records[n])];
    }
  }

  lemma {:induction false} BatchOfExport(records: seq<Record>, tombstones: seq<Tombstone>)
    ensures Batch(Export(State(records, tombstones))) == State(records, tombstones)
  {
    if tombstones == [] {
      BatchOfRecords(records);
      assert Export(State(records, [])) == RecordItems(records);
    } else {
      var n := |tombstones| - 1;
      var before, item := Export(State(records, tombstones[..n])), TombstoneItem(tombstones[n]);
      BatchOfExport(records, tombstones[..n]);
      assert Export(State(records, tombstones)) == before + [item];
    }
  }

  /** An export read into an empty store is accepted and gives back the very same state. */
  lemma ExportImport(state: State)
    requires Valid(state)
    ensures After(EMPTY, Import(Export(state))) == state
  {
    BatchOfExport(state.records, state.tombstones);
    assert Union(EMPTY, state) == state;
  }

  /** Reading it into the store it came from is refused, unless there is nothing to read. */
  lemma ReimportRefused(state: State)
    requires Valid(state) && state != EMPTY
    ensures !Accepts(state, Import(Export(state)))
  {
    BatchOfExport(state.records, state.tombstones);
    var id := Ids(state)[0];
    UnionIds(state, state);
    assert id in multiset(Ids(state));
    assert multiset(Ids(Union(state, state)))[id] >= 2;
  }

  // ---------------------------------------------------------------- all runs

  datatype Operation =
    | Store(id: Id, content: string)
    | Supersede(target: Id, id: Id, content: string)
    | Delete(target: Id, id: Id, content: string)
    | Import(items: seq<Item>)

  ghost predicate Accepts(state: State, operation: Operation) {
    match operation
    case Store(id, _) => id !in Ids(state)
    case Supersede(target, id, _) => target in Active(state) && id !in Ids(state)
    case Delete(target, id, _) => target in Active(state) && id !in Ids(state)
    case Import(items) => Valid(Union(state, Batch(items)))
  }

  /** What an accepted operation adds; nothing is ever changed or removed. */
  function Added(operation: Operation): State {
    match operation
    case Store(id, content) => State([Record(id, [], content)], [])
    case Supersede(target, id, content) => State([Record(id, [target], content)], [])
    case Delete(target, id, content) => State([], [Tombstone(id, target, content)])
    case Import(items) => Batch(items)
  }

  ghost function After(state: State, operation: Operation): State {
    if Accepts(state, operation) then Union(state, Added(operation)) else state
  }

  ghost function Run(state: State, operations: seq<Operation>): State {
    if operations == [] then state else After(Run(state, operations[..|operations| - 1]), operations[|operations| - 1])
  }

  /** A run is its operations one after the other. */
  lemma {:induction false} RunComposes(state: State, first: seq<Operation>, rest: seq<Operation>)
    ensures Run(state, first + rest) == Run(Run(state, first), rest)
    ensures |rest| == 1 ==> Run(state, rest) == After(state, rest[0])
  {
    if rest == [] {
      assert first + rest == first;
    } else {
      var before := rest[..|rest| - 1];
      assert (first + rest)[..|first + rest| - 1] == first + before;
      RunComposes(state, first, before);
    }
  }

  /** Every operation keeps the canonical state valid. */
  lemma StepIsValid(state: State, operation: Operation)
    requires Valid(state)
    ensures Valid(After(state, operation))
  {
    if Accepts(state, operation) && !operation.Import? {
      var added := Added(operation);
      AddedFacts(operation);
      FreshIdOnce(state, added, operation.id);
      ActiveTargetOnce(state, added);
      if added.records == [] {
        assert Union(state, added).records == state.records;
      } else {
        FreshRecordAcyclic(state, added.records[0]);
      }
    }
  }

  lemma AddedFacts(operation: Operation)
    requires !operation.Import?
    ensures Ids(Added(operation)) == [operation.id]
    ensures Retired(Added(operation)) == if operation.Store? then [] else [operation.target]
  {
    var added := Added(operation);
    assert Superseded(added.records) == if operation.Supersede? then [operation.target] else [];
  }

  lemma FreshIdOnce(state: State, added: State, id: Id)
    requires Once(Ids(state)) && Ids(added) == [id] && id !in Ids(state)
    ensures Once(Ids(Union(state, added)))
  {
    UnionIds(state, added);
    OnceMore(Ids(state), id);
    assert multiset(Ids(Union(state, added))) == multiset(Ids(state) + [id]);
    OncePart(Ids(Union(state, added)), Ids(state) + [id]);
  }

  lemma ActiveTargetOnce(state: State, added: State)
    requires Resolves(state) && Once(Retired(state))
    requires |Retired(added)| <= 1 && forall id :: id in Retired(added) ==> id in Active(state)
    ensures Once(Retired(Union(state, added))) && Resolves(Union(state, added))
  {
    UnionRetired(state, added);
    UnionIds(state, added);
    OnceOrOneMore(Retired(state), Retired(added));
    assert multiset(Retired(Union(state, added))) == multiset(Retired(state) + Retired(added));
    OncePart(Retired(Union(state, added)), Retired(state) + Retired(added));
    forall id | id in Retired(Union(state, added)) ensures id in RecordIds(Union(state, added).records) {
      InRetiredOfUnion(state, added, id);
    }
  }

  lemma OnceOrOneMore(ids: seq<Id>, more: seq<Id>)
    requires Once(ids) && |more| <= 1 && forall id :: id in more ==> id !in ids
    ensures Once(ids + more)
  {
    if |more| == 1 {
      var id := more[0];
      assert id in more;
      OnceMore(ids, id);
      assert more == [id];
    } else {
      assert ids + more == ids;
    }
  }

  lemma FreshRecordAcyclic(state: State, record: Record)
    requires Valid(state) && record.id !in Ids(state) && record.id !in record.supersedes
    ensures Acyclic(EdgesOf(state.records + [record]))
  {
    var g := EdgesOf(state.records);
    var h := g[record.id := record.supersedes];
    assert (state.records + [record])[..|state.records|] == state.records;
    EdgesOfAt(state.records);
    forall a | a in g ensures record.id !in g[a] {
      EdgeIsResolved(state, a, record.id);
    }
    FreshSource(g, h, record.id);
  }

  lemma EdgeIsResolved(state: State, a: Id, id: Id)
    requires Valid(state) && a in EdgesOf(state.records)
    ensures id in EdgesOf(state.records)[a] ==> id in RecordIds(state.records)
  {
    EdgesOfAt(state.records);
    var i :| 0 <= i < |state.records| && RecordIds(state.records)[i] == a;
    OncePart(RecordIds(state.records), Ids(state));
    EdgesOfRecord(state.records, i);
    SupersededHas(state.records, i);
    assert id in multiset(state.records[i].supersedes) ==> id in multiset(Superseded(state.records));
    assert id in Superseded(state.records) ==> id in Retired(state);
  }

  /** A node to which nothing points lies on no cycle. */
  lemma FreshSource(g: Graph, h: Graph, id: Id)
    requires Acyclic(g) && id !in g && id in h && h == g[id := h[id]]
    requires id !in h[id] && forall a :: a in g ==> id !in g[a]
    ensures Acyclic(h)
  {
    forall p ensures !Cycle(h, p) {
      if Cycle(h, p) {
        forall i | 0 <= i < |p| - 1 ensures Edge(g, p[i], p[i + 1]) {
          assert Edge(h, p[i], p[i + 1]);
          if i > 0 {
            assert Edge(h, p[i - 1], p[i]);
          } else {
            assert Edge(h, p[|p| - 2], p[|p| - 1]);
          }
        }
        assert Cycle(g, p);
      }
    }
  }

  /** Over all runs the state stays valid and every stored document stays as it was. */
  lemma {:induction false} RunIsValid(state: State, operations: seq<Operation>)
    requires Valid(state)
    ensures Valid(Run(state, operations))
    ensures state.records <= Run(state, operations).records && state.tombstones <= Run(state, operations).tombstones
  {
    if operations != [] {
      RunIsValid(state, operations[..|operations| - 1]);
      StepIsValid(Run(state, operations[..|operations| - 1]), operations[|operations| - 1]);
    }
  }

  /** A retired record never becomes active again. */
  lemma RetiredForever(state: State, operations: seq<Operation>, id: Id)
    requires Valid(state) && id in RecordIds(state.records) && id !in Active(state)
    ensures id in RecordIds(Run(state, operations).records) && id !in Active(Run(state, operations))
  {
    RunIsValid(state, operations);
    StaysInactive(state, Rest(state, Run(state, operations)), id);
  }

  lemma StaysInactive(state: State, more: State, id: Id)
    requires id in RecordIds(state.records) && id !in Active(state)
    ensures id in RecordIds(Union(state, more).records) && id !in Active(Union(state, more))
  {
    InRetiredOfUnion(state, more, id);
    UnionIds(state, more);
  }

  /** Each record is retired at most once, and the active records are those not retired. */
  lemma RetirementsAreConserved(state: State)
    requires Valid(state)
    ensures |Active(state)| + |Superseded(state.records)| + |state.tombstones| == |state.records|
  {
    var ids := RecordIds(state.records);
    OncePart(ids, Ids(state));
    var all := Distinct(ids);
    var retired := Distinct(Retired(state));
    assert Active(state) == all - retired;
    assert retired <= all;
  }

  lemma {:induction false} Distinct(ids: seq<Id>) returns (elements: set<Id>)
    requires Once(ids)
    ensures |elements| == |ids| && forall id :: id in elements <==> id in ids
  {
    if ids == [] {
      elements := {};
    } else {
      var n := |ids| - 1;
      assert ids == ids[..n] + [ids[n]];
      OncePart(ids[..n], ids);
      OnceMore(ids[..n], ids[n]);
      var before := Distinct(ids[..n]);
      elements := before + {ids[n]};
    }
  }

  // ---------------------------------------------------------------- the store

  ghost predicate IsStored(state: State, id: Id) {
    exists r :: r in state.records && r.id == id
  }

  /** Some document carries the identity. */
  ghost predicate IsUsed(state: State, id: Id) {
    IsStored(state, id) || exists t :: t in state.tombstones && t.id == id
  }

  /** Some record supersedes it, or a tombstone names it. */
  ghost predicate IsRetired(state: State, id: Id) {
    || (exists r :: r in state.records && id in r.supersedes)
    || (exists t :: t in state.tombstones && t.target == id)
  }

  lemma {:induction false} SupersededIff(records: seq<Record>, id: Id)
    ensures id in Superseded(records) <==> exists r :: r in records && id in r.supersedes
  {
    if records != [] {
      var n := |records| - 1;
      SupersededIff(records[..n], id);
      assert records == records[..n] + [records[n]];
    }
  }

  lemma IdsAndRetired(state: State, id: Id)
    ensures id in RecordIds(state.records) <==> IsStored(state, id)
    ensures id in Ids(state) <==> IsUsed(state, id)
    ensures id in Retired(state) <==> IsRetired(state, id)
    ensures id in Active(state) <==> IsStored(state, id) && !IsRetired(state, id)
  {
    SupersededIff(state.records, id);
    HasId(state, id);
    HasTarget(state, id);
  }

  lemma HasId(state: State, id: Id)
    ensures id in RecordIds(state.records) <==> IsStored(state, id)
    ensures id in TombstoneIds(state.tombstones) <==> exists t :: t in state.tombstones && t.id == id
  {
    if r :| r in state.records && r.id == id {
      var i :| 0 <= i < |state.records| && state.records[i] == r;
      assert RecordIds(state.records)[i] == id;
    }
    if t :| t in state.tombstones && t.id == id {
      var i :| 0 <= i < |state.tombstones| && state.tombstones[i] == t;
      assert TombstoneIds(state.tombstones)[i] == id;
    }
  }

  lemma HasTarget(state: State, id: Id)
    ensures id in TombstoneTargets(state.tombstones) <==> exists t :: t in state.tombstones && t.target == id
  {
    if t :| t in state.tombstones && t.target == id {
      var i :| 0 <= i < |state.tombstones| && state.tombstones[i] == t;
      assert TombstoneTargets(state.tombstones)[i] == id;
    }
  }

  ghost predicate SupersedeDone(before: State, after: State, target: Id, id: Id, content: string,
                                result: Result<Record, Error>)
  {
    && result == (if !IsStored(before, target) then Err(NotFound(target))
                  else if IsRetired(before, target) then Err(NotActive(target))
                  else if id == target then Err(InvalidDocument(id))
                  else if IsUsed(before, id) then Err(IdExists(id))
                  else Ok(Record(id, [target], content)))
    && after.tombstones == before.tombstones
    && after.records == before.records + if result.Ok? then [result.value] else []
  }

  /** The checks in the order of the code. */
  ghost function SupersedeResult(state: State, target: Id, id: Id, content: string): Result<Record, Error> {
    if target !in RecordIds(state.records) then Err(NotFound(target))
    else if target !in Active(state) then Err(NotActive(target))
    else if id == target then Err(InvalidDocument(id))
    else if id in Ids(state) then Err(IdExists(id))
    else Ok(Record(id, [target], content))
  }

  lemma SupersedeEffect(state: State, target: Id, id: Id, content: string)
    ensures SupersedeDone(state, After(state, Supersede(target, id, content)), target, id, content,
                          SupersedeResult(state, target, id, content))
  {
    IdsAndRetired(state, id);
    IdsAndRetired(state, target);
  }

  ghost predicate DeleteDone(before: State, after: State, target: Id, id: Id, content: string,
                             result: Result<Tombstone, Error>)
  {
    && result == (if !IsStored(before, target) then Err(NotFound(target))
                  else if IsRetired(before, target) then Err(NotActive(target))
                  else if IsUsed(before, id) then Err(IdExists(id))
                  else Ok(Tombstone(id, target, content)))
    && after.records == before.records
    && after.tombstones == before.tombstones + if result.Ok? then [result.value] else []
  }

  ghost function DeleteResult(state: State, target: Id, id: Id, content: string): Result<Tombstone, Error> {
    if target !in RecordIds(state.records) then Err(NotFound(target))
    else if target !in Active(state) then Err(NotActive(target))
    else if id in Ids(state) then Err(IdExists(id))
    else Ok(Tombstone(id, target, content))
  }

  lemma DeleteEffect(state: State, target: Id, id: Id, content: string)
    ensures DeleteDone(state, After(state, Delete(target, id, content)), target, id, content,
                       DeleteResult(state, target, id, content))
  {
    IdsAndRetired(state, id);
    IdsAndRetired(state, target);
  }

  class MemoryStore {
    var state: State

    constructor ()
      ensures state == EMPTY && Valid(state)
    {
      state := EMPTY;
      new;
      EmptyIsValid();
    }

    method RequireActiveTarget(target: Id) returns (error: Option<Error>)
      ensures error == if target !in RecordIds(state.records) then Some(NotFound(target))
                       else if target !in Active(state) then Some(NotActive(target)) else None
    {
      if target !in RecordIds(state.records) {
        return Some(NotFound(target));
      }
      error := if target !in Active(state) then Some(NotActive(target)) else None;
    }

    /** Stores a new active record under a fresh identity. */
    method StoreRecord(id: Id, content: string) returns (result: Result<Record, Error>)
      requires Valid(state)
      modifies this
      ensures Valid(state) && state == After(old(state), Store(id, content))
      ensures result == if id in Ids(old(state)) then Err(IdExists(id)) else Ok(Record(id, [], content))
      ensures result == if IsUsed(old(state), id) then Err(IdExists(id)) else Ok(Record(id, [], content))
      ensures state.tombstones == old(state).tombstones
      ensures state.records == old(state).records + if result.Ok? then [result.value] else []
    {
      IdsAndRetired(state, id);
      StepIsValid(state, Store(id, content));
      if id in Ids(state) {
        return Err(IdExists(id));
      }
      result := Ok(Record(id, [], content));
      Publish(State([result.value], []));
    }

    /** Stores a replacement that retires an active target. */
    method SupersedeRecord(target: Id, id: Id, content: string) returns (result: Result<Record, Error>)
      requires Valid(state)
      modifies this
      ensures Valid(state) && state == After(old(state), Supersede(target, id, content))
      ensures result.Ok? <==> Accepts(old(state), Supersede(target, id, content))
      ensures result.Ok? ==> result.value == Record(id, [target], content)
      ensures SupersedeDone(old(state), state, target, id, content, result)
    {
      SupersedeEffect(state, target, id, content);
      StepIsValid(state, Supersede(target, id, content));
      var error := RequireActiveTarget(target);
      if error.Some? {
        return Err(error.value);
      }
      ActiveIsStored(state, target);
      var record := Record(id, [target], content);
      if !SchemaAccepts(record) {
        return Err(InvalidDocument(id));
      }
      if id in Ids(state) {
        return Err(IdExists(id));
      }
      Publish(State([record], []));
      result := Ok(record);
    }

    /** Retires an active record by a tombstone; its document stays. */
    method DeleteRecord(target: Id, id: Id, content: string) returns (result: Result<Tombstone, Error>)
      requires Valid(state)
      modifies this
      ensures Valid(state) && state == After(old(state), Delete(target, id, content))
      ensures result.Ok? <==> Accepts(old(state), Delete(target, id, content))
      ensures result.Ok? ==> result.value == Tombstone(id, target, content)
      ensures DeleteDone(old(state), state, target, id, content, result)
    {
      DeleteEffect(state, target, id, content);
      StepIsValid(state, Delete(target, id, content));
      var error := RequireActiveTarget(target);
      if error.Some? {
        return Err(error.value);
      }
      if id in Ids(state) {
        return Err(IdExists(id));
      }
      result := Ok(Tombstone(id, target, content));
      Publish(State([], [result.value]));
    }

    /** Imports a batch, or only checks it when previewing. */
    method ImportItems(items: seq<Item>, preview: bool) returns (result: Result<(nat, nat), Error>)
      requires Valid(state)
      modifies this
      ensures Valid(state) && state == if preview then old(state) else After(old(state), Import(items))
      ensures result.Ok? <==> Accepts(old(state), Import(items))
      ensures result.Ok? ==> result.value == (|Batch(items).records|, |Batch(items).tombstones|)
      ensures result.Err? ==> Explains(old(state), Batch(items), result.error)
    {
      var validated := ValidateImportBatch(state, items);
      if validated.Err? {
        return Err(validated.error);
      }
      if !preview {
        Publish(validated.value);
      }
      result := Ok((|validated.value.records|, |validated.value.tombstones|));
    }

    /** The atomic publication of new documents beside the stored ones. */
    method Publish(added: State)
      modifies this
      ensures state == Union(old(state), added)
    {
      state := State(state.records + added.records, state.tombstones + added.tombstones);
    }
  }

  lemma EmptyIsValid()
    ensures Valid(EMPTY)
  {
    forall p ensures !Cycle(EdgesOf([]), p) {
      if |p| >= 2 {
        assert !Edge(EdgesOf([]), p[0], p[1]);
      }
    }
  }

  lemma ActiveIsStored(state: State, id: Id)
    requires id in Active(state)
    ensures id in Ids(state)
  {
  }
}
