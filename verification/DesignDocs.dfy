/**
 * The life of design documents: drafts are edited, reviewed and approved; approved versions
 * are immutable and can only be followed by a new version or moved with their lineage.
 */
module DesignDocs {
  import opened Texts
  import opened Values
  import opened DesignCatalog

  /** A revision is a digest of the canonical bytes, so it determines the document. */
  datatype Revision = Revision(document: Document)

  datatype Changes = Changes(title: Option<string>, kind: Option<string>, body: Option<string>,
                             metadata: Option<Option<Metadata>>)

  /** One document of an import bundle, if it could be decoded. */
  type BundleItem = Option<Entity>

  datatype Operation =
    | Create(id: string, title: string, kind: string, body: string, metadata: Option<Metadata>, now: string)
    | Update(id: string, expected: Revision, changes: Changes, now: string)
    | Transition(id: string, expected: Revision, to: Status, intent: string, actor: string, evidence: Json, now: string)
    | Version(id: string, expected: Revision, changes: Changes, now: string)
    | Move(id: string, expected: Revision, destination: Location)
    | Import(items: seq<BundleItem>)

  datatype StoreError =
    | IdCollision
    | DocumentNotFound
    | RevisionMismatch
    | ApprovedImmutable
    | TransitionInvalid
    | EvidenceRequired
    | RequiresApproved
    | ImportInvalid
    | Rejected(error: Error)

  // ---------------------------------------------------------------- what is proposed

  function Latest(entities: seq<Entity>, id: string): Option<Entity> {
    if entities == [] then None
    else
      var e, before := entities[|entities| - 1], Latest(entities[..|entities| - 1], id);
      if e.document.id == id && (before.None? || before.value.document.version <= e.document.version)
      then Some(e) else before
  }

  function Current(entities: seq<Entity>, id: string, expected: Revision, location: Location)
    : Result<Entity, StoreError>
  {
    var latest := Latest(entities, id);
    if latest.None? || exists f :: f in Lineage(entities, id) && f.location != location then Err(DocumentNotFound)
    else if Revision(latest.value.document) != expected then Err(RevisionMismatch)
    else Ok(latest.value)
  }

  function Without(entities: seq<Entity>, e: Entity): seq<Entity> {
    if entities == [] then []
    else
      var last, rest := entities[|entities| - 1], Without(entities[..|entities| - 1], e);
      if last == e then rest else rest + [last]
  }

  function Others(entities: seq<Entity>, id: string): seq<Entity> {
    if entities == [] then []
    else
      var last, rest := entities[|entities| - 1], Others(entities[..|entities| - 1], id);
      if last.document.id == id then rest else rest + [last]
  }

  function Moved(lineage: seq<Entity>, destination: Location): seq<Entity> {
    seq(|lineage|, i requires 0 <= i < |lineage| => Entity(lineage[i].document, destination))
  }

  function GetOr<T>(value: Option<T>, otherwise: T): T {
    if value.Some? then value.value else otherwise
  }

  function Changed(document: Document, changes: Changes, now: string): Document {
    document.(title := GetOr(changes.title, document.title), kind := GetOr(changes.kind, document.kind),
              body := GetOr(changes.body, document.body), metadata := GetOr(changes.metadata, document.metadata),
              updatedAt := now)
  }

  const TRANSITION_KEY := "_neottia_transition"

  function Evidence(intent: string, actor: string, evidence: Json): Json {
    Object(map["intent" := Text(intent), "actor" := Text(actor), "evidence" := evidence])
  }

  function Transitioned(document: Document, to: Status, evidence: Json, now: string): Document {
    document.(status := to, updatedAt := now,
              metadata := Some(GetOr(document.metadata, map[])[TRANSITION_KEY := evidence]))
  }

  function NextVersion(document: Document, changes: Changes, now: string): Document {
    Changed(document, changes, now).(status := Draft, version := document.version + 1)
  }

  predicate Allowed(from: Status, to: Status) {
    (from == Draft && to == Review) || (from == Review && (to == Draft || to == Approved))
  }

  function Decoded(items: seq<BundleItem>): seq<Entity> {
    if items == [] then []
    else
      var last, rest := items[|items| - 1], Decoded(items[..|items| - 1]);
      if last.Some? then rest + [last.value] else rest
  }

  function Replaced(entities: seq<Entity>, current: Entity, document: Document): seq<Entity> {
    Without(entities, current) + [Entity(document, current.location)]
  }

  /** The catalog an operation proposes, or why it proposes none. */
  function Proposed(entities: seq<Entity>, operation: Operation): Result<seq<Entity>, StoreError> {
    match operation
    case Create(id, title, kind, body, metadata, now) =>
      if exists e :: e in entities && e.document.id == id then Err(IdCollision)
      else Ok(entities + [Entity(Document(id, title, kind, Draft, 1, now, now, metadata, body), Active)])
    case Update(id, expected, changes, now) =>
      var current := Current(entities, id, expected, Active);
      if current.Err? then Err(current.error)
      else if current.value.document.status == Approved then Err(ApprovedImmutable)
      else Ok(Replaced(entities, current.value, Changed(current.value.document, changes, now)))
    case Transition(id, expected, to, intent, actor, evidence, now) =>
      var current := Current(entities, id, expected, Active);
      if current.Err? then Err(current.error)
      else if !Allowed(current.value.document.status, to) then Err(TransitionInvalid)
      else if Blank(intent) || Blank(actor) then Err(EvidenceRequired)
      else Ok(Replaced(entities, current.value,
                       Transitioned(current.value.document, to, Evidence(intent, actor, evidence), now)))
    case Version(id, expected, changes, now) =>
      var current := Current(entities, id, expected, Active);
      if current.Err? then Err(current.error)
      else if current.value.document.status != Approved then Err(RequiresApproved)
      else Ok(entities + [Entity(NextVersion(current.value.document, changes, now), Active)])
    case Move(id, expected, destination) =>
      var current := Current(entities, id, expected, if destination == Archive then Active else Archive);
      if current.Err? then Err(current.error)
      else Ok(Others(entities, id) + Moved(Lineage(entities, id), destination))
    case Import(items) =>
      if None in items then Err(ImportInvalid) else Ok(entities + Decoded(items))
  }

  /** What is published: the proposal if it is a valid catalog, otherwise nothing. */
  ghost function After(entities: seq<Entity>, operation: Operation, limits: Limits): seq<Entity> {
    var proposed := Proposed(entities, operation);
    if proposed.Ok? && Valid(proposed.value, limits) then proposed.value else entities
  }

  // ---------------------------------------------------------------- filters

  lemma {:induction false} LatestIs(entities: seq<Entity>, id: string)
    ensures Latest(entities, id).None? <==> forall e :: e in entities ==> e.document.id != id
    ensures Latest(entities, id).Some? ==>
              var latest := Latest(entities, id).value;
              && latest in entities && latest.document.id == id
              && forall e :: e in entities && e.document.id == id ==> e.document.version <= latest.document.version
  {
    if entities != [] {
      var n := |entities| - 1;
      LatestIs(entities[..n], id);
      assert entities == entities[..n] + [entities[n]];
    }
  }

  /** With unique versions the latest is the one no other exceeds. */
  lemma LatestWhen(entities: seq<Entity>, e: Entity)
    requires Unique(entities) && e in entities
    requires forall f :: f in entities && f.document.id == e.document.id ==> f.document.version <= e.document.version
    ensures Latest(entities, e.document.id) == Some(e)
  {
    LatestIs(entities, e.document.id);
    UniqueValue(entities, e, Latest(entities, e.document.id).value);
  }

  lemma {:induction false} WithoutAbsent(entities: seq<Entity>, e: Entity)
    requires e !in entities
    ensures Without(entities, e) == entities
  {
    if entities != [] {
      WithoutAbsent(entities[..|entities| - 1], e);
    }
  }

  lemma {:induction false} WithoutMembers(entities: seq<Entity>, e: Entity)
    ensures forall f :: f in Without(entities, e) <==> f in entities && f != e
  {
    if entities != [] {
      var n := |entities| - 1;
      WithoutMembers(entities[..n], e);
      assert entities == entities[..n] + [entities[n]];
    }
  }

  lemma KeysMore(entities: seq<Entity>, e: Entity)
    ensures multiset(Keys(entities + [e])) == multiset(Keys(entities)) + multiset{KeyOf(e)}
  {
    KeysConcat(entities, [e]);
  }

  lemma LastKey(entities: seq<Entity>)
    requires entities != []
    ensures var n := |entities| - 1;
            multiset(Keys(entities)) == multiset(Keys(entities[..n])) + multiset{KeyOf(entities[n])}
  {
    var n := |entities| - 1;
    assert entities == entities[..n] + [entities[n]];
    KeysMore(entities[..n], entities[n]);
  }

  lemma {:induction false} WithoutOne(entities: seq<Entity>, e: Entity)
    requires Unique(entities) && e in entities
    ensures |Without(entities, e)| == |entities| - 1
    ensures multiset(Keys(entities)) == multiset(Keys(Without(entities, e))) + multiset{KeyOf(e)}
  {
    var n := |entities| - 1;
    var before, last := entities[..n], entities[n];
    LastKey(entities);
    AbsentBefore(entities, n);
    if last == e {
      WithoutAbsent(before, e);
    } else {
      UniqueBefore(entities, n);
      WithoutOne(before, e);
      KeysMore(Without(before, e), last);
    }
  }

  lemma UniqueBefore(entities: seq<Entity>, n: nat)
    requires Unique(entities) && n <= |entities|
    ensures Unique(entities[..n])
  {
    assert entities == entities[..n] + entities[n..];
    UniquePart(entities[..n], entities[n..]);
  }

  lemma AbsentBefore(entities: seq<Entity>, n: nat)
    requires Unique(entities) && n < |entities|
    ensures entities[n] !in entities[..n]
  {
    forall i | 0 <= i < n ensures entities[..n][i] != entities[n] {
      RepeatedKey(Keys(entities), i, n);
    }
  }

  lemma {:induction false} OthersMembers(entities: seq<Entity>, id: string)
    ensures forall e :: e in Others(entities, id) <==> e in entities && e.document.id != id
  {
    if entities != [] {
      var n := |entities| - 1;
      OthersMembers(entities[..n], id);
      assert entities == entities[..n] + [entities[n]];
    }
  }

  /** Every entity is either of a document or of the others. */
  lemma {:induction false} OthersAndLineage(entities: seq<Entity>, id: string)
    ensures multiset(Others(entities, id)) + multiset(Lineage(entities, id)) == multiset(entities)
  {
    if entities != [] {
      var n := |entities| - 1;
      OthersAndLineage(entities[..n], id);
      assert entities == entities[..n] + [entities[n]];
    }
  }

  lemma {:induction false} OthersKeys(entities: seq<Entity>, id: string)
    ensures multiset(Keys(Others(entities, id))) + multiset(Keys(Lineage(entities, id))) == multiset(Keys(entities))
    ensures |Others(entities, id)| + |Lineage(entities, id)| == |entities|
  {
    if entities != [] {
      var n := |entities| - 1;
      OthersKeys(entities[..n], id);
      LastKey(entities);
      KeysMore(Lineage(entities[..n], id), entities[n]);
      KeysMore(Others(entities[..n], id), entities[n]);
    }
  }

  // ---------------------------------------------------------------- proposals are sound

  lemma SoundWithAdded(entities: seq<Entity>, e: Entity)
    requires Sound(entities) && !Has(entities, e.document.id, e.document.version)
    requires forall f :: f in entities ==> Agrees(e, f) && Agrees(f, e)
    requires e.document.version == 1 || (e.document.version > 1 && Has(entities, e.document.id, e.document.version - 1))
    ensures Sound(entities + [e])
  {
    var more := entities + [e];
    UniqueWithAdded(entities, e);
    forall f | f in more ensures Founded(more, f) {
      SameHas(entities, more, f.document.id, f.document.version - 1);
      assert f == e || Founded(entities, f);
    }
  }

  lemma UniqueWithAdded(entities: seq<Entity>, e: Entity)
    requires Unique(entities) && !Has(entities, e.document.id, e.document.version)
    ensures Unique(entities + [e])
  {
    KeysMore(entities, e);
    assert KeyOf(e) !in Keys(entities);
    forall key ensures multiset(Keys(entities + [e]))[key] <= 1 {
      assert multiset(Keys(entities))[key] <= 1;
    }
  }

  /** The latest version may be rewritten freely; only its status may then vary. */
  lemma SoundWithReplaced(entities: seq<Entity>, current: Entity, document: Document)
    requires Sound(entities) && Latest(entities, document.id) == Some(current)
    requires document.version == current.document.version && document.createdAt == current.document.createdAt
    ensures Sound(Replaced(entities, current, document)) && |Replaced(entities, current, document)| == |entities|
  {
    var next := Entity(document, current.location);
    var rest, after := Without(entities, current), Replaced(entities, current, document);
    LatestIs(entities, document.id);
    WithoutOne(entities, current);
    WithoutMembers(entities, current);
    KeysConcat(rest, [next]);
    assert multiset(Keys(after)) == multiset(Keys(entities));
    forall e, f | e in after && f in after ensures Agrees(e, f) {
      ReplacedAgrees(entities, current, document, e, f);
    }
    forall e | e in after ensures Founded(after, e) {
      var original := if e == next then current else e;
      assert Founded(entities, original);
      if e.document.version > 1 {
        var p :| p in entities && p.document.id == e.document.id && p.document.version == e.document.version - 1;
        assert p == current || p in after;
        assert Has(after, e.document.id, e.document.version - 1) by {
          assert (if p == current then next else p) in after;
        }
      }
    }
  }

  lemma ReplacedAgrees(entities: seq<Entity>, current: Entity, document: Document, e: Entity, f: Entity)
    requires Sound(entities) && Latest(entities, document.id) == Some(current)
    requires document.version == current.document.version && document.createdAt == current.document.createdAt
    requires e in Replaced(entities, current, document) && f in Replaced(entities, current, document)
    ensures Agrees(e, f)
  {
    LatestIs(entities, document.id);
    WithoutMembers(entities, current);
    var next := Entity(document, current.location);
    var oldE, oldF := if e == next then current else e, if f == next then current else f;
    assert Agrees(oldE, oldF);
  }

  lemma MovedMembers(lineage: seq<Entity>, destination: Location)
    ensures Keys(Moved(lineage, destination)) == Keys(lineage)
    ensures forall e :: e in lineage ==> Entity(e.document, destination) in Moved(lineage, destination)
    ensures forall e :: e in Moved(lineage, destination) ==>
              e.location == destination
                && (Entity(e.document, Active) in lineage || Entity(e.document, Archive) in lineage)
  {
    forall e | e in lineage ensures Entity(e.document, destination) in Moved(lineage, destination) {
      var i :| 0 <= i < |lineage| && lineage[i] == e;
      assert Moved(lineage, destination)[i] == Entity(e.document, destination);
    }
    forall e | e in Moved(lineage, destination)
      ensures Entity(e.document, Active) in lineage || Entity(e.document, Archive) in lineage
    {
      var i :| 0 <= i < |lineage| && Moved(lineage, destination)[i] == e;
      assert lineage[i] == Entity(e.document, if lineage[i].location == Active then Active else Archive);
    }
  }

  ghost function Relocated(entities: seq<Entity>, id: string, destination: Location): seq<Entity> {
    Others(entities, id) + Moved(Lineage(entities, id), destination)
  }

  /** Moving changes the location of one lineage and no document. */
  lemma RelocatedMembers(entities: seq<Entity>, id: string, destination: Location, e: Entity)
    ensures e in entities ==>
              (if e.document.id == id then Entity(e.document, destination) else e)
                in Relocated(entities, id, destination)
    ensures e in Relocated(entities, id, destination) ==>
              (if e.document.id == id then e.location == destination && exists l :: Entity(e.document, l) in entities
               else e in entities)
  {
    OthersMembers(entities, id);
    LineageMembers(entities, id);
    MovedMembers(Lineage(entities, id), destination);
  }

  lemma SoundWithMoved(entities: seq<Entity>, id: string, destination: Location)
    requires Sound(entities)
    ensures Sound(Relocated(entities, id, destination)) && |Relocated(entities, id, destination)| == |entities|
  {
    var after := Relocated(entities, id, destination);
    OthersKeys(entities, id);
    MovedMembers(Lineage(entities, id), destination);
    KeysConcat(Others(entities, id), Moved(Lineage(entities, id), destination));
    assert multiset(Keys(after)) == multiset(Keys(entities));
    forall e, f | e in after && f in after ensures Agrees(e, f) {
      MovedAgrees(entities, id, destination, e, f);
    }
    forall e | e in after ensures Founded(after, e) {
      MovedFounded(entities, id, destination, e);
    }
  }

  lemma MovedAgrees(entities: seq<Entity>, id: string, destination: Location, e: Entity, f: Entity)
    requires Sound(entities) && e in Relocated(entities, id, destination) && f in Relocated(entities, id, destination)
    ensures Agrees(e, f)
  {
    RelocatedMembers(entities, id, destination, e);
    RelocatedMembers(entities, id, destination, f);
    if e.document.id == f.document.id {
      if e.document.id == id {
        var l :| Entity(e.document, l) in entities;
        var m :| Entity(f.document, m) in entities;
        assert Agrees(Entity(e.document, l), Entity(f.document, m));
      } else {
        assert e in entities && f in entities;
      }
    }
  }

  lemma MovedFounded(entities: seq<Entity>, id: string, destination: Location, e: Entity)
    requires Sound(entities) && e in Relocated(entities, id, destination)
    ensures Founded(Relocated(entities, id, destination), e)
  {
    RelocatedMembers(entities, id, destination, e);
    var l :| Entity(e.document, l) in entities;
    assert Founded(entities, Entity(e.document, l));
    if e.document.version > 1 {
      var p :| p in entities && p.document.id == e.document.id && p.document.version == e.document.version - 1;
      RelocatedMembers(entities, id, destination, p);
    }
  }

  /** Apart from imports, no proposal made from a sound catalog can fail a lineage check. */
  lemma ProposalsAreSound(entities: seq<Entity>, operation: Operation)
    requires Sound(entities) && Proposed(entities, operation).Ok? && !operation.Import?
    ensures Sound(Proposed(entities, operation).value)
    ensures |Proposed(entities, operation).value|
              == |entities| + if operation.Create? || operation.Version? then 1 else 0
  {
    match operation {
      case Create(id, title, kind, body, metadata, now) =>
        SoundWithAdded(entities, Entity(Document(id, title, kind, Draft, 1, now, now, metadata, body), Active));
      case Update(id, expected, changes, now) =>
        LatestIs(entities, id);
        SoundWithReplaced(entities, Latest(entities, id).value, Changed(expected.document, changes, now));
      case Transition(id, expected, to, intent, actor, evidence, now) =>
        LatestIs(entities, id);
        SoundWithReplaced(entities, Latest(entities, id).value,
                          Transitioned(expected.document, to, Evidence(intent, actor, evidence), now));
      case Version(id, expected, changes, now) =>
        LatestIs(entities, id);
        LineageMembers(entities, id);
        SoundWithVersion(entities, id, changes, now);
      case Move(id, expected, destination) =>
        SoundWithMoved(entities, id, destination);
    }
  }

  lemma SoundWithVersion(entities: seq<Entity>, id: string, changes: Changes, now: string)
    requires Sound(entities) && Latest(entities, id).Some? && Latest(entities, id).value.document.status == Approved
    requires Latest(entities, id).value.location == Active
    ensures Sound(entities + [Entity(NextVersion(Latest(entities, id).value.document, changes, now), Active)])
  {
    LatestIs(entities, id);
    var current := Latest(entities, id).value;
    var next := Entity(NextVersion(current.document, changes, now), Active);
    forall f | f in entities ensures Agrees(next, f) && Agrees(f, next) {
      assert Agrees(f, current) && Agrees(current, f);
      if f.document.id == id && f.document.version == current.document.version {
        UniqueValue(entities, f, current);
      }
    }
    assert Founded(entities, current);
    SoundWithAdded(entities, next);
  }

  // ---------------------------------------------------------------- limits

  predicate Room(entities: seq<Entity>, operation: Operation, limits: Limits) {
    match operation
    case Create(_, _, _, _, _, _) => |entities| < limits.maxFiles && limits.maxVersions >= 1
    case Version(_, expected, _, _) => |entities| < limits.maxFiles && expected.document.version < limits.maxVersions
    case _ => true
  }

  /** A proposal from a valid catalog is refused only for lack of room. */
  lemma OnlyLimitsRefuse(entities: seq<Entity>, operation: Operation, limits: Limits)
    requires Valid(entities, limits) && Proposed(entities, operation).Ok? && !operation.Import?
    ensures Valid(Proposed(entities, operation).value, limits) <==> Room(entities, operation, limits)
  {
    ProposalsAreSound(entities, operation);
    var proposed := Proposed(entities, operation).value;
    forall e | e in proposed
      ensures e.document.version <= limits.maxVersions ||
              ((operation.Create? || operation.Version?) && e == proposed[|proposed| - 1])
    {
      VersionBound(entities, operation, e);
    }
    if operation.Create? || operation.Version? {
      assert proposed[|proposed| - 1] in proposed;
    }
  }

  lemma VersionBound(entities: seq<Entity>, operation: Operation, e: Entity)
    requires Sound(entities) && Proposed(entities, operation).Ok? && !operation.Import?
    requires e in Proposed(entities, operation).value
    ensures || ((operation.Create? || operation.Version?) && e == Proposed(entities, operation).value[|entities|])
            || exists f :: f in entities && f.document.version == e.document.version
  {
    match operation {
      case Create(_, _, _, _, _, _) =>
      case Version(_, _, _, _) =>
      case Update(id, _, _, _) =>
        LatestIs(entities, id);
        WithoutMembers(entities, Latest(entities, id).value);
      case Transition(id, _, _, _, _, _, _) =>
        LatestIs(entities, id);
        WithoutMembers(entities, Latest(entities, id).value);
      case Move(id, _, destination) =>
        RelocatedMembers(entities, id, destination, e);
        var l :| Entity(e.document, l) in entities;
    }
  }

  // ---------------------------------------------------------------- all runs

  ghost function Run(entities: seq<Entity>, operations: seq<Operation>, limits: Limits): seq<Entity> {
    if operations == [] then entities
    else After(Run(entities, operations[..|operations| - 1], limits), operations[|operations| - 1], limits)
  }

  /**
   * An operation without the check before publication: what it proposes simply becomes the
   * catalog. Only an import, which brings documents from elsewhere, is still checked.
   */
  ghost function Unchecked(entities: seq<Entity>, operation: Operation, limits: Limits): seq<Entity> {
    if operation.Import? then After(entities, operation, limits)
    else if Proposed(entities, operation).Ok? then Proposed(entities, operation).value
    else entities
  }

  ghost function UncheckedRun(entities: seq<Entity>, operations: seq<Operation>, limits: Limits): seq<Entity> {
    if operations == [] then entities
    else Unchecked(UncheckedRun(entities, operations[..|operations| - 1], limits), operations[|operations| - 1], limits)
  }

  /** The check makes a difference exactly where an operation takes more room than there is. */
  lemma CheckedIffRoom(entities: seq<Entity>, operation: Operation, limits: Limits)
    requires Valid(entities, limits) && Proposed(entities, operation).Ok? && !operation.Import?
    ensures Unchecked(entities, operation, limits) == Proposed(entities, operation).value
    ensures After(entities, operation, limits)
         == if Room(entities, operation, limits) then Unchecked(entities, operation, limits) else entities
  {
    OnlyLimitsRefuse(entities, operation, limits);
  }

  /** A run is its operations one after the other, with the check and without. */
  lemma {:induction false} RunComposes(entities: seq<Entity>, first: seq<Operation>, rest: seq<Operation>,
                                       limits: Limits)
    ensures Run(entities, first + rest, limits) == Run(Run(entities, first, limits), rest, limits)
    ensures UncheckedRun(entities, first + rest, limits)
         == UncheckedRun(UncheckedRun(entities, first, limits), rest, limits)
    ensures |rest| == 1 ==>
              && Run(entities, rest, limits) == After(entities, rest[0], limits)
              && UncheckedRun(entities, rest, limits) == Unchecked(entities, rest[0], limits)
  {
    if rest == [] {
      assert first + rest == first;
    } else {
      var before := rest[..|rest| - 1];
      assert (first + rest)[..|first + rest| - 1] == first + before;
      RunComposes(entities, first, before, limits);
    }
  }

  /** Lineages stay whole over all runs by what the operations do, not by being checked afterwards. */
  lemma {:induction false} LineagesStayWhole(entities: seq<Entity>, operations: seq<Operation>, limits: Limits)
    requires Sound(entities)
    ensures Sound(UncheckedRun(entities, operations, limits))
  {
    if operations != [] {
      var before, last := operations[..|operations| - 1], operations[|operations| - 1];
      LineagesStayWhole(entities, before, limits);
      var catalog := UncheckedRun(entities, before, limits);
      if !last.Import? && Proposed(catalog, last).Ok? {
        ProposalsAreSound(catalog, last);
      }
    }
  }

  /** With the check the catalog is valid after every run. */
  lemma {:induction false} RunIsValid(entities: seq<Entity>, operations: seq<Operation>, limits: Limits)
    requires Valid(entities, limits)
    ensures Valid(Run(entities, operations, limits), limits)
  {
    if operations != [] {
      RunIsValid(entities, operations[..|operations| - 1], limits);
    }
  }

  /** A version stays, with its creation time; once approved its document stays as it is. */
  ghost predicate Preserved(e: Entity, after: seq<Entity>) {
    exists f :: f in after && Continues(e, f)
  }

  ghost predicate Continues(e: Entity, f: Entity) {
    && f.document.id == e.document.id && f.document.version == e.document.version
    && f.document.createdAt == e.document.createdAt
    && (e.document.status == Approved ==> f.document == e.document)
  }

  lemma StepPreserves(entities: seq<Entity>, operation: Operation, limits: Limits, e: Entity)
    requires Sound(entities) && e in entities
    ensures Preserved(e, After(entities, operation, limits))
  {
    var after := After(entities, operation, limits);
    assert Continues(e, e);
    if after != entities {
      match operation {
        case Create(_, _, _, _, _, _) => assert e in after;
        case Version(_, _, _, _) => assert e in after;
        case Import(_) => assert e in after;
        case Update(id, expected, changes, now) =>
          LatestIs(entities, id);
          ReplacedPreserves(entities, id, Changed(expected.document, changes, now), e);
        case Transition(id, expected, to, intent, actor, evidence, now) =>
          LatestIs(entities, id);
          ReplacedPreserves(entities, id, Transitioned(expected.document, to, Evidence(intent, actor, evidence), now),
                            e);
        case Move(id, _, destination) =>
          RelocatedMembers(entities, id, destination, e);
          assert Continues(e, if e.document.id == id then Entity(e.document, destination) else e);
      }
    }
  }

  lemma ReplacedPreserves(entities: seq<Entity>, id: string, document: Document, e: Entity)
    requires e in entities && Latest(entities, id).Some? && Latest(entities, id).value.document.status != Approved
    requires document.id == id && document.version == Latest(entities, id).value.document.version
    requires document.createdAt == Latest(entities, id).value.document.createdAt
    ensures Preserved(e, Replaced(entities, Latest(entities, id).value, document))
  {
    var current := Latest(entities, id).value;
    LatestIs(entities, id);
    WithoutMembers(entities, current);
    assert Continues(e, if e == current then Entity(document, current.location) else e);
  }

  /** Over all runs no version disappears and no approved content changes. */
  lemma {:induction false} RunPreserves(entities: seq<Entity>, operations: seq<Operation>, limits: Limits, e: Entity)
    requires Valid(entities, limits) && e in entities
    ensures Preserved(e, Run(entities, operations, limits))
  {
    if operations == [] {
      assert Continues(e, e);
    } else {
      var before := operations[..|operations| - 1];
      RunIsValid(entities, before, limits);
      RunPreserves(entities, before, limits, e);
      OneMoreStep(Run(entities, before, limits), operations[|operations| - 1], limits, e);
    }
  }

  lemma OneMoreStep(entities: seq<Entity>, operation: Operation, limits: Limits, e: Entity)
    requires Valid(entities, limits) && Preserved(e, entities)
    ensures Preserved(e, After(entities, operation, limits))
  {
    var f :| f in entities && Continues(e, f);
    StepPreserves(entities, operation, limits, f);
    var g :| g in After(entities, operation, limits) && Continues(f, g);
    assert Continues(e, g);
  }

  // ---------------------------------------------------------------- archive, restore, export

  lemma {:induction false} LineageConcat(a: seq<Entity>, b: seq<Entity>, id: string)
    ensures Lineage(a + b, id) == Lineage(a, id) + Lineage(b, id)
    ensures Others(a + b, id) == Others(a, id) + Others(b, id)
  {
    if b == [] {
      assert a + b == a;
    } else {
      assert (a + b)[..|a + b| - 1] == a + b[..|b| - 1];
      LineageConcat(a, b[..|b| - 1], id);
    }
  }

  lemma {:induction false} LineageOfNone(entities: seq<Entity>, id: string)
    requires forall e :: e in entities ==> e.document.id != id
    ensures Lineage(entities, id) == [] && Others(entities, id) == entities
  {
    if entities != [] {
      LineageOfNone(entities[..|entities| - 1], id);
    }
  }

  lemma {:induction false} LineageOfAll(entities: seq<Entity>, id: string)
    requires forall e :: e in entities ==> e.document.id == id
    ensures Lineage(entities, id) == entities && Others(entities, id) == []
  {
    if entities != [] {
      LineageOfAll(entities[..|entities| - 1], id);
    }
  }

  lemma RelocatedParts(entities: seq<Entity>, id: string, to: Location)
    ensures Lineage(Relocated(entities, id, to), id) == Moved(Lineage(entities, id), to)
    ensures Others(Relocated(entities, id, to), id) == Others(entities, id)
  {
    var others, moved := Others(entities, id), Moved(Lineage(entities, id), to);
    OthersMembers(entities, id);
    LineageMembers(entities, id);
    MovedMembers(Lineage(entities, id), to);
    LineageConcat(others, moved, id);
    LineageOfNone(others, id);
    LineageOfAll(moved, id);
    assert others + [] == others && [] + moved == moved;
  }

  lemma MoveAndBack(entities: seq<Entity>, id: string, from: Location, to: Location)
    requires forall e :: e in Lineage(entities, id) ==> e.location == from
    ensures multiset(Relocated(Relocated(entities, id, to), id, from)) == multiset(entities)
    ensures Lineage(Relocated(entities, id, to), id) == Moved(Lineage(entities, id), to)
  {
    RelocatedParts(entities, id, to);
    assert Moved(Moved(Lineage(entities, id), to), from) == Lineage(entities, id);
    OthersAndLineage(entities, id);
  }

  /** Restoring an archived lineage with the same revision gives back the catalog as it was. */
  lemma RestoreUndoesArchive(entities: seq<Entity>, id: string, expected: Revision)
    requires Sound(entities) && Proposed(entities, Move(id, expected, Archive)).Ok?
    ensures var archived := Proposed(entities, Move(id, expected, Archive)).value;
            var restored := Proposed(archived, Move(id, expected, Active));
            restored.Ok? && multiset(restored.value) == multiset(entities)
  {
    LatestIs(entities, id);
    LineageMembers(entities, id);
    MoveAndBack(entities, id, Active, Archive);
    LatestAfterMove(entities, id, Archive);
  }

  lemma LatestAfterMove(entities: seq<Entity>, id: string, destination: Location)
    requires Sound(entities) && Latest(entities, id).Some?
    ensures Latest(Relocated(entities, id, destination), id)
            == Some(Entity(Latest(entities, id).value.document, destination))
  {
    var moved := Entity(Latest(entities, id).value.document, destination);
    var after := Relocated(entities, id, destination);
    LatestIs(entities, id);
    SoundWithMoved(entities, id, destination);
    RelocatedMembers(entities, id, destination, Latest(entities, id).value);
    forall f | f in after && f.document.id == id ensures f.document.version <= moved.document.version {
      RelocatedMembers(entities, id, destination, f);
      var l :| Entity(f.document, l) in entities;
    }
    LatestWhen(after, moved);
  }

  function Export(entities: seq<Entity>): seq<BundleItem> {
    seq(|entities|, i requires 0 <= i < |entities| => Some(entities[i]))
  }

  lemma {:induction false} DecodedExport(entities: seq<Entity>)
    ensures Decoded(Export(entities)) == entities
  {
    if entities != [] {
      var n := |entities| - 1;
      DecodedExport(entities[..n]);
      assert Export(entities)[..n] == Export(entities[..n]);
    }
  }

  /** A bundle read into an empty repository is accepted and gives back every document. */
  lemma ExportImport(entities: seq<Entity>, limits: Limits)
    requires Valid(entities, limits)
    ensures After([], Import(Export(entities)), limits) == entities
  {
    DecodedExport(entities);
    assert [] + entities == entities;
  }

  // ---------------------------------------------------------------- effects

  function Refusal(proposal: Result<seq<Entity>, StoreError>): Option<StoreError> {
    if proposal.Err? then Some(proposal.error) else None
  }

  ghost predicate CreateDone(before: seq<Entity>, after: seq<Entity>, draft: Document, limits: Limits,
                             error: Option<StoreError>)
  {
    match error
    case None => after == before + [Entity(draft, Active)] && |before| < limits.maxFiles && 1 <= limits.maxVersions
    case Some(_) => after == before && (|before| >= limits.maxFiles || limits.maxVersions < 1)
  }

  lemma CreateEffect(entities: seq<Entity>, draft: Document, limits: Limits)
    requires Valid(entities, limits) && !InUse(entities, draft.id)
    requires draft.status == Draft && draft.version == 1 && draft.createdAt == draft.updatedAt
    ensures var operation := Create(draft.id, draft.title, draft.kind, draft.body, draft.metadata, draft.createdAt);
            var after := After(entities, operation, limits);
            if Room(entities, operation, limits) then CreateDone(entities, after, draft, limits, None)
            else forall reason :: CreateDone(entities, after, draft, limits, Some(reason))
  {
    OnlyLimitsRefuse(entities, Create(draft.id, draft.title, draft.kind, draft.body, draft.metadata, draft.createdAt),
                     limits);
  }

  /** The latest version of a document whose versions are all at this location. */
  ghost predicate IsCurrent(entities: seq<Entity>, e: Entity, id: string, location: Location) {
    && e in entities && e.document.id == id
    && forall f :: f in entities && f.document.id == id ==>
                     f.document.version <= e.document.version && f.location == location
  }

  lemma CurrentIs(entities: seq<Entity>, id: string, expected: Revision, location: Location)
    ensures var current := Current(entities, id, expected, location);
            match current
            case Ok(e) => IsCurrent(entities, e, id, location) && e.document == expected.document
            case Err(error) => Stops(entities, id, expected, location, error)
  {
    LatestIs(entities, id);
    LineageMembers(entities, id);
    var latest := Latest(entities, id);
    if latest.Some? && forall f :: f in Lineage(entities, id) ==> f.location == location {
      assert IsCurrent(entities, latest.value, id, location);
    } else {
      forall e ensures !IsCurrent(entities, e, id, location) {
        if latest.Some? && e in entities && e.document.id == id {
          var f :| f in Lineage(entities, id) && f.location != location;
          assert f in entities && f.document.id == id;
        }
      }
    }
  }

  /** Why an operation on the current version stops: there is none at this location, or it is another one. */
  ghost predicate Stops(entities: seq<Entity>, id: string, expected: Revision, location: Location, error: StoreError) {
    || (error == DocumentNotFound && forall e :: !IsCurrent(entities, e, id, location))
    || (error == RevisionMismatch
        && exists e :: IsCurrent(entities, e, id, location) && e.document != expected.document)
  }

  /** Given fields are taken over, the others kept. */
  ghost predicate Edits(from: Document, to: Document, changes: Changes, now: string) {
    && to.id == from.id && to.createdAt == from.createdAt && to.updatedAt == now
    && to.title == (match changes.title case Some(title) => title case None => from.title)
    && to.kind == (match changes.kind case Some(kind) => kind case None => from.kind)
    && to.body == (match changes.body case Some(body) => body case None => from.body)
    && to.metadata == (match changes.metadata case Some(metadata) => metadata case None => from.metadata)
  }

  /** One entity makes way for another, and nothing else changes. */
  ghost predicate Exchanges(before: seq<Entity>, after: seq<Entity>, gone: Entity, come: Entity) {
    |after| == |before| && forall f :: f in after <==> f == come || (f in before && f != gone)
  }

  ghost predicate Updates(before: seq<Entity>, after: seq<Entity>, e: Entity, d: Document, id: string,
                          expected: Revision, changes: Changes, now: string)
  {
    && IsCurrent(before, e, id, Active) && e.document == expected.document && e.document.status != Approved
    && Edits(e.document, d, changes, now) && d.status == e.document.status && d.version == e.document.version
    && Exchanges(before, after, e, Entity(d, Active))
  }

  ghost predicate UpdateStops(entities: seq<Entity>, id: string, expected: Revision, error: StoreError) {
    || Stops(entities, id, expected, Active, error)
    || (error == ApprovedImmutable && exists e ::
          IsCurrent(entities, e, id, Active) && e.document == expected.document && e.document.status == Approved)
  }

  lemma ReplacedExchanges(entities: seq<Entity>, e: Entity, d: Document)
    requires Unique(entities) && e in entities
    ensures Exchanges(entities, Replaced(entities, e, d), e, Entity(d, e.location))
  {
    WithoutMembers(entities, e);
    WithoutOne(entities, e);
  }

  ghost predicate UpdateDone(before: seq<Entity>, after: seq<Entity>, id: string, expected: Revision, changes: Changes,
                             now: string, error: Option<StoreError>)
  {
    match error
    case None => exists e, d :: Updates(before, after, e, d, id, expected, changes, now)
    case Some(reason) => after == before && UpdateStops(before, id, expected, reason)
  }

  lemma UpdateEffect(entities: seq<Entity>, id: string, expected: Revision, changes: Changes, now: string,
                     limits: Limits)
    requires Valid(entities, limits)
    ensures var operation := Update(id, expected, changes, now);
            UpdateDone(entities, After(entities, operation, limits), id, expected, changes, now,
                       Refusal(Proposed(entities, operation)))
  {
    CurrentIs(entities, id, expected, Active);
    var current := Current(entities, id, expected, Active);
    if current.Ok? && current.value.document.status != Approved {
      var e, d := current.value, Changed(current.value.document, changes, now);
      ReplacedExchanges(entities, e, d);
      assert Updates(entities, Replaced(entities, e, d), e, d, id, expected, changes, now);
      OnlyLimitsRefuse(entities, Update(id, expected, changes, now), limits);
    }
  }

  ghost predicate AddsVersion(before: seq<Entity>, after: seq<Entity>, e: Entity, d: Document, id: string,
                              expected: Revision, changes: Changes, now: string)
  {
    && IsCurrent(before, e, id, Active) && e.document == expected.document && e.document.status == Approved
    && Edits(e.document, d, changes, now) && d.status == Draft && d.version == e.document.version + 1
    && after == before + [Entity(d, Active)]
  }

  ghost predicate VersionStops(entities: seq<Entity>, id: string, expected: Revision, error: StoreError) {
    || Stops(entities, id, expected, Active, error)
    || (error == RequiresApproved && exists e ::
          IsCurrent(entities, e, id, Active) && e.document == expected.document && e.document.status != Approved)
  }

  ghost predicate VersionDone(before: seq<Entity>, after: seq<Entity>, id: string, expected: Revision,
                              changes: Changes, now: string, limits: Limits, error: Option<StoreError>)
  {
    match error
    case None => exists e, d :: AddsVersion(before, after, e, d, id, expected, changes, now)
    case Some(Rejected(_)) =>
      after == before && (|before| >= limits.maxFiles || expected.document.version >= limits.maxVersions)
    case Some(reason) => after == before && VersionStops(before, id, expected, reason)
  }

  lemma VersionEffect(entities: seq<Entity>, id: string, expected: Revision, changes: Changes, now: string,
                      limits: Limits)
    requires Valid(entities, limits)
    ensures var operation := Version(id, expected, changes, now);
            var proposed, after := Proposed(entities, operation), After(entities, operation, limits);
            if proposed.Err? then VersionDone(entities, after, id, expected, changes, now, limits, Some(proposed.error))
            else if Room(entities, operation, limits) then
              VersionDone(entities, after, id, expected, changes, now, limits, None)
            else forall reason :: VersionDone(entities, after, id, expected, changes, now, limits,
                                              Some(Rejected(reason)))
  {
    CurrentIs(entities, id, expected, Active);
    var current := Current(entities, id, expected, Active);
    if current.Ok? && current.value.document.status == Approved {
      var d := NextVersion(current.value.document, changes, now);
      assert AddsVersion(entities, entities + [Entity(d, Active)], current.value, d, id, expected, changes, now);
      OnlyLimitsRefuse(entities, Version(id, expected, changes, now), limits);
    }
  }

  /** Drafts go to review, and from there back or to approval. */
  ghost predicate StatusEdge(from: Status, to: Status) {
    match from
    case Draft => to == Review
    case Review => to != Review
    case Approved => false
  }

  /** The evidence of the transition is recorded among the metadata; nothing else but status and time changes. */
  ghost predicate Records(from: Document, to: Document, status: Status, intent: string, actor: string, evidence: Json,
                          now: string)
  {
    && to.id == from.id && to.title == from.title && to.kind == from.kind && to.body == from.body
    && to.version == from.version && to.createdAt == from.createdAt
    && to.status == status && to.updatedAt == now
    && to.metadata.Some? && TRANSITION_KEY in to.metadata.value
    && to.metadata.value[TRANSITION_KEY]
       == Object(map["intent" := Text(intent), "actor" := Text(actor), "evidence" := evidence])
    && forall key :: key != TRANSITION_KEY ==>
                       (key in to.metadata.value <==> from.metadata.Some? && key in from.metadata.value)
                       && (key in to.metadata.value ==> to.metadata.value[key] == from.metadata.value[key])
  }

  ghost predicate Transitions(before: seq<Entity>, after: seq<Entity>, e: Entity, d: Document, operation: Operation)
    requires operation.Transition?
  {
    && IsCurrent(before, e, operation.id, Active) && e.document == operation.expected.document
    && StatusEdge(e.document.status, operation.to) && !Blank(operation.intent) && !Blank(operation.actor)
    && Records(e.document, d, operation.to, operation.intent, operation.actor, operation.evidence, operation.now)
    && Exchanges(before, after, e, Entity(d, Active))
  }

  ghost predicate TransitionStops(entities: seq<Entity>, operation: Operation, error: StoreError)
    requires operation.Transition?
  {
    || Stops(entities, operation.id, operation.expected, Active, error)
    || exists e ::
         && IsCurrent(entities, e, operation.id, Active) && e.document == operation.expected.document
         && if !StatusEdge(e.document.status, operation.to) then error == TransitionInvalid
            else error == EvidenceRequired && (Blank(operation.intent) || Blank(operation.actor))
  }

  ghost predicate TransitionDone(before: seq<Entity>, after: seq<Entity>, operation: Operation,
                                 error: Option<StoreError>)
    requires operation.Transition?
  {
    match error
    case None => exists e, d :: Transitions(before, after, e, d, operation)
    case Some(reason) => after == before && TransitionStops(before, operation, reason)
  }

  lemma TransitionEffect(entities: seq<Entity>, operation: Operation, limits: Limits)
    requires Valid(entities, limits) && operation.Transition?
    ensures TransitionDone(entities, After(entities, operation, limits), operation,
                           Refusal(Proposed(entities, operation)))
  {
    var Transition(id, expected, to, intent, actor, evidence, now) := operation;
    CurrentIs(entities, id, expected, Active);
    var current := Current(entities, id, expected, Active);
    if current.Ok? {
      var e := current.value;
      assert Allowed(e.document.status, to) <==> StatusEdge(e.document.status, to);
      if Allowed(e.document.status, to) && !Blank(intent) && !Blank(actor) {
        var d := Transitioned(e.document, to, Evidence(intent, actor, evidence), now);
        ReplacedExchanges(entities, e, d);
        assert Transitions(entities, Replaced(entities, e, d), e, d, operation);
        OnlyLimitsRefuse(entities, operation, limits);
      }
    }
  }

  /** Every version of the document is at its new location, everything else where it was. */
  ghost predicate Moves(before: seq<Entity>, after: seq<Entity>, id: string, destination: Location) {
    && |after| == |before|
    && forall f :: f in after <==>
         if f.document.id == id then f.location == destination && exists l :: Entity(f.document, l) in before
         else f in before
  }

  ghost predicate MoveAllowed(entities: seq<Entity>, id: string, expected: Revision, destination: Location) {
    exists e :: IsCurrent(entities, e, id, if destination == Archive then Active else Archive)
                && e.document == expected.document
  }

  ghost predicate MoveDone(before: seq<Entity>, after: seq<Entity>, id: string, expected: Revision,
                           destination: Location, error: Option<StoreError>)
  {
    match error
    case None => Moves(before, after, id, destination) && MoveAllowed(before, id, expected, destination)
    case Some(reason) =>
      after == before && Stops(before, id, expected, if destination == Archive then Active else Archive, reason)
  }

  lemma MoveEffect(entities: seq<Entity>, id: string, expected: Revision, destination: Location, limits: Limits)
    requires Valid(entities, limits)
    ensures var operation := Move(id, expected, destination);
            MoveDone(entities, After(entities, operation, limits), id, expected, destination,
                     Refusal(Proposed(entities, operation)))
  {
    CurrentIs(entities, id, expected, if destination == Archive then Active else Archive);
    MovedAway(entities, id, destination);
    if Proposed(entities, Move(id, expected, destination)).Ok? {
      OnlyLimitsRefuse(entities, Move(id, expected, destination), limits);
    }
  }

  lemma MovedAway(entities: seq<Entity>, id: string, destination: Location)
    ensures Moves(entities, Others(entities, id) + Moved(Lineage(entities, id), destination), id, destination)
  {
    var others, lineage := Others(entities, id), Lineage(entities, id);
    var moved := Moved(lineage, destination);
    OthersMembers(entities, id);
    LineageMembers(entities, id);
    OthersAndLineage(entities, id);
    assert |multiset(others)| == |others| && |multiset(lineage)| == |lineage| && |multiset(entities)| == |entities|;
    forall f: Entity | f.document.id == id
      ensures f in moved <==> f.location == destination && exists l :: Entity(f.document, l) in entities
    {
      if f in moved {
        var k :| 0 <= k < |moved| && moved[k] == f;
        assert Entity(f.document, lineage[k].location) in entities;
      }
      if l: Location :| f.location == destination && Entity(f.document, l) in entities {
        var k :| 0 <= k < |lineage| && lineage[k] == Entity(f.document, l);
        assert moved[k] == f;
      }
    }
    forall f | f in moved ensures f.document.id == id {
      var k :| 0 <= k < |moved| && moved[k] == f;
      assert lineage[k] in lineage;
    }
  }

  // ---------------------------------------------------------------- the store

  datatype ImportReport = ImportReport(preview: bool, valid: bool, additions: nat, conflicts: nat, unsupported: nat)

  const ID_ATTEMPTS: nat := 100

  ghost predicate InUse(entities: seq<Entity>, id: string) {
    exists e :: e in entities && e.document.id == id
  }

  /** The attempt at which a generated identity is free, after all earlier ones were in use. */
  ghost predicate FirstFree(entities: seq<Entity>, generate: nat -> string, k: nat) {
    k < ID_ATTEMPTS && !InUse(entities, generate(k)) && forall j: nat :: j < k ==> InUse(entities, generate(j))
  }

  ghost predicate NoneFree(entities: seq<Entity>, generate: nat -> string) {
    forall k: nat :: k < ID_ATTEMPTS ==> InUse(entities, generate(k))
  }

  lemma CataloguedInUse(byId: Catalog, entities: seq<Entity>, limits: Limits, id: string)
    requires IsCatalog(byId, entities, limits)
    ensures id in byId <==> InUse(entities, id)
  {
    if id in byId {
      assert byId[id][0] in byId[id];
    }
  }

  /** The latest of a catalogued lineage is its last entry. */
  lemma CataloguedLatest(byId: Catalog, entities: seq<Entity>, limits: Limits, id: string)
    requires IsCatalog(byId, entities, limits) && Unique(entities)
    ensures Latest(entities, id) == if id in byId then Some(byId[id][|byId[id]| - 1]) else None
  {
    LatestIs(entities, id);
    if id in byId {
      var lineage := byId[id];
      var last := lineage[|lineage| - 1];
      assert last in lineage;
      forall f | f in entities && f.document.id == id ensures f.document.version <= last.document.version {
        assert f in lineage;
        var k :| 0 <= k < |lineage| && lineage[k] == f;
      }
      LatestWhen(entities, last);
    }
  }

  method RequireCurrent(byId: Catalog, ghost entities: seq<Entity>, ghost limits: Limits,
                        id: string, expected: Revision, location: Location)
    returns (result: Result<Entity, StoreError>)
    requires IsCatalog(byId, entities, limits) && Unique(entities)
    ensures result == Current(entities, id, expected, location)
  {
    CataloguedLatest(byId, entities, limits, id);
    LineageMembers(entities, id);
    if id !in byId || exists f :: f in byId[id] && f.location != location {
      return Err(DocumentNotFound);
    }
    var current := byId[id][|byId[id]| - 1];
    assert forall f :: f in Lineage(entities, id) <==> f in byId[id];
    if Revision(current.document) != expected {
      return Err(RevisionMismatch);
    }
    result := Ok(current);
  }

  class DesignDocumentStore {
    const limits: Limits
    var entities: seq<Entity>

    constructor (limits: Limits)
      ensures this.limits == limits && entities == [] && Valid(entities, limits)
    {
      this.limits, entities := limits, [];
    }

    /** Reads the catalog; stored documents always form a valid one. */
    method Discover() returns (byId: Catalog)
      requires Valid(entities, limits)
      ensures IsCatalog(byId, entities, limits)
    {
      var catalog := CatalogFromEntities(entities, limits);
      byId := catalog.value;
    }

    /** Checks a proposed catalog as a whole before anything of it becomes canonical. */
    method Publish(proposed: seq<Entity>) returns (error: Option<StoreError>)
      requires Valid(entities, limits)
      modifies this
      ensures entities == if Valid(proposed, limits) then proposed else old(entities)
      ensures error.None? <==> Valid(proposed, limits)
      ensures error.Some? && Sound(proposed) ==>
                error in {Some(Rejected(FileCountLimit))} || exists id :: error == Some(Rejected(VersionLimit(id)))
      ensures error.Some? ==> error.value.Rejected?
    {
      var catalog := CatalogFromEntities(proposed, limits);
      if catalog.Err? {
        return Some(Rejected(catalog.error));
      }
      entities := proposed;
      error := None;
    }

    /** Publishes what an operation proposes: refused only for lack of room. */
    method Apply(ghost operation: Operation, proposal: Result<seq<Entity>, StoreError>)
      returns (error: Option<StoreError>)
      requires Valid(entities, limits) && proposal == Proposed(entities, operation) && !operation.Import?
      modifies this
      ensures Valid(entities, limits) && entities == After(old(entities), operation, limits)
      ensures proposal.Err? ==> error == Some(proposal.error)
      ensures proposal.Ok? ==> (error.None? <==> Room(old(entities), operation, limits))
      ensures proposal.Ok? && error.Some? ==>
                error.value.Rejected? && (error.value.error.FileCountLimit? || error.value.error.VersionLimit?)
    {
      if proposal.Err? {
        return Some(proposal.error);
      }
      ProposalsAreSound(entities, operation);
      OnlyLimitsRefuse(entities, operation, limits);
      error := Publish(proposal.value);
    }

    /** The first generated identity not in use, within a bounded number of attempts; an empty one is refused. */
    method FreshId(byId: Catalog, generate: nat -> string) returns (id: Option<string>)
      requires IsCatalog(byId, entities, limits)
      ensures id.Some? ==>
                id.value != "" && exists k: nat :: FirstFree(entities, generate, k) && id.value == generate(k)
      ensures id.None? ==> NoneFree(entities, generate)
                           || exists k: nat :: FirstFree(entities, generate, k) && generate(k) == ""
    {
      for attempts := 0 to ID_ATTEMPTS
        invariant forall k: nat :: k < attempts ==> InUse(entities, generate(k))
      {
        var candidate := generate(attempts);
        CataloguedInUse(byId, entities, limits, candidate);
        if candidate !in byId {
          assert FirstFree(entities, generate, attempts);
          return if candidate == "" then None else Some(candidate);
        }
      }
      id := None;
    }

    method CreateDocument(generate: nat -> string, title: string, kind: string, body: string,
                          metadata: Option<Metadata>, now: string)
      returns (id: Option<string>, error: Option<StoreError>)
      requires Valid(entities, limits)
      modifies this
      ensures Valid(entities, limits)
      ensures id.None? ==> error == Some(IdCollision) && entities == old(entities)
      ensures id.None? ==> NoneFree(old(entities), generate)
                           || exists k: nat :: FirstFree(old(entities), generate, k) && generate(k) == ""
      ensures id.Some? ==> id.value != ""
                           && exists k: nat :: FirstFree(old(entities), generate, k) && id.value == generate(k)
      ensures id.Some? ==>
                var operation := Create(id.value, title, kind, body, metadata, now);
                entities == After(old(entities), operation, limits)
                  && (error.None? <==> Room(old(entities), operation, limits))
      ensures id.Some? ==>
                var draft := Document(id.value, title, kind, Draft, 1, now, now, metadata, body);
                CreateDone(old(entities), entities, draft, limits, error)
    {
      var byId := Discover();
      id := FreshId(byId, generate);
      if id.None? {
        return None, Some(IdCollision);
      }
      var document := Document(id.value, title, kind, Draft, 1, now, now, metadata, body);
      CreateEffect(entities, document, limits);
      error := Apply(Create(id.value, title, kind, body, metadata, now), Ok(entities + [Entity(document, Active)]));
    }

    method UpdateDocument(id: string, expected: Revision, changes: Changes, now: string)
      returns (error: Option<StoreError>)
      requires Valid(entities, limits)
      modifies this
      ensures Valid(entities, limits) && entities == After(old(entities), Update(id, expected, changes, now), limits)
      ensures error == Refusal(Proposed(old(entities), Update(id, expected, changes, now)))
      ensures UpdateDone(old(entities), entities, id, expected, changes, now, error)
    {
      UpdateEffect(entities, id, expected, changes, now, limits);
      var byId := Discover();
      var current := RequireCurrent(byId, entities, limits, id, expected, Active);
      if current.Err? {
        return Some(current.error);
      }
      if current.value.document.status == Approved {
        return Some(ApprovedImmutable);
      }
      var next := Replaced(entities, current.value, Changed(current.value.document, changes, now));
      error := Apply(Update(id, expected, changes, now), Ok(next));
    }

    method TransitionDocument(id: string, expected: Revision, to: Status, intent: string, actor: string, evidence: Json,
                              now: string)
      returns (error: Option<StoreError>)
      requires Valid(entities, limits)
      modifies this
      ensures Valid(entities, limits)
      ensures entities == After(old(entities), Transition(id, expected, to, intent, actor, evidence, now), limits)
      ensures error == Refusal(Proposed(old(entities), Transition(id, expected, to, intent, actor, evidence, now)))
      ensures TransitionDone(old(entities), entities, Transition(id, expected, to, intent, actor, evidence, now), error)
    {
      TransitionEffect(entities, Transition(id, expected, to, intent, actor, evidence, now), limits);
      var byId := Discover();
      var current := RequireCurrent(byId, entities, limits, id, expected, Active);
      if current.Err? {
        return Some(current.error);
      }
      if !Allowed(current.value.document.status, to) {
        return Some(TransitionInvalid);
      }
      if Blank(intent) || Blank(actor) {
        return Some(EvidenceRequired);
      }
      var document := Transitioned(current.value.document, to, Evidence(intent, actor, evidence), now);
      error := Apply(Transition(id, expected, to, intent, actor, evidence, now),
                     Ok(Replaced(entities, current.value, document)));
    }

    method AddVersion(id: string, expected: Revision, changes: Changes, now: string) returns (error: Option<StoreError>)
      requires Valid(entities, limits)
      modifies this
      ensures Valid(entities, limits) && entities == After(old(entities), Version(id, expected, changes, now), limits)
      ensures Proposed(old(entities), Version(id, expected, changes, now)).Err? ==>
                error == Refusal(Proposed(old(entities), Version(id, expected, changes, now)))
      ensures Proposed(old(entities), Version(id, expected, changes, now)).Ok? ==>
                (error.None? <==> Room(old(entities), Version(id, expected, changes, now), limits))
      ensures VersionDone(old(entities), entities, id, expected, changes, now, limits, error)
    {
      VersionEffect(entities, id, expected, changes, now, limits);
      var byId := Discover();
      var current := RequireCurrent(byId, entities, limits, id, expected, Active);
      if current.Err? {
        return Some(current.error);
      }
      if current.value.document.status != Approved {
        return Some(RequiresApproved);
      }
      var next := Entity(NextVersion(current.value.document, changes, now), Active);
      error := Apply(Version(id, expected, changes, now), Ok(entities + [next]));
    }

    method MoveLineage(id: string, expected: Revision, destination: Location) returns (error: Option<StoreError>)
      requires Valid(entities, limits)
      modifies this
      ensures Valid(entities, limits) && entities == After(old(entities), Move(id, expected, destination), limits)
      ensures error == Refusal(Proposed(old(entities), Move(id, expected, destination)))
      ensures MoveDone(old(entities), entities, id, expected, destination, error)
    {
      MoveEffect(entities, id, expected, destination, limits);
      var byId := Discover();
      var current := RequireCurrent(byId, entities, limits, id, expected,
                                    if destination == Archive then Active else Archive);
      if current.Err? {
        return Some(current.error);
      }
      error := Apply(Move(id, expected, destination),
                     Ok(Others(entities, id) + Moved(Lineage(entities, id), destination)));
    }

    /** Imports all documents of a bundle or none; a preview only reports. */
    method ImportDocuments(items: seq<BundleItem>, preview: bool) returns (report: ImportReport)
      requires Valid(entities, limits)
      modifies this
      ensures Valid(entities, limits)
      ensures report.valid <==> None !in items && Valid(old(entities) + Decoded(items), limits)
      ensures report.valid ==> report.additions == |items| && report.conflicts == 0 && report.unsupported == 0
      ensures report.conflicts > 0 <==> exists k :: 0 <= k < |items| && Conflicting(old(entities), items[k])
      ensures entities == if preview then old(entities) else After(old(entities), Import(items), limits)
      ensures preview || !report.valid ==> entities == old(entities)
      ensures !preview && report.valid ==> exists added :: entities == old(entities) + added && AreItems(added, items)
    {
      var additions, conflicts, unsupported := AssessImport(entities, items, limits);
      report := ImportReport(preview, conflicts == 0 && unsupported == 0, |additions|, conflicts, unsupported);
      if !preview && report.valid {
        DecodedAre(items);
        entities := entities + additions;
      }
    }
  }

  /** Classifies the items and checks the catalog they would make. */
  method AssessImport(entities: seq<Entity>, items: seq<BundleItem>, limits: Limits)
    returns (additions: seq<Entity>, conflicts: nat, unsupported: nat)
    ensures conflicts == 0 && unsupported == 0 <==> None !in items && Valid(entities + Decoded(items), limits)
    ensures conflicts == 0 && unsupported == 0 ==> additions == Decoded(items) && |additions| == |items|
    ensures conflicts > 0 <==> exists k :: 0 <= k < |items| && Conflicting(entities, items[k])
    ensures var whole := if Valid(entities + additions, limits) then 0 else 1;
            unsupported == multiset(items)[None] + whole && |additions| + conflicts + unsupported == |items| + whole
    ensures Separated(entities, items, additions)
  {
    additions, conflicts, unsupported := ClassifyItems(entities, items);
    ConflictsAreInvalid(entities, items, limits);
    var proposed := CatalogFromEntities(entities + additions, limits);
    if proposed.Err? {
      unsupported := unsupported + 1;
    }
  }

  /** The additions are the items that can be decoded and are not stored yet, as often as they come. */
  ghost predicate Separated(entities: seq<Entity>, items: seq<BundleItem>, additions: seq<Entity>) {
    forall e :: multiset(additions)[e] == if Conflicting(entities, Some(e)) then 0 else multiset(items)[Some(e)]
  }

  lemma SeparatedMore(entities: seq<Entity>, items: seq<BundleItem>, additions: seq<Entity>, item: BundleItem)
    requires Separated(entities, items, additions)
    ensures item.None? || Conflicting(entities, item) ==> Separated(entities, items + [item], additions)
    ensures item.Some? && !Conflicting(entities, item) ==>
              Separated(entities, items + [item], additions + [item.value])
  {
  }

  ghost predicate NoConflict(entities: seq<Entity>, items: seq<BundleItem>) {
    forall k :: 0 <= k < |items| ==> !Conflicting(entities, items[k])
  }

  lemma NoConflictMore(entities: seq<Entity>, items: seq<BundleItem>, item: BundleItem)
    ensures NoConflict(entities, items + [item]) <==> NoConflict(entities, items) && !Conflicting(entities, item)
  {
    var more := items + [item];
    if NoConflict(entities, more) {
      assert !Conflicting(entities, more[|items|]);
      forall k | 0 <= k < |items| ensures !Conflicting(entities, items[k]) {
        assert more[k] == items[k];
      }
    }
  }

  ghost predicate Classified(entities: seq<Entity>, items: seq<BundleItem>, additions: seq<Entity>, conflicts: nat,
                             unsupported: nat) {
    && Separated(entities, items, additions) && |additions| + conflicts + unsupported == |items|
    && unsupported == multiset(items)[None]
    && (conflicts == 0 <==> NoConflict(entities, items))
    && (conflicts == 0 ==> additions == Decoded(items))
  }

  lemma ClassifiedMore(entities: seq<Entity>, items: seq<BundleItem>, additions: seq<Entity>, conflicts: nat,
                       unsupported: nat, item: BundleItem, next: (seq<Entity>, nat, nat))
    requires Classified(entities, items, additions, conflicts, unsupported)
    requires next == if item.None? then (additions, conflicts, unsupported + 1)
                     else if Conflicting(entities, item) then (additions, conflicts + 1, unsupported)
                     else (additions + [item.value], conflicts, unsupported)
    ensures Classified(entities, items + [item], next.0, next.1, next.2)
  {
    SeparatedMore(entities, items, additions, item);
    NoConflictMore(entities, items, item);
    assert (items + [item])[..|items|] == items;
  }

  /** Separates what can be added from stored versions and from what cannot be decoded. */
  method ClassifyItems(entities: seq<Entity>, items: seq<BundleItem>)
    returns (additions: seq<Entity>, conflicts: nat, unsupported: nat)
    ensures Classified(entities, items, additions, conflicts, unsupported)
  {
    additions, conflicts, unsupported := [], 0, 0;
    for i := 0 to |items|
      invariant Classified(entities, items[..i], additions, conflicts, unsupported)
    {
      var item := items[i];
      assert items[..i + 1] == items[..i] + [item];
      ghost var before := (additions, conflicts, unsupported);
      if item.None? {
        unsupported := unsupported + 1;
      } else if exists e :: e in entities && KeyOf(e) == KeyOf(item.value) {
        conflicts := conflicts + 1;
      } else {
        additions := additions + [item.value];
      }
      ClassifiedMore(entities, items[..i], before.0, before.1, before.2, item, (additions, conflicts, unsupported));
    }
    assert items[..|items|] == items;
  }

  ghost predicate AreItems(added: seq<Entity>, items: seq<BundleItem>) {
    |added| == |items| && forall i :: 0 <= i < |items| ==> items[i] == Some(added[i])
  }

  lemma {:induction false} DecodedAre(items: seq<BundleItem>)
    requires None !in items
    ensures AreItems(Decoded(items), items)
  {
    if items != [] {
      var n := |items| - 1;
      assert items == items[..n] + [items[n]];
      DecodedAre(items[..n]);
    }
  }

  ghost predicate Conflicting(entities: seq<Entity>, item: BundleItem) {
    item.Some? && exists e :: e in entities && KeyOf(e) == KeyOf(item.value)
  }

  lemma {:induction false} DecodedHas(items: seq<BundleItem>, k: nat)
    requires k < |items| && items[k].Some?
    ensures items[k].value in Decoded(items)
  {
    if k < |items| - 1 {
      DecodedHas(items[..|items| - 1], k);
    }
  }

  /** A version that is already stored makes the whole bundle invalid. */
  lemma ConflictsAreInvalid(entities: seq<Entity>, items: seq<BundleItem>, limits: Limits)
    ensures (exists k :: 0 <= k < |items| && Conflicting(entities, items[k])) ==>
              !Valid(entities + Decoded(items), limits)
  {
    forall k | 0 <= k < |items| && Conflicting(entities, items[k]) ensures !Valid(entities + Decoded(items), limits) {
      var e :| e in entities && KeyOf(e) == KeyOf(items[k].value);
      DecodedHas(items, k);
      RepeatedVersion(entities, Decoded(items), e, items[k].value);
    }
  }

  lemma RepeatedVersion(entities: seq<Entity>, more: seq<Entity>, e: Entity, f: Entity)
    requires e in entities && f in more && KeyOf(e) == KeyOf(f)
    ensures !Unique(entities + more)
  {
    var i :| 0 <= i < |entities| && entities[i] == e;
    var j :| 0 <= j < |more| && more[j] == f;
    RepeatedKey(Keys(entities + more), i, |entities| + j);
  }
}
