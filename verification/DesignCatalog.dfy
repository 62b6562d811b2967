/**
 * The catalog of design documents: all versions of a document form one lineage, and a
 * proposed catalog is accepted exactly when every lineage is whole.
 *
 * A lineage is whole when its versions are 1 to n, in one location, with one creation time,
 * and all but the last are approved. `Sound` states this over pairs of entities, in any
 * order; `IsLineage` states it by position, as the checks find it after sorting.
 */
module DesignCatalog {
  import opened Values

  datatype Status = Draft | Review | Approved

  datatype Location = Active | Archive

  type Metadata = map<string, Json>

  datatype Document = Document(id: string, title: string, kind: string, status: Status, version: nat,
                               createdAt: string, updatedAt: string, metadata: Option<Metadata>, body: string)

  datatype Entity = Entity(document: Document, location: Location)

  datatype Limits = Limits(maxFiles: nat, maxVersions: nat)

  datatype Error =
    | FileCountLimit
    | VersionLimit(id: string)
    | PathCollision(id: string)
    | VersionDuplicate(id: string)
    | LineageSplit(id: string)
    | LineageGap(id: string)
    | LineageCreatedAt(id: string)
    | PredecessorUnapproved(id: string)

  type Key = (string, nat)

  function KeyOf(e: Entity): Key {
    (e.document.id, e.document.version)
  }

  function Keys(entities: seq<Entity>): seq<Key> {
    seq(|entities|, i requires 0 <= i < |entities| => KeyOf(entities[i]))
  }

  ghost predicate Unique(entities: seq<Entity>) {
    forall key :: multiset(Keys(entities))[key] <= 1
  }

  /** Versions of one document share their location and creation time; earlier ones are approved. */
  ghost predicate Agrees(e: Entity, f: Entity) {
    e.document.id == f.document.id ==>
      && e.location == f.location
      && e.document.createdAt == f.document.createdAt
      && (e.document.version < f.document.version ==> e.document.status == Approved)
  }

  ghost predicate Has(entities: seq<Entity>, id: string, version: int) {
    exists e :: e in entities && e.document.id == id && e.document.version == version
  }

  /** A version is the first one or follows its predecessor. */
  ghost predicate Founded(entities: seq<Entity>, e: Entity) {
    e.document.version == 1 || (e.document.version > 1 && Has(entities, e.document.id, e.document.version - 1))
  }

  /** Every lineage is whole: versions 1 to n in one place, all but the last approved. */
  ghost predicate Sound(entities: seq<Entity>) {
    && Unique(entities)
    && (forall e, f :: e in entities && f in entities ==> Agrees(e, f))
    && forall e :: e in entities ==> Founded(entities, e)
  }

  ghost predicate WithinLimits(entities: seq<Entity>, limits: Limits) {
    |entities| <= limits.maxFiles && forall e :: e in entities ==> e.document.version <= limits.maxVersions
  }

  ghost predicate Valid(entities: seq<Entity>, limits: Limits) {
    Sound(entities) && WithinLimits(entities, limits)
  }

  function Lineage(entities: seq<Entity>, id: string): seq<Entity> {
    if entities == [] then []
    else
      var last, rest := entities[|entities| - 1], Lineage(entities[..|entities| - 1], id);
      if last.document.id == id then rest + [last] else rest
  }

  lemma {:induction false} LineageMembers(entities: seq<Entity>, id: string)
    ensures forall e :: e in Lineage(entities, id) <==> e in entities && e.document.id == id
  {
    if entities != [] {
      var n := |entities| - 1;
      LineageMembers(entities[..n], id);
      assert entities == entities[..n] + [entities[n]];
    }
  }

  /** A lineage in version order, as the checks leave it. */
  ghost predicate IsLineage(lineage: seq<Entity>, maxVersions: nat) {
    && |lineage| <= maxVersions
    && forall i :: 0 <= i < |lineage| ==>
                     && lineage[i].document.version == i + 1
                     && lineage[i].location == lineage[0].location
                     && lineage[i].document.createdAt == lineage[0].document.createdAt
                     && (i < |lineage| - 1 ==> lineage[i].document.status == Approved)
  }

  ghost predicate Increasing(lineage: seq<Entity>) {
    forall i, j :: 0 <= i < j < |lineage| ==> lineage[i].document.version < lineage[j].document.version
  }

  ghost predicate VersionOrder(entities: seq<Entity>) {
    forall i, j :: 0 <= i < j < |entities| && entities[i].document.id == entities[j].document.id ==>
      entities[i].document.version <= entities[j].document.version
  }

  // ---------------------------------------------------------------- permutations

  lemma KeysConcat(a: seq<Entity>, b: seq<Entity>)
    ensures Keys(a + b) == Keys(a) + Keys(b)
  {
  }

  lemma UniqueKey(entities: seq<Entity>, i: nat, j: nat)
    requires Unique(entities) && i < |entities| && j < |entities| && KeyOf(entities[i]) == KeyOf(entities[j])
    ensures i == j
  {
    if i < j {
      RepeatedKey(Keys(entities), i, j);
    } else if j < i {
      RepeatedKey(Keys(entities), j, i);
    }
  }

  lemma RepeatedKey(keys: seq<Key>, i: nat, j: nat)
    requires i < j < |keys|
    ensures keys[i] == keys[j] ==> multiset(keys)[keys[i]] >= 2
  {
    assert keys == keys[..i] + [keys[i]] + keys[i + 1..j] + [keys[j]] + keys[j + 1..];
  }

  lemma UniqueValue(entities: seq<Entity>, e: Entity, f: Entity)
    requires Unique(entities) && e in entities && f in entities && KeyOf(e) == KeyOf(f)
    ensures e == f
  {
    var i :| 0 <= i < |entities| && entities[i] == e;
    var j :| 0 <= j < |entities| && entities[j] == f;
    UniqueKey(entities, i, j);
  }

  lemma UniquePart(part: seq<Entity>, rest: seq<Entity>)
    requires Unique(part + rest)
    ensures Unique(part)
  {
    KeysConcat(part, rest);
    forall key ensures multiset(Keys(part))[key] <= 1 {
      assert multiset(Keys(part + rest))[key] <= 1;
    }
  }

  ghost predicate SameEntities(a: seq<Entity>, b: seq<Entity>) {
    && |a| == |b| && multiset(Keys(a)) == multiset(Keys(b))
    && forall e :: e in a <==> e in b
  }

  lemma SameIsValid(a: seq<Entity>, b: seq<Entity>, limits: Limits)
    requires SameEntities(a, b)
    ensures Sound(a) ==> Sound(b)
    ensures WithinLimits(a, limits) ==> WithinLimits(b, limits)
  {
    if Sound(a) {
      forall e | e in b ensures Founded(b, e) {
        assert Founded(a, e);
        SameHas(a, b, e.document.id, e.document.version - 1);
      }
    }
  }

  lemma SameHas(a: seq<Entity>, b: seq<Entity>, id: string, version: int)
    requires forall e :: e in a ==> e in b
    ensures Has(a, id, version) ==> Has(b, id, version)
  {
  }

  lemma InsertedAt(entities: seq<Entity>, k: nat, e: Entity)
    requires k <= |entities|
    ensures SameEntities(entities[..k] + [e] + entities[k..], entities + [e])
  {
    var a, b := entities[..k], entities[k..];
    assert entities == a + b;
    KeysConcat(a, b);
    KeysConcat(a + b, [e]);
    KeysConcat(a, [e]);
    KeysConcat(a + [e], b);
  }

  ghost predicate Rising(entities: seq<Entity>) {
    forall i, j :: 0 <= i < j < |entities| ==> entities[i].document.version <= entities[j].document.version
  }

  method Insert(sorted: seq<Entity>, e: Entity) returns (longer: seq<Entity>)
    requires Rising(sorted)
    ensures Rising(longer) && SameEntities(longer, sorted + [e])
  {
    var k := |sorted|;
    while k > 0 && sorted[k - 1].document.version > e.document.version
      invariant 0 <= k <= |sorted|
      invariant forall l :: k <= l < |sorted| ==> e.document.version < sorted[l].document.version
    {
      k := k - 1;
    }
    InsertedAt(sorted, k, e);
    longer := sorted[..k] + [e] + sorted[k..];
  }

  /** The library sort, reduced to what the checks rely on: versions of one document in order. */
  method SortEntities(entities: seq<Entity>) returns (sorted: seq<Entity>)
    ensures SameEntities(sorted, entities) && VersionOrder(sorted)
  {
    sorted := [];
    for i := 0 to |entities|
      invariant SameEntities(sorted, entities[..i]) && Rising(sorted)
    {
      SameAppend(sorted, entities[..i], entities[i]);
      assert entities[..i + 1] == entities[..i] + [entities[i]];
      sorted := Insert(sorted, entities[i]);
    }
    assert entities[..|entities|] == entities;
  }

  lemma SameAppend(a: seq<Entity>, b: seq<Entity>, e: Entity)
    requires SameEntities(a, b)
    ensures SameEntities(a + [e], b + [e])
  {
    KeysConcat(a, [e]);
    KeysConcat(b, [e]);
  }

  // ---------------------------------------------------------------- lineages

  lemma {:induction false} LineageIncreases(sorted: seq<Entity>, id: string)
    requires VersionOrder(sorted) && Unique(sorted)
    ensures Increasing(Lineage(sorted, id))
  {
    if sorted != [] {
      var n := |sorted| - 1;
      var before := sorted[..n];
      UniqueInit(sorted);
      LineageIncreases(before, id);
      LineageMembers(before, id);
      forall e | e in Lineage(before, id) && sorted[n].document.id == id
        ensures e.document.version < sorted[n].document.version
      {
        LastIsNewest(sorted, e);
      }
    }
  }

  lemma UniqueInit(entities: seq<Entity>)
    requires entities != [] && Unique(entities)
    ensures Unique(entities[..|entities| - 1])
  {
    var n := |entities| - 1;
    assert entities == entities[..n] + [entities[n]];
    UniquePart(entities[..n], [entities[n]]);
  }

  lemma LastIsNewest(sorted: seq<Entity>, e: Entity)
    requires sorted != [] && VersionOrder(sorted) && Unique(sorted)
    requires e in sorted[..|sorted| - 1] && e.document.id == sorted[|sorted| - 1].document.id
    ensures e.document.version < sorted[|sorted| - 1].document.version
  {
    var n := |sorted| - 1;
    var i :| 0 <= i < n && sorted[i] == e;
    RepeatedKey(Keys(sorted), i, n);
  }

  /** In a sound catalog the k-th of a lineage is version k. */
  lemma {:induction false} VersionAtIndex(entities: seq<Entity>, id: string, i: nat)
    requires Sound(entities) && Increasing(Lineage(entities, id)) && i < |Lineage(entities, id)|
    ensures Lineage(entities, id)[i].document.version == i + 1
  {
    var lineage := Lineage(entities, id);
    if i > 0 {
      VersionAtIndex(entities, id, i - 1);
    }
    FoundedVersion(entities, id, i);
    if lineage[i].document.version > 1 {
      var k := PredecessorIndex(entities, id, i);
      VersionAtIndex(entities, id, k);
    }
  }

  lemma FoundedVersion(entities: seq<Entity>, id: string, i: nat)
    requires Sound(entities) && i < |Lineage(entities, id)|
    ensures var version := Lineage(entities, id)[i].document.version;
            version == 1 || (version > 1 && Has(entities, id, version - 1))
  {
    LineageMembers(entities, id);
    assert Lineage(entities, id)[i] in Lineage(entities, id) && Founded(entities, Lineage(entities, id)[i]);
  }

  lemma PredecessorIndex(entities: seq<Entity>, id: string, i: nat) returns (k: nat)
    requires Increasing(Lineage(entities, id)) && i < |Lineage(entities, id)|
    requires Has(entities, id, Lineage(entities, id)[i].document.version - 1)
    ensures k < i && Lineage(entities, id)[k].document.version == Lineage(entities, id)[i].document.version - 1
  {
    var lineage := Lineage(entities, id);
    LineageMembers(entities, id);
    var f :| f in entities && f.document.id == id && f.document.version == lineage[i].document.version - 1;
    assert f in lineage;
    k :| 0 <= k < |lineage| && lineage[k] == f;
  }

  lemma SoundLineage(entities: seq<Entity>, id: string)
    requires Sound(entities) && Increasing(Lineage(entities, id))
    ensures IsLineage(Lineage(entities, id), |Lineage(entities, id)|)
  {
    var lineage := Lineage(entities, id);
    LineageMembers(entities, id);
    forall i | 0 <= i < |lineage|
      ensures && lineage[i].document.version == i + 1
              && lineage[i].location == lineage[0].location
              && lineage[i].document.createdAt == lineage[0].document.createdAt
              && (i < |lineage| - 1 ==> lineage[i].document.status == Approved)
    {
      VersionAtIndex(entities, id, i);
      assert lineage[i] in lineage && lineage[0] in lineage && lineage[|lineage| - 1] in lineage;
      assert Agrees(lineage[i], lineage[0]) && Agrees(lineage[i], lineage[|lineage| - 1]);
    }
  }

  /** Conversely, whole lineages make a sound catalog. */
  lemma LineagesAreSound(entities: seq<Entity>, maxVersions: nat)
    requires Unique(entities)
    requires forall e :: e in entities ==> IsLineage(Lineage(entities, e.document.id), maxVersions)
    ensures Sound(entities) && forall e :: e in entities ==> e.document.version <= maxVersions
  {
    forall e | e in entities ensures Founded(entities, e) && e.document.version <= maxVersions {
      FoundedInLineage(entities, e, maxVersions);
    }
    forall e, f | e in entities && f in entities ensures Agrees(e, f) {
      AgreesInLineage(entities, e, f, maxVersions);
    }
  }

  lemma FoundedInLineage(entities: seq<Entity>, e: Entity, maxVersions: nat)
    requires e in entities && IsLineage(Lineage(entities, e.document.id), maxVersions)
    ensures Founded(entities, e) && e.document.version <= maxVersions
  {
    var lineage := Lineage(entities, e.document.id);
    LineageMembers(entities, e.document.id);
    var i :| 0 <= i < |lineage| && lineage[i] == e;
    if i > 0 {
      assert lineage[i - 1] in lineage;
    }
  }

  lemma AgreesInLineage(entities: seq<Entity>, e: Entity, f: Entity, maxVersions: nat)
    requires e in entities && f in entities && IsLineage(Lineage(entities, e.document.id), maxVersions)
    ensures Agrees(e, f)
  {
    if e.document.id == f.document.id {
      var lineage := Lineage(entities, e.document.id);
      LineageMembers(entities, e.document.id);
      var i :| 0 <= i < |lineage| && lineage[i] == e;
      var j :| 0 <= j < |lineage| && lineage[j] == f;
    }
  }

  /** The first rule, in the order of the checks, that a lineage breaks. */
  function DefectOf(id: string, lineage: seq<Entity>, maxVersions: nat): Error {
    if |lineage| > maxVersions then VersionLimit(id)
    else if exists i :: 0 <= i < |lineage| && lineage[i].location != lineage[0].location then LineageSplit(id)
    else if exists i :: 0 <= i < |lineage| && lineage[i].document.version != i + 1 then LineageGap(id)
    else if exists i :: 0 <= i < |lineage| && lineage[i].document.createdAt != lineage[0].document.createdAt then
      LineageCreatedAt(id)
    else PredecessorUnapproved(id)
  }

  /** The checks of one lineage, given in version order. */
  method ValidateLineage(id: string, lineage: seq<Entity>, maxVersions: nat) returns (error: Option<Error>)
    requires lineage != [] && Increasing(lineage)
    ensures error.None? <==> IsLineage(lineage, maxVersions)
    ensures error.Some? ==> error.value == DefectOf(id, lineage, maxVersions)
  {
    if |lineage| > maxVersions {
      return Some(VersionLimit(id));
    }
    for i := 0 to |lineage|
      invariant forall k :: 0 <= k < i ==> lineage[k].location == lineage[0].location
    {
      if lineage[i].location != lineage[0].location {
        return Some(LineageSplit(id));
      }
    }
    for i := 0 to |lineage|
      invariant forall k :: 0 <= k < i ==> lineage[k].document.version == k + 1
    {
      if lineage[i].document.version != i + 1 {
        return Some(LineageGap(id));
      }
    }
    for i := 0 to |lineage|
      invariant forall k :: 0 <= k < i ==> lineage[k].document.createdAt == lineage[0].document.createdAt
    {
      if lineage[i].document.createdAt != lineage[0].document.createdAt {
        return Some(LineageCreatedAt(id));
      }
    }
    for i := 0 to |lineage| - 1
      invariant forall k :: 0 <= k < i ==> lineage[k].document.status == Approved
    {
      if lineage[i].document.status != Approved {
        return Some(PredecessorUnapproved(id));
      }
    }
    error := None;
  }

  // ---------------------------------------------------------------- the catalog

  type Catalog = map<string, seq<Entity>>

  /** Each document with its lineage in version order. */
  ghost predicate IsCatalog(byId: Catalog, entities: seq<Entity>, limits: Limits) {
    && (forall e :: e in entities ==> e.document.id in byId)
    && forall id :: id in byId ==>
                      && byId[id] != [] && IsLineage(byId[id], limits.maxVersions)
                      && forall e :: e in byId[id] <==> e in entities && e.document.id == id
  }

  ghost predicate Grouped(byId: Catalog, entities: seq<Entity>) {
    && (forall id :: id in byId <==> Lineage(entities, id) != [])
    && forall id :: id in byId ==> byId[id] == Lineage(entities, id)
  }

  lemma GroupMore(byId: Catalog, entities: seq<Entity>, e: Entity)
    requires Grouped(byId, entities)
    ensures var id := e.document.id; Grouped(byId[id := (if id in byId then byId[id] else []) + [e]], entities + [e])
  {
    assert (entities + [e])[..|entities|] == entities;
  }

  /** The file of a document is named by its title and version. */
  function PathOf(e: Entity): (Location, string, string, nat) {
    (e.location, e.document.id, e.document.title, e.document.version)
  }

  /** The first repetition, told apart by whether the two entities would also share their file. */
  ghost predicate Repetition(sorted: seq<Entity>, i: nat, j: nat, error: Error)
    requires i < j < |sorted|
  {
    && Unique(sorted[..j]) && KeyOf(sorted[i]) == KeyOf(sorted[j])
    && var (e, f) := (sorted[i], sorted[j]);
       if e.location == f.location && e.document.title == f.document.title then error == PathCollision(f.document.id)
       else error == VersionDuplicate(f.document.id)
  }

  ghost predicate IsRepetition(sorted: seq<Entity>, error: Error) {
    exists i: nat, j: nat :: i < j < |sorted| && Repetition(sorted, i, j, error)
  }

  ghost predicate PathsAre(sorted: seq<Entity>, n: nat, paths: set<(Location, string, string, nat)>) {
    n <= |sorted| && paths == set k | 0 <= k < n :: PathOf(sorted[k])
  }

  lemma NextPath(sorted: seq<Entity>, i: nat, paths: set<(Location, string, string, nat)>)
    requires i < |sorted| && Unique(sorted[..i]) && PathsAre(sorted, i, paths)
    ensures PathsAre(sorted, i + 1, paths + {PathOf(sorted[i])})
    ensures PathOf(sorted[i]) in paths ==>
              KeyOf(sorted[i]) in Keys(sorted[..i]) && IsRepetition(sorted, PathCollision(sorted[i].document.id))
    ensures PathOf(sorted[i]) !in paths && KeyOf(sorted[i]) in Keys(sorted[..i]) ==>
              IsRepetition(sorted, VersionDuplicate(sorted[i].document.id))
  {
    var e, keys := sorted[i], Keys(sorted[..i]);
    if PathOf(e) in paths {
      var k :| 0 <= k < i && PathOf(sorted[k]) == PathOf(e);
      assert keys[k] == KeyOf(e);
      assert Repetition(sorted, k, i, PathCollision(e.document.id));
    } else if KeyOf(e) in keys {
      var k :| 0 <= k < i && keys[k] == KeyOf(e);
      assert PathOf(sorted[k]) in paths;
      assert Repetition(sorted, k, i, VersionDuplicate(e.document.id));
    }
  }

  /** Groups the entities by document, refusing a version that occurs twice. */
  method GroupEntities(sorted: seq<Entity>) returns (result: Result<Catalog, Error>)
    requires VersionOrder(sorted)
    ensures result.Ok? <==> Unique(sorted)
    ensures result.Ok? ==> Grouped(result.value, sorted)
    ensures result.Err? ==> IsRepetition(sorted, result.error)
  {
    var paths: set<(Location, string, string, nat)>, versions: set<Key>, byId: Catalog := {}, {}, map[];
    for i := 0 to |sorted|
      invariant PathsAre(sorted, i, paths)
      invariant forall key :: key in versions <==> key in Keys(sorted[..i])
      invariant Unique(sorted[..i])
      invariant Grouped(byId, sorted[..i])
    {
      var e := sorted[i];
      var id, version := e.document.id, e.document.version;
      NextEntity(sorted, i);
      var path := PathOf(e);
      NextPath(sorted, i, paths);
      if path in paths {
        return Err(PathCollision(id));
      }
      if (id, version) in versions {
        return Err(VersionDuplicate(id));
      }
      paths, versions := paths + {path}, versions + {(id, version)};
      GroupMore(byId, sorted[..i], e);
      assert sorted[..i + 1] == sorted[..i] + [e];
      byId := byId[id := (if id in byId then byId[id] else []) + [e]];
    }
    assert sorted[..|sorted|] == sorted;
    result := Ok(byId);
  }

  lemma NextEntity(sorted: seq<Entity>, i: nat)
    requires i < |sorted| && Unique(sorted[..i])
    ensures Keys(sorted[..i + 1]) == Keys(sorted[..i]) + [KeyOf(sorted[i])]
    ensures KeyOf(sorted[i]) in Keys(sorted[..i]) ==> !Unique(sorted)
    ensures KeyOf(sorted[i]) !in Keys(sorted[..i]) ==> Unique(sorted[..i + 1])
  {
    KeysConcat(sorted[..i], [sorted[i]]);
    assert sorted[..i + 1] == sorted[..i] + [sorted[i]];
    if KeyOf(sorted[i]) in Keys(sorted[..i]) {
      var k :| 0 <= k < i && Keys(sorted[..i])[k] == KeyOf(sorted[i]);
      assert Keys(sorted)[k] == Keys(sorted)[i];
      RepeatedKey(Keys(sorted), k, i);
    }
  }

  /** A proposed catalog is accepted exactly when it is sound and within the limits. */
  method CatalogFromEntities(entities: seq<Entity>, limits: Limits) returns (result: Result<Catalog, Error>)
    ensures result.Ok? <==> Valid(entities, limits)
    ensures result.Ok? ==> IsCatalog(result.value, entities, limits)
    ensures result.Err? && Sound(entities) ==> result.error.FileCountLimit? || result.error.VersionLimit?
  {
    var sorted := SortEntities(entities);
    SameIsValid(sorted, entities, limits);
    SameIsValid(entities, sorted, limits);
    if |entities| > limits.maxFiles {
      return Err(FileCountLimit);
    }
    result := GroupEntities(sorted);
    if result.Err? {
      return;
    }
    var byId := result.value;
    var ids := byId.Keys;
    while ids != {}
      invariant ids <= byId.Keys
      invariant forall id :: id in byId && id !in ids ==> IsLineage(byId[id], limits.maxVersions)
      decreases |ids|
    {
      var id :| id in ids;
      LineageIncreases(sorted, id);
      var error := ValidateLineage(id, byId[id], limits.maxVersions);
      if error.Some? {
        BrokenLineage(sorted, id, limits);
        return Err(error.value);
      }
      ids := ids - {id};
    }
    WholeCatalog(byId, sorted, limits);
    result := Ok(byId);
  }

  /** In a sound catalog only the number of versions can break a lineage. */
  lemma BrokenLineage(sorted: seq<Entity>, id: string, limits: Limits)
    requires Increasing(Lineage(sorted, id)) && !IsLineage(Lineage(sorted, id), limits.maxVersions)
    ensures Sound(sorted) ==> |Lineage(sorted, id)| > limits.maxVersions && !WithinLimits(sorted, limits)
  {
    if Sound(sorted) {
      var lineage := Lineage(sorted, id);
      SoundLineage(sorted, id);
      LineageMembers(sorted, id);
      assert lineage[|lineage| - 1] in lineage;
    }
  }

  lemma WholeCatalog(byId: Catalog, sorted: seq<Entity>, limits: Limits)
    requires Unique(sorted) && Grouped(byId, sorted)
    requires forall id :: id in byId ==> IsLineage(byId[id], limits.maxVersions)
    ensures IsCatalog(byId, sorted, limits) && Sound(sorted)
    ensures forall e :: e in sorted ==> e.document.version <= limits.maxVersions
  {
    forall e | e in sorted ensures e.document.id in byId {
      LineageMembers(sorted, e.document.id);
      assert e in Lineage(sorted, e.document.id);
    }
    forall id | id in byId ensures forall e :: e in byId[id] <==> e in sorted && e.document.id == id {
      LineageMembers(sorted, id);
    }
    LineagesAreSound(sorted, limits.maxVersions);
  }
}
