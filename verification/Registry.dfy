/** Owned configuration paths are prefix-free, so accepted fragments split into shards and are reassembled. */
module Registry {
  import opened Values
  import opened JsonPaths

  datatype OwnedPath = OwnedPath(contribution: string, path: JsonPath, legacy: bool)

  datatype Contribution = Contribution(id: string, path: JsonPath, legacyPaths: seq<JsonPath>)

  datatype ProblemCode = DuplicateId | DuplicatePath | AliasCollision | OverlappingPath

  datatype Problem = Problem(code: ProblemCode, left: string, right: string)

  // ---------------------------------------------------------------- registration

  /** Only files may still use the legacy paths; runtime overrides may not. */
  function PossiblePaths(contribution: Contribution, file: bool): seq<JsonPath> {
    [contribution.path] + if file then contribution.legacyPaths else []
  }

  /** Every path a contribution claims, the canonical one first. */
  function CollectOwnedPaths(contribution: Contribution): seq<OwnedPath> {
    var paths := PossiblePaths(contribution, true);
    seq(|paths|, i requires 0 <= i < |paths| => OwnedPath(contribution.id, paths[i], i != 0))
  }

  function CollectAll(contributions: seq<Contribution>): seq<OwnedPath> {
    if contributions == [] then []
    else CollectAll(contributions[..|contributions| - 1]) + CollectOwnedPaths(contributions[|contributions| - 1])
  }

  /** Two paths conflict exactly when one is a prefix of the other. */
  method PathsOverlap(left: JsonPath, right: JsonPath) returns (overlap: bool)
    ensures overlap <==> left <= right || right <= left
  {
    var sharedLength := if |left| < |right| then |left| else |right|;
    for index := 0 to sharedLength
      invariant left[..index] == right[..index]
    {
      if left[index] != right[index] {
        return false;
      }
    }
    return true;
  }

  /** No owned path is a prefix of another, or equal to it. */
  ghost predicate PrefixFree(owned: seq<OwnedPath>) {
    forall i, j :: 0 <= i < j < |owned| ==> Apart(owned[i].path, owned[j].path)
  }

  ghost predicate DistinctIds(contributions: seq<Contribution>) {
    forall i, j :: 0 <= i < j < |contributions| ==> contributions[i].id != contributions[j].id
  }

  /** What registration accepts: distinct ids, and no owned path a prefix of another. */
  ghost predicate IsRegistry(contributions: seq<Contribution>) {
    DistinctIds(contributions) && PrefixFree(CollectAll(contributions))
  }

  function ProblemOf(left: OwnedPath, right: OwnedPath): Problem {
    var code := if left.path != right.path then OverlappingPath
                else if left.legacy || right.legacy then AliasCollision else DuplicatePath;
    Problem(code, left.contribution, right.contribution)
  }

  // ---------------------------------------------------------------- clashes

  /** How many paths a contribution may be found at: only a file may use the legacy ones. */
  ghost function Places(c: Contribution, file: bool): nat {
    if file then 1 + |c.legacyPaths| else 1
  }

  /** Its canonical path, or one of its legacy paths. */
  ghost function Place(c: Contribution, j: nat): JsonPath
    requires j <= |c.legacyPaths|
  {
    if j == 0 then c.path else c.legacyPaths[j - 1]
  }

  lemma PossiblePathsAre(c: Contribution, file: bool)
    ensures |PossiblePaths(c, file)| == Places(c, file)
    ensures forall j: nat :: j < Places(c, file) ==> PossiblePaths(c, file)[j] == Place(c, j)
  {
  }

  /** Two differently placed claims, the first before the second, of which one is a prefix of the other. */
  ghost predicate Clash(cs: seq<Contribution>, i: int, j: int, k: int, l: int) {
    && 0 <= i < |cs| && 0 <= k < |cs| && 0 <= j <= |cs[i].legacyPaths| && 0 <= l <= |cs[k].legacyPaths|
    && (i < k || (i == k && j < l))
    && (Place(cs[i], j) <= Place(cs[k], l) || Place(cs[k], l) <= Place(cs[i], j))
  }

  ghost function ClashProblem(cs: seq<Contribution>, i: int, j: int, k: int, l: int): Problem
    requires Clash(cs, i, j, k, l)
  {
    var code := if Place(cs[i], j) != Place(cs[k], l) then OverlappingPath
                else if j > 0 || l > 0 then AliasCollision else DuplicatePath;
    Problem(code, cs[i].id, cs[k].id)
  }

  ghost predicate Repeated(cs: seq<Contribution>, i: int, k: int) {
    0 <= i < k < |cs| && cs[i].id == cs[k].id
  }

  /** Every repeated id and every clash is reported under its code, and nothing else is. */
  ghost predicate Reports(cs: seq<Contribution>, problems: seq<Problem>) {
    && (forall i, k :: Repeated(cs, i, k) ==> Problem(DuplicateId, cs[k].id, cs[k].id) in problems)
    && (forall i, j, k, l :: Clash(cs, i, j, k, l) ==> ClashProblem(cs, i, j, k, l) in problems)
    && (forall p :: p in problems ==> Explained(cs, p))
  }

  ghost predicate Explained(cs: seq<Contribution>, p: Problem) {
    || (exists i, k :: Repeated(cs, i, k) && p == Problem(DuplicateId, cs[k].id, cs[k].id))
    || (exists i, j, k, l :: Clash(cs, i, j, k, l) && p == ClashProblem(cs, i, j, k, l))
  }

  /** Where a claim stands among all of them. */
  ghost function Position(cs: seq<Contribution>, i: nat, j: nat): nat
    requires i < |cs|
  {
    |CollectAll(cs[..i])| + j
  }

  lemma {:induction false} ClaimAt(cs: seq<Contribution>, i: nat, j: nat)
    requires i < |cs| && j <= |cs[i].legacyPaths|
    ensures Position(cs, i, j) < |CollectAll(cs)|
    ensures CollectAll(cs)[Position(cs, i, j)] == OwnedPath(cs[i].id, Place(cs[i], j), j > 0)
  {
    var n := |cs| - 1;
    if i < n {
      ClaimAt(cs[..n], i, j);
      assert cs[..n][..i] == cs[..i];
    } else {
      PossiblePathsAre(cs[n], true);
    }
  }

  lemma {:induction false} ClaimOf(cs: seq<Contribution>, a: nat) returns (i: nat, j: nat)
    requires a < |CollectAll(cs)|
    ensures i < |cs| && j <= |cs[i].legacyPaths| && a == Position(cs, i, j)
  {
    var n := |cs| - 1;
    PossiblePathsAre(cs[n], true);
    if a < |CollectAll(cs[..n])| {
      i, j := ClaimOf(cs[..n], a);
      assert cs[..n][..i] == cs[..i];
    } else {
      i, j := n, a - |CollectAll(cs[..n])|;
    }
  }

  lemma {:induction false} ClaimsInOrder(cs: seq<Contribution>, i: nat, j: nat, k: nat)
    requires i < k <= |cs| && j <= |cs[i].legacyPaths|
    ensures Position(cs, i, j) < |CollectAll(cs[..k])|
  {
    ClaimAt(cs[..k], i, j);
    assert cs[..k][..i] == cs[..i];
  }

  ghost predicate Overlapping(owned: seq<OwnedPath>, a: int, b: int) {
    0 <= a < b < |owned| && !Apart(owned[a].path, owned[b].path)
  }

  lemma ClashIsOverlap(cs: seq<Contribution>, i: int, j: int, k: int, l: int)
    requires Clash(cs, i, j, k, l)
    ensures var owned, a, b := CollectAll(cs), Position(cs, i, j), Position(cs, k, l);
            Overlapping(owned, a, b) && ProblemOf(owned[a], owned[b]) == ClashProblem(cs, i, j, k, l)
  {
    ClaimAt(cs, i, j);
    ClaimAt(cs, k, l);
    if i < k {
      ClaimsInOrder(cs, i, j, k);
    }
  }

  lemma OverlapIsClash(cs: seq<Contribution>, a: int, b: int) returns (i: int, j: int, k: int, l: int)
    requires Overlapping(CollectAll(cs), a, b)
    ensures Clash(cs, i, j, k, l)
    ensures ProblemOf(CollectAll(cs)[a], CollectAll(cs)[b]) == ClashProblem(cs, i, j, k, l)
  {
    i, j := ClaimOf(cs, a);
    k, l := ClaimOf(cs, b);
    ClaimAt(cs, i, j);
    ClaimAt(cs, k, l);
    if k < i {
      ClaimsInOrder(cs, k, l, i);
    }
  }

  /** The overlaps of one claim with the later ones, up to the `n`-th. */
  ghost function RowProblems(owned: seq<OwnedPath>, left: nat, n: nat): seq<Problem>
    requires left < n <= |owned|
  {
    if n == left + 1 then []
    else RowProblems(owned, left, n - 1) +
         if Apart(owned[left].path, owned[n - 1].path) then [] else [ProblemOf(owned[left], owned[n - 1])]
  }

  ghost function PairProblems(owned: seq<OwnedPath>, n: nat): seq<Problem>
    requires n <= |owned|
  {
    if n == 0 then [] else PairProblems(owned, n - 1) + RowProblems(owned, n - 1, |owned|)
  }

  ghost predicate InRow(owned: seq<OwnedPath>, left: int, n: int, p: Problem) {
    exists b :: b < n && Overlapping(owned, left, b) && p == ProblemOf(owned[left], owned[b])
  }

  lemma {:induction false} RowListed(owned: seq<OwnedPath>, left: nat, n: nat, p: Problem)
    requires left < n <= |owned|
    ensures p in RowProblems(owned, left, n) <==> InRow(owned, left, n, p)
  {
    if n > left + 1 {
      RowListed(owned, left, n - 1, p);
      if Overlapping(owned, left, n - 1) && p == ProblemOf(owned[left], owned[n - 1]) {
        assert p in RowProblems(owned, left, n);
      }
    }
  }

  lemma {:induction false} PairsListed(owned: seq<OwnedPath>, n: nat, p: Problem)
    requires n <= |owned|
    ensures p in PairProblems(owned, n) <==> exists a :: 0 <= a < n && InRow(owned, a, |owned|, p)
  {
    if n > 0 {
      PairsListed(owned, n - 1, p);
      RowListed(owned, n - 1, |owned|, p);
      InEither(PairProblems(owned, n - 1), RowProblems(owned, n - 1, |owned|), p);
    }
  }

  lemma InEither(a: seq<Problem>, b: seq<Problem>, p: Problem)
    ensures p in a + b <==> p in a || p in b
  {
  }

  ghost predicate ReportsIds(cs: seq<Contribution>, n: nat, problems: seq<Problem>)
    requires n <= |cs|
  {
    && (forall i, k :: k < n && Repeated(cs, i, k) ==> Problem(DuplicateId, cs[k].id, cs[k].id) in problems)
    && (forall p :: p in problems ==>
          exists i, k :: k < n && Repeated(cs, i, k) && p == Problem(DuplicateId, cs[k].id, cs[k].id))
  }

  /** Reports ids used twice. */
  method RepeatedIds(contributions: seq<Contribution>) returns (problems: seq<Problem>)
    ensures ReportsIds(contributions, |contributions|, problems)
  {
    problems := [];
    var ids: set<string> := {};
    for i := 0 to |contributions|
      invariant ids == set k | 0 <= k < i :: contributions[k].id
      invariant ReportsIds(contributions, i, problems)
    {
      var id := contributions[i].id;
      NextId(contributions, i, ids, problems);
      if id in ids {
        problems := problems + [Problem(DuplicateId, id, id)];
      }
      ids := ids + {id};
    }
  }

  lemma NextId(cs: seq<Contribution>, i: nat, ids: set<string>, problems: seq<Problem>)
    requires i < |cs| && ids == (set k | 0 <= k < i :: cs[k].id) && ReportsIds(cs, i, problems)
    ensures var id := cs[i].id;
            ReportsIds(cs, i + 1, if id in ids then problems + [Problem(DuplicateId, id, id)] else problems)
  {
    var id := cs[i].id;
    var more := if id in ids then problems + [Problem(DuplicateId, id, id)] else problems;
    if id in ids {
      var k :| 0 <= k < i && cs[k].id == id;
      assert Repeated(cs, k, i);
    }
    forall h, k | k < i + 1 && Repeated(cs, h, k) ensures Problem(DuplicateId, cs[k].id, cs[k].id) in more {
      assert k == i ==> cs[h].id in ids;
    }
  }

  /**
   * Accepts a registration exactly when ids are distinct and owned paths are prefix-free, and
   * otherwise reports each repeated id and each clash under its code.
   */
  method ValidateContributions(contributions: seq<Contribution>) returns (problems: seq<Problem>)
    ensures problems == [] <==> IsRegistry(contributions)
    ensures Reports(contributions, problems)
  {
    var repeated := RepeatedIds(contributions);
    problems := repeated;
    var owned := CollectAll(contributions);
    for leftIndex := 0 to |owned|
      invariant problems == repeated + PairProblems(owned, leftIndex)
    {
      problems := ReportRow(owned, leftIndex, problems);
      NextRow(repeated, owned, leftIndex);
    }
    AllReported(contributions, repeated);
    ReportsNothing(contributions, problems);
  }

  /** Reports the overlaps of one claim with the later ones. */
  method ReportRow(owned: seq<OwnedPath>, left: nat, earlier: seq<Problem>) returns (problems: seq<Problem>)
    requires left < |owned|
    ensures problems == earlier + RowProblems(owned, left, |owned|)
  {
    problems := earlier;
    for right := left + 1 to |owned|
      invariant problems == earlier + RowProblems(owned, left, right)
    {
      var overlap := PathsOverlap(owned[left].path, owned[right].path);
      if overlap {
        problems := problems + [ProblemOf(owned[left], owned[right])];
      }
    }
  }

  lemma NextRow(repeated: seq<Problem>, owned: seq<OwnedPath>, left: nat)
    requires left < |owned|
    ensures repeated + PairProblems(owned, left) + RowProblems(owned, left, |owned|)
            == repeated + PairProblems(owned, left + 1)
  {
    assert PairProblems(owned, left + 1) == PairProblems(owned, left) + RowProblems(owned, left, |owned|);
  }

  lemma {:induction false} AllReported(cs: seq<Contribution>, repeated: seq<Problem>)
    requires ReportsIds(cs, |cs|, repeated)
    ensures Reports(cs, repeated + PairProblems(CollectAll(cs), |CollectAll(cs)|))
  {
    var owned := CollectAll(cs);
    forall i, j, k, l | Clash(cs, i, j, k, l) ensures ClashProblem(cs, i, j, k, l) in PairProblems(owned, |owned|) {
      ClashIsOverlap(cs, i, j, k, l);
      assert InRow(owned, Position(cs, i, j), |owned|, ClashProblem(cs, i, j, k, l));
      PairsListed(owned, |owned|, ClashProblem(cs, i, j, k, l));
    }
    forall p | p in PairProblems(owned, |owned|) ensures Explained(cs, p) {
      PairsListed(owned, |owned|, p);
      var a :| 0 <= a < |owned| && InRow(owned, a, |owned|, p);
      var b :| b < |owned| && Overlapping(owned, a, b) && p == ProblemOf(owned[a], owned[b]);
      var i, j, k, l := OverlapIsClash(cs, a, b);
    }
  }

  /** Nothing is to be reported exactly of a registry. */
  lemma {:induction false} ReportsNothing(cs: seq<Contribution>, problems: seq<Problem>)
    requires Reports(cs, problems)
    ensures problems == [] <==> IsRegistry(cs)
  {
    if problems == [] {
      NothingReported(cs);
    } else if IsRegistry(cs) {
      assert problems[0] in problems;
      RegistryHasNoProblem(cs, problems[0]);
    }
  }

  lemma {:induction false} NothingReported(cs: seq<Contribution>)
    requires Reports(cs, [])
    ensures IsRegistry(cs)
  {
    var owned := CollectAll(cs);
    forall i, k | 0 <= i < k < |cs| ensures cs[i].id != cs[k].id {
      assert !Repeated(cs, i, k);
    }
    forall a, b | 0 <= a < b < |owned| ensures Apart(owned[a].path, owned[b].path) {
      if Overlapping(owned, a, b) {
        OverlapIsReported(cs, [], a, b);
      }
    }
  }

  lemma {:induction false} OverlapIsReported(cs: seq<Contribution>, problems: seq<Problem>, a: int, b: int)
    requires Reports(cs, problems) && Overlapping(CollectAll(cs), a, b)
    ensures problems != []
  {
    var i, j, k, l := OverlapIsClash(cs, a, b);
    assert ClashProblem(cs, i, j, k, l) in problems;
  }

  lemma {:induction false} RegistryHasNoProblem(cs: seq<Contribution>, p: Problem)
    requires IsRegistry(cs)
    ensures !Explained(cs, p)
  {
    forall i, j, k, l ensures !Clash(cs, i, j, k, l) {
      if Clash(cs, i, j, k, l) {
        ClashIsOverlap(cs, i, j, k, l);
      }
    }
  }

  // ---------------------------------------------------------------- fragments

  const ROOT_SECTIONS: set<string> :=
    {"modules", "sdlc", "connections", "capabilities", "agents", "harnesses", "assets", "templates"}

  /** Some owned path lies at or below this one. */
  ghost predicate Possible(owned: set<JsonPath>, path: JsonPath) {
    exists o :: o in owned && path <= o
  }

  ghost predicate Expected(at: JsonPath, key: string, owned: set<JsonPath>) {
    Possible(owned, at + [key]) || (at == [] && key in ROOT_SECTIONS)
  }

  /**
   * What ownership validation accepts: objects down to the owned paths, and beside them only
   * root sections without content; unregistered keys only in the compatibility mode.
   */
  ghost predicate OwnedTree(value: Json, at: JsonPath, owned: set<JsonPath>, ignore: bool)
    decreases value
  {
    at in owned || (value.Object? && forall key :: key in value.fields ==> OwnedKey(value, at, owned, ignore, key))
  }

  ghost predicate OwnedKey(value: Json, at: JsonPath, owned: set<JsonPath>, ignore: bool, key: string)
    requires value.Object? && key in value.fields
    decreases value, 0
  {
    if Expected(at, key, owned) then OwnedTree(value.fields[key], at + [key], owned, ignore) else ignore
  }

  /** Rejects keys and path containers that no contribution owns; counts the diagnostics. */
  method ValidateOwnedTree(candidate: Json, at: JsonPath, owned: set<JsonPath>, ignore: bool)
    returns (diagnostics: nat)
    ensures diagnostics == 0 <==> OwnedTree(candidate, at, owned, ignore)
    decreases candidate
  {
    if at in owned {
      return 0;
    }
    if !candidate.Object? {
      return 1;
    }
    diagnostics := 0;
    var keys := candidate.fields.Keys;
    while keys != {}
      invariant keys <= candidate.fields.Keys
      invariant diagnostics == 0 <==> KeysOwned(candidate, at, owned, ignore, candidate.fields.Keys - keys)
      decreases |keys|
    {
      var key :| key in keys;
      var child := candidate.fields[key];
      var possible := set o | o in owned && at + [key] <= o;
      assert possible != {} <==> Possible(owned, at + [key]) by {
        if o :| o in owned && at + [key] <= o {
          assert o in possible;
        }
      }
      var below := 0;
      if possible != {} || (at == [] && key in ROOT_SECTIONS) {
        NarrowedOwnership(child, at + [key], owned, possible, ignore);
        below := ValidateOwnedTree(child, at + [key], possible, ignore);
      } else if !ignore {
        below := 1;
      }
      assert below == 0 <==> OwnedKey(candidate, at, owned, ignore, key);
      assert candidate.fields.Keys - (keys - {key}) == candidate.fields.Keys - keys + {key};
      diagnostics, keys := diagnostics + below, keys - {key};
    }
    assert KeysOwned(candidate, at, owned, ignore, candidate.fields.Keys) <==> OwnedTree(candidate, at, owned, ignore);
    assert candidate.fields.Keys - keys == candidate.fields.Keys;
  }

  ghost predicate KeysOwned(value: Json, at: JsonPath, owned: set<JsonPath>, ignore: bool, keys: set<string>)
    requires value.Object? && keys <= value.fields.Keys
  {
    forall key :: key in keys ==> OwnedKey(value, at, owned, ignore, key)
  }

  /** Only the owned paths below a position matter there. */
  lemma {:induction false} NarrowedOwnership(value: Json, at: JsonPath, owned: set<JsonPath>, possible: set<JsonPath>,
                                             ignore: bool)
    requires at != [] && forall o :: at <= o ==> (o in owned <==> o in possible)
    ensures OwnedTree(value, at, owned, ignore) <==> OwnedTree(value, at, possible, ignore)
    decreases value
  {
    if value.Object? {
      forall key | key in value.fields
        ensures OwnedKey(value, at, owned, ignore, key) <==> OwnedKey(value, at, possible, ignore, key)
      {
        forall o | at + [key] <= o ensures o in owned <==> o in possible {
          assert at <= o;
        }
        NarrowedOwnership(value.fields[key], at + [key], owned, possible, ignore);
      }
    }
  }

  datatype LocatedShard = LocatedShard(actualPath: JsonPath, legacyPath: Option<JsonPath>, patch: Json)

  /** The first `n` paths at which the fragment declares something. */
  function Declared(candidate: Json, paths: seq<JsonPath>, n: nat): seq<JsonPath>
    requires n <= |paths|
  {
    if n == 0 then []
    else if ValueAt(candidate, paths[n - 1]).Some? then Declared(candidate, paths, n - 1) + [paths[n - 1]]
    else Declared(candidate, paths, n - 1)
  }

  ghost predicate LocatedOnce(candidate: Json, paths: seq<JsonPath>) {
    forall i, j :: 0 <= i < j < |paths| ==> !BothDeclared(candidate, paths[i], paths[j])
  }

  ghost predicate BothDeclared(candidate: Json, a: JsonPath, b: JsonPath) {
    ValueAt(candidate, a).Some? && ValueAt(candidate, b).Some?
  }

  lemma {:induction false} DeclaredPaths(candidate: Json, paths: seq<JsonPath>, n: nat, p: JsonPath)
    requires n <= |paths|
    ensures p in Declared(candidate, paths, n) <==> ValueAt(candidate, p).Some? && p in paths[..n]
  {
    if n > 0 {
      DeclaredPaths(candidate, paths, n - 1, p);
      assert paths[..n] == paths[..n - 1] + [paths[n - 1]];
    }
  }

  lemma {:induction false} DeclaredOnce(candidate: Json, paths: seq<JsonPath>, n: nat)
    requires n <= |paths|
    ensures |Declared(candidate, paths, n)| <= 1
            <==> forall i, j :: 0 <= i < j < n ==> !BothDeclared(candidate, paths[i], paths[j])
  {
    if n > 0 {
      DeclaredOnce(candidate, paths, n - 1);
      NoneDeclared(candidate, paths, n - 1);
    }
  }

  lemma NoneDeclared(candidate: Json, paths: seq<JsonPath>, n: nat)
    requires n <= |paths|
    ensures Declared(candidate, paths, n) == [] <==> forall i :: 0 <= i < n ==> ValueAt(candidate, paths[i]).None?
  {
    var declared := Declared(candidate, paths, n);
    if declared == [] {
      forall i | 0 <= i < n ensures ValueAt(candidate, paths[i]).None? {
        DeclaredPaths(candidate, paths, n, paths[i]);
        assert paths[..n][i] == paths[i];
      }
    } else {
      assert declared[0] in declared;
      DeclaredPaths(candidate, paths, n, declared[0]);
    }
  }

  ghost predicate Locates(candidate: Json, paths: seq<JsonPath>, canonical: JsonPath, shard: Option<LocatedShard>) {
    && (shard.Some? ==>
          && shard.value.actualPath in paths && ValueAt(candidate, shard.value.actualPath) == Some(shard.value.patch)
          && (shard.value.legacyPath.None? <==> shard.value.actualPath == canonical)
          && (shard.value.legacyPath.Some? ==> shard.value.legacyPath.value == shard.value.actualPath))
    && (shard.None? ==> forall p :: p in paths ==> ValueAt(candidate, p).None?)
  }

  /** What is declared at one of the places is what was found, marked with the place if it is not the canonical one. */
  ghost predicate FoundAt(candidate: Json, place: JsonPath, canonical: JsonPath, shard: Option<LocatedShard>) {
    var declared := ValueAt(candidate, place);
    declared.Some? ==>
      shard == Some(LocatedShard(place, if place == canonical then None else Some(place), declared.value))
  }

  /** No two of its places are declared. */
  ghost predicate PlacedOnce(candidate: Json, c: Contribution, file: bool) {
    forall j, l :: 0 <= j < l < Places(c, file) ==> !BothDeclared(candidate, Place(c, j), Place(c, l))
  }

  lemma LocatedOnceIff(candidate: Json, c: Contribution, file: bool)
    ensures LocatedOnce(candidate, PossiblePaths(c, file)) <==> PlacedOnce(candidate, c, file)
  {
    PossiblePathsAre(c, file);
    var paths := PossiblePaths(c, file);
    assert forall j :: 0 <= j < |paths| ==> paths[j] == Place(c, j);
    forall j, l | 0 <= j < l < |paths|
      ensures BothDeclared(candidate, paths[j], paths[l]) == BothDeclared(candidate, Place(c, j), Place(c, l))
    {
    }
  }

  lemma LocatesPlace(candidate: Json, c: Contribution, file: bool, shard: Option<LocatedShard>, j: nat)
    requires j < Places(c, file)
    requires LocatedOnce(candidate, PossiblePaths(c, file))
    requires Locates(candidate, PossiblePaths(c, file), c.path, shard)
    ensures FoundAt(candidate, Place(c, j), c.path, shard)
  {
    PossiblePathsAre(c, file);
    var paths := PossiblePaths(c, file);
    assert paths[j] == Place(c, j);
    if ValueAt(candidate, paths[j]).Some? {
      OnlyOnePath(candidate, paths, paths[j], shard.value.actualPath);
    }
  }

  /** Whichever place is declared is where the shard was found. */
  ghost predicate FoundAtPlaces(candidate: Json, c: Contribution, file: bool, shard: Option<LocatedShard>) {
    && (forall j :: 0 <= j < Places(c, file) ==> FoundAt(candidate, Place(c, j), c.path, shard))
    && (shard.Some? ==> exists j :: 0 <= j < Places(c, file) && Place(c, j) == shard.value.actualPath)
  }

  lemma LocatesPlaces(candidate: Json, c: Contribution, file: bool, shard: Option<LocatedShard>)
    requires LocatedOnce(candidate, PossiblePaths(c, file))
    requires Locates(candidate, PossiblePaths(c, file), c.path, shard)
    ensures FoundAtPlaces(candidate, c, file, shard)
  {
    PossiblePathsAre(c, file);
    forall j | 0 <= j < Places(c, file) ensures FoundAt(candidate, Place(c, j), c.path, shard) {
      LocatesPlace(candidate, c, file, shard, j);
    }
    if shard.Some? {
      var paths := PossiblePaths(c, file);
      var j :| 0 <= j < |paths| && paths[j] == shard.value.actualPath;
      assert Place(c, j) == shard.value.actualPath;
    }
  }

  /** Finds a contribution's shard at its canonical path or, in a file, a legacy one; two are an error. */
  method LocateShard(candidate: Json, contribution: Contribution, file: bool)
    returns (valid: bool, shard: Option<LocatedShard>)
    ensures valid <==> LocatedOnce(candidate, PossiblePaths(contribution, file))
    ensures valid ==> Locates(candidate, PossiblePaths(contribution, file), contribution.path, shard)
    ensures !valid ==> shard.None?
    ensures valid <==> PlacedOnce(candidate, contribution, file)
    ensures valid ==> FoundAtPlaces(candidate, contribution, file, shard)
  {
    PossiblePathsAre(contribution, file);
    LocatedOnceIff(candidate, contribution, file);
    var paths := PossiblePaths(contribution, file);
    var located := [];
    for i := 0 to |paths|
      invariant located == Declared(candidate, paths, i)
    {
      if ValueAt(candidate, paths[i]).Some? {
        located := located + [paths[i]];
      }
    }
    DeclaredOnce(candidate, paths, |paths|);
    if |located| > 1 {
      return false, None;
    }
    NoneDeclared(candidate, paths, |paths|);
    if located == [] {
      LocatesPlaces(candidate, contribution, file, None);
      return true, None;
    }
    var found := located[0];
    assert found in located;
    DeclaredPaths(candidate, paths, |paths|, found);
    assert paths[..|paths|] == paths;
    var legacyPath := if found == contribution.path then None else Some(found);
    shard := Some(LocatedShard(found, legacyPath, ValueAt(candidate, found).value));
    LocatesPlaces(candidate, contribution, file, shard);
    valid := true;
  }

  // ---------------------------------------------------------------- lossless splitting

  /** Every leaf of a fragment accepted without compatibility mode lies under an owned path. */
  lemma {:induction false} LeavesAreOwned(value: Json, at: JsonPath, owned: set<JsonPath>, path: JsonPath)
    requires OwnedTree(value, at, owned, false) && HasLeaf(value, path)
    requires forall o :: o in owned ==> !(o < at)
    ensures exists o :: o in owned && at <= o <= at + path
    decreases path
  {
    if at in owned {
      assert at <= at <= at + path;
    } else {
      assert OwnedKey(value, at, owned, false, path[0]);
      forall o | o in owned ensures !(o < at + [path[0]]) {
        PrefixOfExtension(o, at, path[0]);
      }
      LeavesAreOwned(value.fields[path[0]], at + [path[0]], owned, path[1..]);
      assert at + [path[0]] + path[1..] == at + path;
    }
  }

  lemma PrefixOfExtension(o: JsonPath, at: JsonPath, key: string)
    ensures o < at + [key] ==> o < at || o == at
  {
    assert o <= at && !(o < at) ==> o == at;
  }

  /** Under exactly one: owned paths above the same leaf would be prefixes of one another. */
  lemma {:induction false} OwnerIsUnique(owned: seq<OwnedPath>, i: nat, j: nat, path: JsonPath)
    requires PrefixFree(owned) && i < |owned| && j < |owned|
    requires owned[i].path <= path && owned[j].path <= path
    ensures i == j
  {
    var a, b := owned[i].path, owned[j].path;
    assert a == path[..|a|] && b == path[..|b|];
    assert |a| <= |b| ==> a == b[..|a|];
    assert |b| <= |a| ==> b == a[..|b|];
  }

  function PathsOf(owned: seq<OwnedPath>): set<JsonPath> {
    set i | 0 <= i < |owned| :: owned[i].path
  }

  /** The shards a fragment declares, by the owned path where each was found. */
  function Shards(fragment: Json, owned: seq<OwnedPath>): map<JsonPath, Json> {
    map p | p in PathsOf(owned) && ValueAt(fragment, p).Some? :: ValueAt(fragment, p).value
  }

  /** The split of a fragment along all paths of a registry, legacy ones included. */
  function ShardsOf(fragment: Json, contributions: seq<Contribution>): map<JsonPath, Json> {
    Shards(fragment, CollectAll(contributions))
  }

  // ---------------------------------------------------------------- all shards of a file

  function Lookup(shards: map<string, LocatedShard>, id: string): Option<LocatedShard> {
    if id in shards then Some(shards[id]) else None
  }

  /** The shards located by id are those of the fragment, each path held by one contribution only. */
  ghost predicate AreShards(located: map<string, LocatedShard>, shards: map<JsonPath, Json>) {
    && (forall id :: id in located ==>
          located[id].actualPath in shards && shards[located[id].actualPath] == located[id].patch)
    && (forall path :: path in shards ==> exists id :: id in located && located[id].actualPath == path)
    && (forall a, b :: a in located && b in located && located[a].actualPath == located[b].actualPath ==> a == b)
  }

  ghost predicate AllLocatedOnce(candidate: Json, contributions: seq<Contribution>, n: nat)
    requires n <= |contributions|
  {
    forall k :: 0 <= k < n ==> LocatedOnce(candidate, PossiblePaths(contributions[k], true))
  }

  /** What is located so far: for each contribution its shard, and nothing for anyone else. */
  ghost predicate LocatesAll(candidate: Json, contributions: seq<Contribution>, located: map<string, LocatedShard>,
                             n: nat)
    requires n <= |contributions|
  {
    && (forall k :: 0 <= k < n ==>
          Locates(candidate, PossiblePaths(contributions[k], true), contributions[k].path,
                  Lookup(located, contributions[k].id)))
    && (forall id :: id in located ==> exists k :: 0 <= k < n && contributions[k].id == id)
  }

  ghost predicate Claimed(cs: seq<Contribution>, i: int, j: int) {
    0 <= i < |cs| && 0 <= j <= |cs[i].legacyPaths|
  }

  /** Under each id stands what the file declares at the canonical or a legacy path, and nothing else. */
  ghost predicate FilesShards(candidate: Json, cs: seq<Contribution>, shards: map<string, LocatedShard>) {
    && (forall i, j :: Claimed(cs, i, j) ==>
          FoundAt(candidate, Place(cs[i], j), cs[i].path, Lookup(shards, cs[i].id)))
    && (forall id :: id in shards ==>
          exists i, j :: Claimed(cs, i, j) && cs[i].id == id && shards[id].actualPath == Place(cs[i], j))
  }

  lemma LocatedAreFiled(candidate: Json, cs: seq<Contribution>, located: map<string, LocatedShard>)
    requires AllLocatedOnce(candidate, cs, |cs|) && LocatesAll(candidate, cs, located, |cs|)
    ensures FilesShards(candidate, cs, located)
  {
    forall i | 0 <= i < |cs| ensures FoundAtPlaces(candidate, cs[i], true, Lookup(located, cs[i].id)) {
      LocatesPlaces(candidate, cs[i], true, Lookup(located, cs[i].id));
    }
    forall i, j | Claimed(cs, i, j) ensures FoundAt(candidate, Place(cs[i], j), cs[i].path, Lookup(located, cs[i].id)) {
      assert FoundAtPlaces(candidate, cs[i], true, Lookup(located, cs[i].id)) && 0 <= j < Places(cs[i], true);
    }
    forall id | id in located
      ensures exists i, j :: Claimed(cs, i, j) && cs[i].id == id && located[id].actualPath == Place(cs[i], j)
    {
      var i :| 0 <= i < |cs| && cs[i].id == id;
      assert FoundAtPlaces(candidate, cs[i], true, Some(located[id]));
      var j :| 0 <= j < Places(cs[i], true) && Place(cs[i], j) == located[id].actualPath;
      assert Claimed(cs, i, j);
    }
  }

  /**
   * Locates every contribution of a registry in a file. A registry has passed registration; if no
   * contribution is declared twice, the result is the split of the file along its owned paths.
   */
  method LocateShards(candidate: Json, contributions: seq<Contribution>)
    returns (valid: bool, shards: map<string, LocatedShard>)
    requires IsRegistry(contributions)
    ensures valid <==> AllLocatedOnce(candidate, contributions, |contributions|)
    ensures valid <==> forall i :: 0 <= i < |contributions| ==> PlacedOnce(candidate, contributions[i], true)
    ensures valid ==> AreShards(shards, ShardsOf(candidate, contributions))
    ensures valid ==> FilesShards(candidate, contributions, shards)
  {
    forall i | 0 <= i < |contributions|
      ensures LocatedOnce(candidate, PossiblePaths(contributions[i], true))
              <==> PlacedOnce(candidate, contributions[i], true)
    {
      LocatedOnceIff(candidate, contributions[i], true);
    }
    valid, shards := true, map[];
    for i := 0 to |contributions|
      invariant Progress(candidate, contributions, i, valid, shards)
    {
      var once, shard := LocateShard(candidate, contributions[i], true);
      LocateNext(candidate, contributions, i, valid, shards, once, shard);
      valid := valid && once;
      shards := WithShard(shards, contributions[i].id, shard);
    }
    if valid {
      LocatedAreShards(candidate, contributions, shards);
      LocatedAreFiled(candidate, contributions, shards);
    }
  }

  function WithShard(located: map<string, LocatedShard>, id: string, shard: Option<LocatedShard>)
    : map<string, LocatedShard>
  {
    if shard.Some? then located[id := shard.value] else located
  }

  ghost predicate Progress(candidate: Json, contributions: seq<Contribution>, n: nat, valid: bool,
                           located: map<string, LocatedShard>)
    requires n <= |contributions|
  {
    && (valid <==> AllLocatedOnce(candidate, contributions, n))
    && (valid ==> LocatesAll(candidate, contributions, located, n))
  }

  lemma LocateNext(candidate: Json, contributions: seq<Contribution>, i: nat, valid: bool,
                   located: map<string, LocatedShard>, once: bool, shard: Option<LocatedShard>)
    requires i < |contributions| && DistinctIds(contributions) && Progress(candidate, contributions, i, valid, located)
    requires once <==> LocatedOnce(candidate, PossiblePaths(contributions[i], true))
    requires once ==> Locates(candidate, PossiblePaths(contributions[i], true), contributions[i].path, shard)
    ensures Progress(candidate, contributions, i + 1, valid && once, WithShard(located, contributions[i].id, shard))
  {
    if valid && once {
      LocatesOneMore(candidate, contributions, located, i, shard);
    }
  }

  lemma LocatesOneMore(candidate: Json, contributions: seq<Contribution>, located: map<string, LocatedShard>, i: nat,
                       shard: Option<LocatedShard>)
    requires i < |contributions| && DistinctIds(contributions) && LocatesAll(candidate, contributions, located, i)
    requires Locates(candidate, PossiblePaths(contributions[i], true), contributions[i].path, shard)
    ensures LocatesAll(candidate, contributions, WithShard(located, contributions[i].id, shard), i + 1)
  {
    var id := contributions[i].id;
    assert id !in located;
    forall k | 0 <= k <= i
      ensures Lookup(WithShard(located, id, shard), contributions[k].id)
              == if k < i then Lookup(located, contributions[k].id) else shard
    {
      assert k < i ==> contributions[k].id != id;
    }
  }

  ghost predicate Claims(contributions: seq<Contribution>, id: string, path: JsonPath) {
    exists k :: 0 <= k < |contributions| && ClaimsPath(contributions[k], id, path)
  }

  ghost predicate ClaimsPath(contribution: Contribution, id: string, path: JsonPath) {
    contribution.id == id && path in PossiblePaths(contribution, true)
  }

  ghost predicate Lists(owned: seq<OwnedPath>, id: string, path: JsonPath) {
    exists i :: 0 <= i < |owned| && owned[i].contribution == id && owned[i].path == path
  }

  lemma {:induction false} CollectedPaths(contributions: seq<Contribution>, id: string, path: JsonPath)
    ensures Lists(CollectAll(contributions), id, path) <==> Claims(contributions, id, path)
  {
    if contributions != [] {
      var n := |contributions| - 1;
      CollectedPaths(contributions[..n], id, path);
      ListsConcat(CollectAll(contributions[..n]), CollectOwnedPaths(contributions[n]), id, path);
      OwnPaths(contributions[n], id, path);
      ClaimsLast(contributions, id, path);
    }
  }

  lemma ListsConcat(a: seq<OwnedPath>, b: seq<OwnedPath>, id: string, path: JsonPath)
    ensures Lists(a + b, id, path) <==> Lists(a, id, path) || Lists(b, id, path)
  {
    if Lists(a, id, path) {
      var i :| 0 <= i < |a| && a[i].contribution == id && a[i].path == path;
      assert (a + b)[i] == a[i];
    }
    if Lists(b, id, path) {
      var i :| 0 <= i < |b| && b[i].contribution == id && b[i].path == path;
      assert (a + b)[|a| + i] == b[i];
    }
  }

  lemma OwnPaths(contribution: Contribution, id: string, path: JsonPath)
    ensures Lists(CollectOwnedPaths(contribution), id, path)
            <==> ClaimsPath(contribution, id, path)
  {
    var paths := PossiblePaths(contribution, true);
    if ClaimsPath(contribution, id, path) {
      var i :| 0 <= i < |paths| && paths[i] == path;
      assert CollectOwnedPaths(contribution)[i].path == path;
    }
  }

  lemma ClaimsLast(contributions: seq<Contribution>, id: string, path: JsonPath)
    requires contributions != []
    ensures var n := |contributions| - 1;
            Claims(contributions, id, path)
            <==> Claims(contributions[..n], id, path) || ClaimsPath(contributions[n], id, path)
  {
    var n := |contributions| - 1;
    if Claims(contributions[..n], id, path) {
      var k :| 0 <= k < n && ClaimsPath(contributions[..n][k], id, path);
      assert ClaimsPath(contributions[k], id, path);
    }
    if Claims(contributions, id, path) {
      var k :| 0 <= k <= n && ClaimsPath(contributions[k], id, path);
      assert k < n ==> contributions[..n][k] == contributions[k];
    }
  }

  lemma {:induction false} LocatedAreShards(candidate: Json, contributions: seq<Contribution>,
                                            located: map<string, LocatedShard>)
    requires IsRegistry(contributions)
    requires AllLocatedOnce(candidate, contributions, |contributions|)
    requires LocatesAll(candidate, contributions, located, |contributions|)
    ensures AreShards(located, ShardsOf(candidate, contributions))
  {
    var shards := ShardsOf(candidate, contributions);
    forall id | id in located
      ensures located[id].actualPath in shards && shards[located[id].actualPath] == located[id].patch
    {
      LocatedIsListed(candidate, contributions, located, id);
    }
    forall path | path in shards ensures exists id :: id in located && located[id].actualPath == path {
      ShardHasOwner(candidate, contributions, located, path);
    }
    forall a, b | a in located && b in located && located[a].actualPath == located[b].actualPath ensures a == b {
      LocatedApart(candidate, contributions, located, a, b);
    }
  }

  lemma {:induction false} ShardHasOwner(candidate: Json, contributions: seq<Contribution>,
                                         located: map<string, LocatedShard>, path: JsonPath)
    requires AllLocatedOnce(candidate, contributions, |contributions|)
    requires LocatesAll(candidate, contributions, located, |contributions|)
    requires path in ShardsOf(candidate, contributions)
    ensures exists id :: id in located && located[id].actualPath == path
  {
    var owned := CollectAll(contributions);
    var i :| 0 <= i < |owned| && owned[i].path == path;
    ShardIsLocated(candidate, contributions, located, owned[i].contribution, path);
  }

  lemma {:induction false} LocatedApart(candidate: Json, contributions: seq<Contribution>,
                                        located: map<string, LocatedShard>, a: string, b: string)
    requires IsRegistry(contributions) && LocatesAll(candidate, contributions, located, |contributions|)
    requires a in located && b in located && located[a].actualPath == located[b].actualPath
    ensures a == b
  {
    LocatedIsListed(candidate, contributions, located, a);
    LocatedIsListed(candidate, contributions, located, b);
    ListedOnce(CollectAll(contributions), a, b, located[a].actualPath);
  }

  lemma LocatedIsListed(candidate: Json, contributions: seq<Contribution>, located: map<string, LocatedShard>,
                        id: string)
    requires LocatesAll(candidate, contributions, located, |contributions|) && id in located
    ensures Lists(CollectAll(contributions), id, located[id].actualPath)
    ensures ValueAt(candidate, located[id].actualPath) == Some(located[id].patch)
  {
    var k :| 0 <= k < |contributions| && contributions[k].id == id;
    assert Lookup(located, contributions[k].id) == Some(located[id]);
    assert ClaimsPath(contributions[k], id, located[id].actualPath);
    CollectedPaths(contributions, id, located[id].actualPath);
  }

  lemma ShardIsLocated(candidate: Json, contributions: seq<Contribution>, located: map<string, LocatedShard>,
                       id: string, path: JsonPath)
    requires AllLocatedOnce(candidate, contributions, |contributions|)
    requires LocatesAll(candidate, contributions, located, |contributions|)
    requires Lists(CollectAll(contributions), id, path) && ValueAt(candidate, path).Some?
    ensures id in located && located[id].actualPath == path
  {
    CollectedPaths(contributions, id, path);
    var k :| 0 <= k < |contributions| && ClaimsPath(contributions[k], id, path);
    var paths, shard := PossiblePaths(contributions[k], true), Lookup(located, id);
    assert Locates(candidate, paths, contributions[k].path, shard);
    assert LocatedOnce(candidate, paths);
    OnlyOnePath(candidate, paths, path, shard.value.actualPath);
  }

  lemma OnlyOnePath(candidate: Json, paths: seq<JsonPath>, a: JsonPath, b: JsonPath)
    requires LocatedOnce(candidate, paths) && a in paths && b in paths
    requires ValueAt(candidate, a).Some? && ValueAt(candidate, b).Some?
    ensures a == b
  {
    var i :| 0 <= i < |paths| && paths[i] == a;
    var j :| 0 <= j < |paths| && paths[j] == b;
    assert BothDeclared(candidate, paths[i], paths[j]) && BothDeclared(candidate, paths[j], paths[i]);
    assert i == j;
  }

  lemma ListedOnce(owned: seq<OwnedPath>, a: string, b: string, path: JsonPath)
    requires PrefixFree(owned) && Lists(owned, a, path) && Lists(owned, b, path)
    ensures a == b
  {
    var i :| 0 <= i < |owned| && owned[i].contribution == a && owned[i].path == path;
    var j :| 0 <= j < |owned| && owned[j].contribution == b && owned[j].path == path;
    assert !Apart(path, path);
    assert i == j;
  }

  // ---------------------------------------------------------------- reassembly

  /** Puts every shard at its own path. */
  function Reassemble(base: Json, shards: map<JsonPath, Json>, owned: seq<OwnedPath>): Json {
    if owned == [] then base
    else
      var rest, path := Reassemble(base, shards, owned[..|owned| - 1]), owned[|owned| - 1].path;
      if path in shards then SetAt(rest, path, shards[path]) else rest
  }

  lemma {:induction false} SetMakesParents(doc: Json, path: JsonPath, value: Json, above: JsonPath)
    requires above < path
    ensures ValueAt(SetAt(doc, path, value), above).Some? && ValueAt(SetAt(doc, path, value), above).value.Object?
    decreases path
  {
    if above != [] {
      var fields := FieldsOf(doc);
      var child := if path[0] in fields then fields[path[0]] else Object(map[]);
      assert above[1..] < path[1..] && above[0] == path[0];
      SetMakesParents(child, path[1..], value, above[1..]);
    }
  }

  ghost predicate ApartFromAll(owned: seq<OwnedPath>, path: JsonPath) {
    forall i :: 0 <= i < |owned| ==> Apart(owned[i].path, path)
  }

  /** A path that no owned path reaches: it holds an object, or nothing. */
  ghost predicate Container(doc: Json, path: JsonPath) {
    ValueAt(doc, path).Some? ==> ValueAt(doc, path).value.Object?
  }

  ghost predicate NotOwned(owned: seq<OwnedPath>, path: JsonPath) {
    forall i :: 0 <= i < |owned| ==> !(owned[i].path <= path)
  }

  /**
   * Each shard is at its own path, clobbered by no other; what is apart from all owned paths is
   * as in the base, and no leaf has appeared outside them.
   */
  ghost predicate Placed(base: Json, shards: map<JsonPath, Json>, owned: seq<OwnedPath>, result: Json) {
    && (forall i :: 0 <= i < |owned| ==> ShardPlaced(base, shards, owned[i].path, result))
    && (forall path :: ApartFromAll(owned, path) ==> ValueAt(result, path) == ValueAt(base, path))
    && (forall path :: NotOwned(owned, path) && Container(base, path) ==> Container(result, path))
  }

  ghost predicate ShardPlaced(base: Json, shards: map<JsonPath, Json>, path: JsonPath, result: Json) {
    ValueAt(result, path) == if path in shards then Some(shards[path]) else ValueAt(base, path)
  }

  lemma {:induction false} ReassembledShards(base: Json, shards: map<JsonPath, Json>, owned: seq<OwnedPath>)
    requires PrefixFree(owned)
    ensures Placed(base, shards, owned, Reassemble(base, shards, owned))
  {
    if owned != [] {
      var init := owned[..|owned| - 1];
      ReassembledShards(base, shards, init);
      PlaceOneMore(base, shards, owned, Reassemble(base, shards, init));
    }
  }

  lemma PlaceOneMore(base: Json, shards: map<JsonPath, Json>, owned: seq<OwnedPath>, rest: Json)
    requires PrefixFree(owned) && owned != [] && Placed(base, shards, owned[..|owned| - 1], rest)
    ensures var path := owned[|owned| - 1].path;
            Placed(base, shards, owned, if path in shards then SetAt(rest, path, shards[path]) else rest)
  {
    var n := |owned| - 1;
    var init, path := owned[..n], owned[n].path;
    forall i | 0 <= i < n
      ensures ShardPlaced(base, shards, owned[i].path, rest) && Apart(owned[i].path, path) && Apart(path, owned[i].path)
    {
      assert init[i] == owned[i];
    }
    assert ApartFromAll(init, path);
    forall p | ApartFromAll(owned, p) ensures ApartFromAll(init, p) && Apart(path, p) {
    }
    forall p | NotOwned(owned, p) ensures NotOwned(init, p) && !(path <= p) {
    }
    if path in shards {
      SetShard(rest, path, shards[path]);
      AlsoPlaced(base, shards, owned, rest, SetAt(rest, path, shards[path]));
    } else {
      AlsoPlaced(base, shards, owned, rest, rest);
    }
  }

  lemma AlsoPlaced(base: Json, shards: map<JsonPath, Json>, owned: seq<OwnedPath>, rest: Json, result: Json)
    requires owned != [] && Placed(base, shards, owned[..|owned| - 1], rest)
    requires forall i :: 0 <= i < |owned| - 1 ==>
               ShardPlaced(base, shards, owned[i].path, rest)
                 && ValueAt(result, owned[i].path) == ValueAt(rest, owned[i].path)
    requires ShardPlaced(base, shards, owned[|owned| - 1].path, result)
    requires forall p :: ApartFromAll(owned, p) ==>
               ApartFromAll(owned[..|owned| - 1], p) && ValueAt(result, p) == ValueAt(rest, p)
    requires forall p :: NotOwned(owned, p) ==>
               NotOwned(owned[..|owned| - 1], p) && (Container(rest, p) ==> Container(result, p))
    ensures Placed(base, shards, owned, result)
  {
  }

  lemma SetShard(rest: Json, path: JsonPath, shard: Json)
    ensures ValueAt(SetAt(rest, path, shard), path) == Some(shard)
    ensures forall other :: Apart(path, other) ==> ValueAt(SetAt(rest, path, shard), other) == ValueAt(rest, other)
    ensures forall other :: !(path <= other) && Container(rest, other) ==> Container(SetAt(rest, path, shard), other)
  {
    SetThenGet(rest, path, shard);
    forall other | Apart(path, other) ensures ValueAt(SetAt(rest, path, shard), other) == ValueAt(rest, other) {
      SetFrame(rest, path, shard, other);
    }
    forall other | !(path <= other) && Container(rest, other) ensures Container(SetAt(rest, path, shard), other) {
      if other <= path {
        SetMakesParents(rest, path, shard, other);
      }
    }
  }

  /**
   * Lossless ownership: a fragment accepted without diagnostics and its reassembled shards have
   * the same leaves with the same values. Only empty sections outside the shards can differ.
   */
  lemma LosslessOwnership(fragment: Json, owned: seq<OwnedPath>, path: JsonPath)
    requires PrefixFree(owned) && OwnedTree(fragment, [], PathsOf(owned), false)
    requires forall i :: 0 <= i < |owned| ==> owned[i].path != []
    ensures var result := Reassemble(Object(map[]), Shards(fragment, owned), owned);
            && (HasLeaf(result, path) <==> HasLeaf(fragment, path))
            && (HasLeaf(fragment, path) ==> ValueAt(result, path) == ValueAt(fragment, path))
  {
    var result := Reassemble(Object(map[]), Shards(fragment, owned), owned);
    ReassembledShards(Object(map[]), Shards(fragment, owned), owned);
    if NotOwned(owned, path) {
      assert Container(Object(map[]), path);
      if HasLeaf(fragment, path) {
        assert [] + path == path;
        LeavesAreOwned(fragment, [], PathsOf(owned), path);
      }
    } else {
      var i :| 0 <= i < |owned| && owned[i].path <= path;
      assert ShardPlaced(Object(map[]), Shards(fragment, owned), owned[i].path, result);
      assert ValueAt(result, owned[i].path) == ValueAt(fragment, owned[i].path);
      AgreesBelow(fragment, result, owned[i].path, path);
    }
  }

  lemma AgreesBelow(a: Json, b: Json, above: JsonPath, path: JsonPath)
    requires above <= path && ValueAt(a, above) == ValueAt(b, above)
    ensures ValueAt(a, path) == ValueAt(b, path)
  {
    assert above + path[|above|..] == path;
    ValueAtConcat(a, above, path[|above|..]);
    ValueAtConcat(b, above, path[|above|..]);
  }
}
