/** Immutable snapshots: deriving one agrees with the resolver, and serializing one redacts declared secrets. */
module Snapshot {
  import opened Texts
  import opened Values
  import opened JsonPaths
  import opened Overlays
  import opened Registry

  // ---------------------------------------------------------------- derive

  /** Runtime patches recursively merge mappings and replace arrays and scalars. */
  function MergeConfigValues(lower: Option<Json>, upper: Json): Json
    decreases upper
  {
    if lower.Some? && lower.value.Object? && upper.Object? then
      var below := lower.value.fields;
      Object(map k | k in below.Keys + upper.fields.Keys ::
               if k in upper.fields then MergeConfigValues(FieldOf(lower, k), upper.fields[k]) else below[k])
    else upper
  }

  /** The pure merge of a snapshot is the in-place merge of the resolver, sources forgotten. */
  lemma {:induction false} MergeIsOverlay(tree: Option<Tree>, patch: Json, source: Source)
    requires tree.Some? ==> WellFormed(tree.value)
    ensures MergeConfigValues(EraseOf(tree), patch) == Erase(Overlay(tree, patch, source))
    decreases patch
  {
    if tree.Some? && tree.value.Branch? && patch.Object? {
      forall k | k in patch.fields
        ensures MergeConfigValues(FieldOf(EraseOf(tree), k), patch.fields[k])
                == Erase(Overlay(ChildOf(tree, k), patch.fields[k], source))
      {
        assert FieldOf(EraseOf(tree), k) == EraseOf(ChildOf(tree, k));
        MergeIsOverlay(ChildOf(tree, k), patch.fields[k], source);
      }
      FieldsMerge(tree.value, patch, source);
    } else {
      AnnotateErases(patch, source);
    }
  }

  lemma FieldsMerge(tree: Tree, patch: Json, source: Source)
    requires tree.Branch? && patch.Object?
    requires forall k :: k in patch.fields ==>
               MergeConfigValues(FieldOf(Some(Erase(tree)), k), patch.fields[k])
               == Erase(Overlay(ChildOf(Some(tree), k), patch.fields[k], source))
    ensures MergeConfigValues(Some(Erase(tree)), patch) == Erase(Overlay(Some(tree), patch, source))
  {
    var merged, overlaid := MergeConfigValues(Some(Erase(tree)), patch), Overlay(Some(tree), patch, source);
    assert merged.fields.Keys == overlaid.children.Keys;
  }

  /** A path of the patch that is a scalar, an array or an empty mapping. */
  predicate IsLeafPath(value: Json, path: JsonPath) {
    ValueAt(value, path).Some? && (!ValueAt(value, path).value.Object? || ValueAt(value, path).value.fields == map[])
  }

  /** The shard-relative leaf paths of a patch; an empty mapping counts as a leaf here. */
  function LeafPaths(value: Json, prefix: JsonPath): set<JsonPath> {
    if !value.Object? || value.fields == map[] then {prefix}
    else set k, p | k in value.fields && p in LeafPaths(value.fields[k], prefix + [k]) :: p
  }

  lemma {:induction false} LeafPathsAre(value: Json, prefix: JsonPath)
    ensures forall q :: q in LeafPaths(value, prefix) <==> prefix <= q && IsLeafPath(value, q[|prefix|..])
    decreases value
  {
    if value.Object? && value.fields != map[] {
      forall q ensures q in LeafPaths(value, prefix) <==> prefix <= q && IsLeafPath(value, q[|prefix|..]) {
        forall k | k in value.fields {
          LeafPathsAre(value.fields[k], prefix + [k]);
        }
        if prefix <= q && IsLeafPath(value, q[|prefix|..]) {
          var k := q[|prefix|];
          assert q[|prefix|..][1..] == q[|prefix + [k]|..] && prefix + [k] <= q;
          assert q in LeafPaths(value.fields[k], prefix + [k]);
        }
        if k :| k in value.fields && q in LeafPaths(value.fields[k], prefix + [k]) {
          assert q[|prefix|..][0] == k && q[|prefix|..][1..] == q[|prefix + [k]|..];
        }
      }
    } else {
      forall q ensures q in LeafPaths(value, prefix) <==> prefix <= q && IsLeafPath(value, q[|prefix|..]) {
        assert prefix <= q ==> (q[|prefix|..] == [] <==> q == prefix);
      }
    }
  }

  /** Every leaf of the tree has its source in the map; the map may also hold stale entries. */
  ghost predicate Covers(entries: map<JsonPath, Source>, tree: Tree) {
    forall p :: SourceAt(Some(tree), p).Some? ==> EntryAt(entries, p) == SourceAt(Some(tree), p)
  }

  ghost predicate Exact(entries: map<JsonPath, Source>, tree: Tree) {
    forall p :: EntryAt(entries, p) == SourceAt(Some(tree), p)
  }

  function Attribute(entries: map<JsonPath, Source>, paths: set<JsonPath>, source: Source): map<JsonPath, Source> {
    map p | p in entries.Keys + paths :: if p in paths then source else entries[p]
  }

  lemma {:induction false} PresentIsWritten(patch: Json, path: JsonPath)
    requires ValueAt(patch, path).Some?
    ensures Writes(patch, path)
    decreases path
  {
    if path != [] {
      PresentIsWritten(patch.fields[path[0]], path[1..]);
    }
  }

  /** Deriving agrees with the resolver: same value, and the right source at every current leaf. */
  lemma DeriveCovers(entries: map<JsonPath, Source>, tree: Tree, patch: Json, source: Source)
    requires WellFormed(tree) && Covers(entries, tree)
    ensures MergeConfigValues(Some(Erase(tree)), patch) == Erase(Overlay(Some(tree), patch, source))
    ensures Covers(Attribute(entries, LeafPaths(patch, []), source), Overlay(Some(tree), patch, source))
  {
    MergeIsOverlay(Some(tree), patch, source);
    LeafPathsAre(patch, []);
    var derived := Attribute(entries, LeafPaths(patch, []), source);
    var overlaid := Overlay(Some(tree), patch, source);
    forall p | SourceAt(Some(overlaid), p).Some? ensures EntryAt(derived, p) == SourceAt(Some(overlaid), p) {
      DerivedEntry(entries, tree, patch, source, p);
    }
  }

  lemma DerivedEntry(entries: map<JsonPath, Source>, tree: Tree, patch: Json, source: Source, p: JsonPath)
    ensures var derived := EntryAt(Attribute(entries, LeafPaths(patch, []), source), p);
            && derived == (if IsLeafPath(patch, p) then Some(source) else EntryAt(entries, p))
            && SourceAt(Some(Overlay(Some(tree), patch, source)), p)
               == (if Writes(patch, p) then (if HasLeaf(patch, p) then Some(source) else None)
                   else SourceAt(Some(tree), p))
            && (IsLeafPath(patch, p) ==> Writes(patch, p))
  {
    LeafPathsAre(patch, []);
    assert p[0..] == p && [] <= p;
    OverlayLeaves(Some(tree), patch, source, p);
    if IsLeafPath(patch, p) {
      PresentIsWritten(patch, p);
    }
  }

  /** Every lower leaf the patch writes at is a leaf of the patch, and the patch has no empty mapping. */
  ghost predicate KeepsLeaves(tree: Tree, patch: Json) {
    && (forall p :: SourceAt(Some(tree), p).Some? && Writes(patch, p) ==> HasLeaf(patch, p))
    && (forall p :: IsLeafPath(patch, p) ==> HasLeaf(patch, p))
  }

  /** Exactly then no stale entry remains: derivation, unlike the resolver, never removes one. */
  lemma DeriveExactIff(entries: map<JsonPath, Source>, tree: Tree, patch: Json, source: Source)
    requires Exact(entries, tree)
    ensures Exact(Attribute(entries, LeafPaths(patch, []), source), Overlay(Some(tree), patch, source))
            <==> KeepsLeaves(tree, patch)
  {
    var derived := Attribute(entries, LeafPaths(patch, []), source);
    var overlaid := Overlay(Some(tree), patch, source);
    forall p ensures EntryAt(derived, p) == SourceAt(Some(overlaid), p) <==>
                     ((SourceAt(Some(tree), p).Some? && Writes(patch, p) ==> HasLeaf(patch, p)) &&
                      (IsLeafPath(patch, p) ==> HasLeaf(patch, p)))
    {
      DerivedEntry(entries, tree, patch, source, p);
    }
    if Exact(derived, overlaid) {
      forall p ensures (SourceAt(Some(tree), p).Some? && Writes(patch, p) ==> HasLeaf(patch, p)) &&
                       (IsLeafPath(patch, p) ==> HasLeaf(patch, p))
      {
        assert EntryAt(derived, p) == SourceAt(Some(overlaid), p);
      }
    }
  }

  /** A stale entry in the smallest case: `{a: 1}` overridden by `{a: {b: 2}}` keeps a source for `a`. */
  lemma StaleEntryRemains(entries: map<JsonPath, Source>, source: Source)
    requires Exact(entries, Annotate(Object(map["a" := Number(1)]), Source(Defaults, "")))
    ensures var tree := Annotate(Object(map["a" := Number(1)]), Source(Defaults, ""));
            var patch := Object(map["a" := Object(map["b" := Number(2)])]);
            !Exact(Attribute(entries, LeafPaths(patch, []), source), Overlay(Some(tree), patch, source))
  {
    var tree := Annotate(Object(map["a" := Number(1)]), Source(Defaults, ""));
    var patch := Object(map["a" := Object(map["b" := Number(2)])]);
    AnnotateLeaves(Object(map["a" := Number(1)]), Source(Defaults, ""), ["a"]);
    assert ["a"][1..] == [];
    PresentIsWritten(patch, ["a"]);
    DeriveExactIff(entries, tree, patch, source);
  }

  // ---------------------------------------------------------------- the remainder

  /** Removes one consumed path and any mapping that becomes empty on the way up. */
  function DeleteAtPath(value: Json, path: JsonPath): Json
    decreases path
  {
    if !value.Object? || path == [] || path[0] !in value.fields then value
    else if |path| == 1 then Object(value.fields - {path[0]})
    else
      var child := DeleteAtPath(value.fields[path[0]], path[1..]);
      if child == Object(map[]) then Object(value.fields - {path[0]}) else Object(value.fields[path[0] := child])
  }

  /** Deleting a present path removes the leaves below it and leaves no emptied mapping behind. */
  lemma {:induction false} DeletedLeafPaths(value: Json, path: JsonPath, q: JsonPath)
    requires path != [] && q != [] && value.Object? && ValueAt(value, path).Some?
    ensures DeleteAtPath(value, path).Object?
    ensures IsLeafPath(DeleteAtPath(value, path), q) <==> IsLeafPath(value, q) && !(path <= q)
    decreases path
  {
    if q[0] == path[0] {
      assert path <= q <==> path[1..] <= q[1..];
      if |path| > 1 {
        assert value.fields[path[0]].Object?;
        if |q| > 1 {
          DeletedLeafPaths(value.fields[path[0]], path[1..], q[1..]);
        } else {
          DeletedLeafPaths(value.fields[path[0]], path[1..], path[1..]);
          var below, after := value.fields[path[0]], DeleteAtPath(value, path);
          assert q[1..] == [] && path[1..][0] in below.fields;
          assert ValueAt(value, q) == Some(below);
          assert path[0] in after.fields ==> ValueAt(after, q) == Some(after.fields[path[0]]);
        }
      }
    }
  }

  lemma {:induction false} DeletedFrame(value: Json, path: JsonPath, other: JsonPath)
    requires Apart(path, other) && ValueAt(value, other).Some?
    ensures ValueAt(DeleteAtPath(value, path), other) == ValueAt(value, other)
    decreases path
  {
    if value.Object? && path[0] in value.fields && other[0] == path[0] && |path| > 1 {
      TailsApart(path, other);
      DeletedFrame(value.fields[path[0]], path[1..], other[1..]);
    }
  }

  lemma {:induction false} SomeLeafPath(value: Json) returns (q: JsonPath)
    requires value.Object? && value.fields != map[]
    ensures q != [] && IsLeafPath(value, q)
    decreases value
  {
    var k :| k in value.fields;
    var child := value.fields[k];
    if child.Object? && child.fields != map[] {
      var rest := SomeLeafPath(child);
      q := [k] + rest;
      assert q[1..] == rest;
    } else {
      q := [k];
    }
  }

  function OwnedBy(contributions: seq<Contribution>): seq<OwnedPath> {
    seq(|contributions|,
        i requires 0 <= i < |contributions| => OwnedPath(contributions[i].id, contributions[i].path, false))
  }

  ghost predicate OwnedUpTo(contributions: seq<Contribution>, n: nat, q: JsonPath)
    requires n <= |contributions|
  {
    exists i :: 0 <= i < n && contributions[i].path <= q
  }

  /** Every scalar, array and empty mapping of the overrides lies under a registered path. */
  ghost predicate AllRegistered(overrides: Json, contributions: seq<Contribution>) {
    forall q :: q != [] && IsLeafPath(overrides, q) ==> OwnedUpTo(contributions, |contributions|, q)
  }

  /** After `n` contributions: their leaves are consumed, everything else is still there. */
  ghost predicate Remaining(overrides: Json, contributions: seq<Contribution>, n: nat, remainder: Json)
    requires n <= |contributions|
  {
    && remainder.Object?
    && (forall q :: q != [] ==>
        (IsLeafPath(remainder, q) <==> IsLeafPath(overrides, q) && !OwnedUpTo(contributions, n, q)))
    && forall i :: n <= i < |contributions| && ValueAt(overrides, contributions[i].path).Some? ==>
                     ValueAt(remainder, contributions[i].path).Some?
  }

  lemma RemainingStep(overrides: Json, contributions: seq<Contribution>, n: nat, remainder: Json)
    requires n < |contributions| && PrefixFree(OwnedBy(contributions)) && contributions[n].path != []
    requires Remaining(overrides, contributions, n, remainder)
    ensures Remaining(overrides, contributions, n + 1,
                      if ValueAt(overrides, contributions[n].path).Some?
                      then DeleteAtPath(remainder, contributions[n].path) else remainder)
  {
    var path := contributions[n].path;
    if ValueAt(overrides, path).Some? {
      forall q | q != []
        ensures IsLeafPath(DeleteAtPath(remainder, path), q)
                <==> IsLeafPath(overrides, q) && !OwnedUpTo(contributions, n + 1, q)
      {
        DeletedLeafPaths(remainder, path, q);
      }
      DeletedLeafPaths(remainder, path, path);
      forall i | n + 1 <= i < |contributions| && ValueAt(overrides, contributions[i].path).Some?
        ensures ValueAt(DeleteAtPath(remainder, path), contributions[i].path).Some?
      {
        assert Apart(OwnedBy(contributions)[n].path, OwnedBy(contributions)[i].path);
        DeletedFrame(remainder, path, contributions[i].path);
      }
    } else {
      forall q | q != [] && IsLeafPath(overrides, q) ensures !(path <= q) {
        AbsentAbove(overrides, path, q);
      }
    }
  }

  lemma AbsentAbove(value: Json, path: JsonPath, q: JsonPath)
    ensures ValueAt(value, path).None? && path <= q ==> ValueAt(value, q).None?
  {
    if path <= q {
      assert q == path + q[|path|..];
      ValueAtConcat(value, path, q[|path|..]);
    }
  }

  lemma RemainingEnd(overrides: Json, contributions: seq<Contribution>, remainder: Json)
    requires Remaining(overrides, contributions, |contributions|, remainder)
    ensures remainder == Object(map[]) <==> AllRegistered(overrides, contributions)
  {
    if remainder.fields == map[] {
      forall q | q != [] && IsLeafPath(overrides, q) ensures OwnedUpTo(contributions, |contributions|, q) {
        assert !IsLeafPath(remainder, q);
      }
    } else {
      var q := SomeLeafPath(remainder);
      assert IsLeafPath(overrides, q) && !OwnedUpTo(contributions, |contributions|, q);
    }
  }

  /**
   * Applies overrides shard by shard and consumes them; what is left over decides whether an
   * unregistered path was present. Schemas are taken to accept every patch.
   */
  method DeriveSnapshot(values: map<string, Json>, provenance: map<string, map<JsonPath, Source>>,
                        contributions: seq<Contribution>, overrides: Json, origin: string,
                        ghost trees: map<string, Tree>)
    returns (accepted: bool, derived: map<string, Json>, sources: map<string, map<JsonPath, Source>>)
    requires forall i :: 0 <= i < |contributions| ==> contributions[i].path != []
    requires forall i, j :: 0 <= i < j < |contributions| ==> contributions[i].id != contributions[j].id
    requires PrefixFree(OwnedBy(contributions))
    requires forall i :: 0 <= i < |contributions| ==>
               && contributions[i].id in values && contributions[i].id in provenance && contributions[i].id in trees
               && Held(values[contributions[i].id], provenance[contributions[i].id], trees[contributions[i].id])
    ensures accepted <==> overrides.Object? && !Blank(origin) && AllRegistered(overrides, contributions)
    ensures accepted ==> forall i :: 0 <= i < |contributions| ==>
              DerivedShard(trees, contributions[i], overrides, origin, derived, sources)
  {
    derived, sources := values, provenance;
    if !overrides.Object? || Blank(origin) {
      return false, derived, sources;
    }
    var remainder := overrides;
    for n := 0 to |contributions|
      invariant derived.Keys == values.Keys && sources.Keys == provenance.Keys
      invariant forall i :: n <= i < |contributions| ==>
                  && derived[contributions[i].id] == values[contributions[i].id]
                  && sources[contributions[i].id] == provenance[contributions[i].id]
      invariant forall i :: 0 <= i < n ==> DerivedShard(trees, contributions[i], overrides, origin, derived, sources)
      invariant Remaining(overrides, contributions, n, remainder)
    {
      var id, path := contributions[n].id, contributions[n].path;
      var patch := ValueAt(overrides, path);
      RemainingStep(overrides, contributions, n, remainder);
      if patch.Some? {
        DeriveCovers(provenance[id], trees[id], patch.value, Source(Override, origin));
        OverlayWellFormed(Some(trees[id]), patch.value, Source(Override, origin));
        derived := derived[id := MergeConfigValues(Some(values[id]), patch.value)];
        sources := sources[id := Attribute(provenance[id], LeafPaths(patch.value, []), Source(Override, origin))];
        remainder := DeleteAtPath(remainder, path);
      }
    }
    RemainingEnd(overrides, contributions, remainder);
    accepted := remainder == Object(map[]);
  }

  /** A value with a source for each of its leaves. */
  ghost predicate Held(value: Json, entries: map<JsonPath, Source>, tree: Tree) {
    WellFormed(tree) && value == Erase(tree) && Covers(entries, tree)
  }

  ghost predicate DerivedShard(trees: map<string, Tree>, contribution: Contribution, overrides: Json, origin: string,
                               derived: map<string, Json>, sources: map<string, map<JsonPath, Source>>)
  {
    && contribution.id in trees && contribution.id in derived && contribution.id in sources
    && var patch := ValueAt(overrides, contribution.path);
       var tree := trees[contribution.id];
       Held(derived[contribution.id], sources[contribution.id],
            if patch.Some? then Overlay(Some(tree), patch.value, Source(Override, origin)) else tree)
  }

  // ---------------------------------------------------------------- serialization

  const REDACTED_VALUE := Text("[REDACTED]")

  function Redact(shard: Json, secrets: seq<JsonPath>): Json {
    if secrets == [] then shard
    else
      var earlier, path := Redact(shard, secrets[..|secrets| - 1]), secrets[|secrets| - 1];
      if ValueAt(earlier, path).Some? then SetAt(earlier, path, REDACTED_VALUE) else earlier
  }

  ghost predicate NoSecret(doc: Json, secret: JsonPath) {
    ValueAt(doc, secret).Some? ==> ValueAt(doc, secret) == Some(REDACTED_VALUE)
  }

  ghost predicate ApartFromSecrets(secrets: seq<JsonPath>, q: JsonPath) {
    forall i :: 0 <= i < |secrets| ==> Apart(secrets[i], q)
  }

  /** No declared secret survives, and what is apart from every secret is unchanged. */
  lemma {:induction false} SecretsAreRedacted(shard: Json, secrets: seq<JsonPath>)
    ensures forall i :: 0 <= i < |secrets| ==> NoSecret(Redact(shard, secrets), secrets[i])
    ensures forall q :: ApartFromSecrets(secrets, q) ==> ValueAt(Redact(shard, secrets), q) == ValueAt(shard, q)
  {
    if secrets != [] {
      var n := |secrets| - 1;
      var earlier, path := Redact(shard, secrets[..n]), secrets[n];
      SecretsAreRedacted(shard, secrets[..n]);
      forall i | 0 <= i < |secrets| ensures NoSecret(Redact(shard, secrets), secrets[i]) {
        assert i < n ==> secrets[..n][i] == secrets[i] && NoSecret(earlier, secrets[..n][i]);
        SetThenGet(earlier, path, REDACTED_VALUE);
        if i < n && ValueAt(earlier, path).Some? {
          OneRedaction(earlier, path, secrets[i]);
        }
      }
      forall q | ApartFromSecrets(secrets, q) ensures ValueAt(Redact(shard, secrets), q) == ValueAt(shard, q) {
        assert ApartFromSecrets(secrets[..n], q) && Apart(path, q);
        SetFrame(earlier, path, REDACTED_VALUE, q);
      }
    }
  }

  /** A declared secret that is there stands strictly above the path. */
  ghost predicate Hidden(shard: Json, secrets: seq<JsonPath>, q: JsonPath) {
    exists secret :: secret in secrets && secret < q && ValueAt(shard, secret).Some?
  }

  /** What a path reads after redaction, for every path. */
  ghost predicate Reads(shard: Json, secrets: seq<JsonPath>, redacted: Json, q: JsonPath) {
    var before, after := ValueAt(shard, q), ValueAt(redacted, q);
    if Hidden(shard, secrets, q) then after.None?
    else if q in secrets && before.Some? then after == Some(REDACTED_VALUE)
    else if before.Some? && before.value.Object? then after.Some? && after.value.Object?
    else after == before
  }

  /**
   * Redaction is exact: a secret that is there reads as redacted, nothing reads below it, an absent one
   * stays absent, and every other leaf is as it was.
   */
  lemma {:induction false} RedactReads(shard: Json, secrets: seq<JsonPath>, q: JsonPath)
    ensures Reads(shard, secrets, Redact(shard, secrets), q)
  {
    if secrets != [] {
      var n := |secrets| - 1;
      var init, path := secrets[..n], secrets[n];
      assert secrets == init + [path];
      RedactReads(shard, init, q);
      RedactReads(shard, init, path);
      RedactOneMore(shard, init, path, Redact(shard, init), q);
    }
  }

  lemma RedactOneMore(shard: Json, init: seq<JsonPath>, path: JsonPath, earlier: Json, q: JsonPath)
    requires Reads(shard, init, earlier, q) && Reads(shard, init, earlier, path)
    ensures Reads(shard, init + [path],
                  if ValueAt(earlier, path).Some? then SetAt(earlier, path, REDACTED_VALUE) else earlier, q)
  {
    HiddenMore(shard, init, path, q);
    if ValueAt(earlier, path).None? {
      if path < q {
        HiddenBelow(shard, init, path, q);
      }
    } else if path < q {
      NothingBelow(earlier, path, q);
    } else if q < path {
      ParentStays(earlier, path, q);
    } else if q != path {
      SetFrame(earlier, path, REDACTED_VALUE, q);
    } else {
      SetThenGet(earlier, path, REDACTED_VALUE);
    }
  }

  lemma HiddenMore(shard: Json, init: seq<JsonPath>, path: JsonPath, q: JsonPath)
    ensures Hidden(shard, init + [path], q) <==> Hidden(shard, init, q) || (path < q && ValueAt(shard, path).Some?)
  {
    assert path in init + [path];
  }

  lemma NothingBelow(earlier: Json, path: JsonPath, q: JsonPath)
    requires path < q
    ensures ValueAt(SetAt(earlier, path, REDACTED_VALUE), q).None?
  {
    SetThenGet(earlier, path, REDACTED_VALUE);
    assert q == path + q[|path|..];
    ValueAtConcat(SetAt(earlier, path, REDACTED_VALUE), path, q[|path|..]);
  }

  lemma ParentStays(earlier: Json, path: JsonPath, q: JsonPath)
    requires q < path && ValueAt(earlier, path).Some?
    ensures ValueAt(earlier, q).Some? && ValueAt(earlier, q).value.Object?
    ensures ValueAt(SetAt(earlier, path, REDACTED_VALUE), q).Some?
    ensures ValueAt(SetAt(earlier, path, REDACTED_VALUE), q).value.Object?
  {
    assert path == q + path[|q|..];
    ValueAtConcat(earlier, q, path[|q|..]);
    SetMakesParents(earlier, path, REDACTED_VALUE, q);
  }

  lemma HiddenBelow(shard: Json, secrets: seq<JsonPath>, path: JsonPath, q: JsonPath)
    requires path < q
    ensures Hidden(shard, secrets, path) ==> Hidden(shard, secrets, q)
  {
  }

  lemma OneRedaction(earlier: Json, path: JsonPath, secret: JsonPath)
    requires ValueAt(earlier, path).Some? && NoSecret(earlier, secret)
    ensures NoSecret(SetAt(earlier, path, REDACTED_VALUE), secret)
  {
    var result := SetAt(earlier, path, REDACTED_VALUE);
    SetThenGet(earlier, path, REDACTED_VALUE);
    if path <= secret {
      assert secret == path + secret[|path|..];
      ValueAtConcat(result, path, secret[|path|..]);
    } else if secret <= path {
      assert path == secret + path[|secret|..];
      ValueAtConcat(earlier, secret, path[|secret|..]);
    } else {
      SetFrame(earlier, path, REDACTED_VALUE, secret);
    }
  }

  /** Replaces the secrets that are there, one after the other. */
  method RedactShard(value: Json, paths: seq<JsonPath>) returns (shard: Json)
    ensures shard == Redact(value, paths)
  {
    shard := value;
    for k := 0 to |paths|
      invariant shard == Redact(value, paths[..k])
    {
      assert paths[..k + 1][..k] == paths[..k];
      if ValueAt(shard, paths[k]).Some? {
        shard := SetAt(shard, paths[k], REDACTED_VALUE);
      }
    }
    assert paths[..|paths|] == paths;
  }

  /** Serializes canonical configuration while replacing every declared secret. */
  method ToJson(contributions: seq<Contribution>, values: map<string, Json>, secrets: map<string, seq<JsonPath>>)
    returns (document: Json)
    requires forall i :: 0 <= i < |contributions| ==> contributions[i].id in values && contributions[i].id in secrets
    requires PrefixFree(OwnedBy(contributions)) && ApartFromAll(OwnedBy(contributions), ["version"])
    ensures ValueAt(document, ["version"]) == Some(Number(1))
    ensures forall i :: 0 <= i < |contributions| ==>
              ValueAt(document, contributions[i].path)
              == Some(Redact(values[contributions[i].id], secrets[contributions[i].id]))
  {
    var owned := OwnedBy(contributions);
    var base := Object(map["version" := Number(1)]);
    document := base;
    ghost var shards: map<JsonPath, Json> := map[];
    for n := 0 to |contributions|
      invariant Redacted(contributions, values, secrets, shards, n)
      invariant document == Reassemble(base, shards, owned[..n])
    {
      var shard := RedactShard(values[contributions[n].id], secrets[contributions[n].id]);
      var path := contributions[n].path;
      RedactedMore(contributions, values, secrets, shards, n);
      AddShard(base, shards, owned, n, shard);
      shards := shards[path := shard];
      document := SetAt(document, path, shard);
    }
    assert owned[..|contributions|] == owned;
    ReassembledShards(base, shards, owned);
    forall i | 0 <= i < |contributions|
      ensures ValueAt(document, contributions[i].path)
                == Some(Redact(values[contributions[i].id], secrets[contributions[i].id]))
    {
      assert ShardPlaced(base, shards, owned[i].path, document);
    }
    assert ["version"][1..] == [];
  }

  /** The shards written so far, by their paths. */
  ghost predicate Redacted(contributions: seq<Contribution>, values: map<string, Json>,
                           secrets: map<string, seq<JsonPath>>,
                           shards: map<JsonPath, Json>, n: nat)
    requires forall i :: 0 <= i < |contributions| ==> contributions[i].id in values && contributions[i].id in secrets
  {
    && n <= |contributions|
    && (forall i :: 0 <= i < |contributions| ==> (contributions[i].path in shards <==> i < n))
    && forall i :: 0 <= i < n ==>
         shards[contributions[i].path] == Redact(values[contributions[i].id], secrets[contributions[i].id])
  }

  lemma RedactedMore(contributions: seq<Contribution>, values: map<string, Json>, secrets: map<string, seq<JsonPath>>,
                     shards: map<JsonPath, Json>, n: nat)
    requires forall i :: 0 <= i < |contributions| ==> contributions[i].id in values && contributions[i].id in secrets
    requires PrefixFree(OwnedBy(contributions))
    requires n < |contributions| && Redacted(contributions, values, secrets, shards, n)
    ensures Redacted(contributions, values, secrets,
                     shards[contributions[n].path := Redact(values[contributions[n].id], secrets[contributions[n].id])],
                     n + 1)
  {
    forall i | 0 <= i < |contributions| && i != n ensures contributions[i].path != contributions[n].path {
      DistinctPaths(contributions, i, n);
    }
  }

  lemma DistinctPaths(contributions: seq<Contribution>, i: nat, n: nat)
    requires PrefixFree(OwnedBy(contributions)) && i < |contributions| && n < |contributions| && i != n
    ensures contributions[i].path != contributions[n].path
  {
    var owned := OwnedBy(contributions);
    assert Apart(owned[if i < n then i else n].path, owned[if i < n then n else i].path);
  }

  lemma AddShard(base: Json, shards: map<JsonPath, Json>, owned: seq<OwnedPath>, n: nat, shard: Json)
    requires n < |owned| && PrefixFree(owned)
    ensures var path := owned[n].path;
            Reassemble(base, shards[path := shard], owned[..n + 1])
              == SetAt(Reassemble(base, shards, owned[..n]), path, shard)
  {
    var path := owned[n].path;
    assert owned[..n + 1][..n] == owned[..n];
    forall i | 0 <= i < n ensures owned[i].path != path {
      assert Apart(owned[i].path, path);
    }
    SameBelow(base, shards, shards[path := shard], owned[..n]);
  }

  lemma {:induction false} SameBelow(base: Json, shards: map<JsonPath, Json>, more: map<JsonPath, Json>,
                                     owned: seq<OwnedPath>)
    requires forall i :: 0 <= i < |owned| ==>
               (owned[i].path in more <==> owned[i].path in shards) &&
               (owned[i].path in shards ==> more[owned[i].path] == shards[owned[i].path])
    ensures Reassemble(base, more, owned) == Reassemble(base, shards, owned)
  {
    if owned != [] {
      SameBelow(base, shards, more, owned[..|owned| - 1]);
    }
  }
}
