/** Issue mutations: archiving and restoring subtrees, relating and unrelating issues. */
module IssueStore {
  import opened Values
  import opened Graphs
  import opened Texts
  import opened IssueGraph

  // ---------------------------------------------------------------- moving subtrees

  ghost function Members(catalog: Catalog, location: Location, root: Id): set<Id>
    requires LegalParents(catalog)
  {
    set x | x in catalog && InSubtree(catalog, location, root, x)
  }

  function Moved(catalog: Catalog, ids: set<Id>, to: Location): Catalog {
    map id | id in catalog :: if id in ids then catalog[id].(location := to) else catalog[id]
  }

  lemma MembersAre(catalog: Catalog, location: Location, root: Id, ids: seq<Id>)
    requires LegalParents(catalog) && root in catalog
    requires forall x :: x in ids <==> InSubtree(catalog, location, root, x)
    ensures forall x :: (x in ids <==> x in Members(catalog, location, root)) && (x in ids ==> x in catalog)
    ensures (set k | 0 <= k < |ids| :: ids[k]) == Members(catalog, location, root)
  {
    forall x | x in ids ensures x in Members(catalog, location, root) {
      SubtreeRanks(catalog, location, root, x);
    }
  }

  /** Records are untouched by a move, so only the location rule can break. */
  lemma MoveKeepsRecords(catalog: Catalog, ids: set<Id>, to: Location)
    requires ValidGraph(catalog)
    ensures var moved := Moved(catalog, ids, to);
            LegalParents(moved) &&
            (ValidGraph(moved) <==> forall id :: id in moved ==> ParentLocationOk(moved, id))
  {
    var moved := Moved(catalog, ids, to);
    assert ParentGraph(moved) == ParentGraph(catalog);
    assert DependencyGraph(moved) == DependencyGraph(catalog);
    forall id | id in moved
      ensures ParentResolves(moved, id) && ParentTypeOk(moved, id) && RelationsOk(moved, id)
    {
      MovedEntry(catalog, ids, to, id);
    }
  }

  lemma MovedEntry(catalog: Catalog, ids: set<Id>, to: Location, id: Id)
    requires ValidGraph(catalog) && id in catalog
    ensures var moved := Moved(catalog, ids, to);
            ParentResolves(moved, id) && ParentTypeOk(moved, id) && RelationsOk(moved, id)
  {
    var moved := Moved(catalog, ids, to);
    assert EntryOk(catalog, id);
    forall relationship, target | target in Targets(moved[id], relationship)
      ensures TargetOk(moved, id, relationship, target)
    {
      assert target in Targets(catalog[id], relationship);
      assert TargetOk(catalog, id, relationship, target);
    }
  }

  /** Archiving an active issue with its active descendants always yields a valid graph. */
  lemma ArchiveIsValid(catalog: Catalog, root: Id)
    requires ValidGraph(catalog) && root in catalog && catalog[root].location.Active?
    ensures ValidGraph(Moved(catalog, Members(catalog, Active, root), Archive))
  {
    var members := Members(catalog, Active, root);
    var moved := Moved(catalog, members, Archive);
    MoveKeepsRecords(catalog, members, Archive);
    forall id | id in moved ensures ParentLocationOk(moved, id) {
      assert EntryOk(catalog, id);
      if catalog[id].parent.Some? && catalog[id].location.Active? && id !in members {
        assert !InSubtree(catalog, Active, root, catalog[id].parent.value);
      }
    }
  }

  ghost predicate ParentIsActive(catalog: Catalog, root: Id)
    requires root in catalog
  {
    catalog[root].parent.Some? && catalog[root].parent.value in catalog ==>
      catalog[catalog[root].parent.value].location.Active?
  }

  /** Restoring an archived subtree is valid exactly when the root's parent is absent or active. */
  lemma RestoreIsValidIff(catalog: Catalog, root: Id)
    requires ValidGraph(catalog) && root in catalog && catalog[root].location.Archive?
    ensures ValidGraph(Moved(catalog, Members(catalog, Archive, root), Active)) <==> ParentIsActive(catalog, root)
  {
    var members := Members(catalog, Archive, root);
    var moved := Moved(catalog, members, Active);
    MoveKeepsRecords(catalog, members, Active);
    assert InSubtree(catalog, Archive, root, root);
    if catalog[root].parent.Some? {
      var p := catalog[root].parent.value;
      assert ParentTypeOk(catalog, root);
      if p in catalog && InSubtree(catalog, Archive, root, p) {
        SubtreeRanks(catalog, Archive, root, p);
      }
    }
    assert ParentLocationOk(moved, root) <==> ParentIsActive(catalog, root);
    forall id | id in moved && id != root ensures ParentLocationOk(moved, id) {
      assert EntryOk(catalog, id);
    }
  }

  lemma MoveIsValidIff(catalog: Catalog, root: Id, from: Location, to: Location)
    requires ValidGraph(catalog) && from != to
    requires root in catalog && catalog[root].location == from
    ensures ValidGraph(Moved(catalog, Members(catalog, from, root), to))
            <==> (to.Active? ==> ParentIsActive(catalog, root))
  {
    if to.Archive? {
      ArchiveIsValid(catalog, root);
    } else {
      RestoreIsValidIff(catalog, root);
    }
  }

  /** Sets the destination of every listed issue in a copy of the catalog. */
  method Relocate(catalog: Catalog, ids: seq<Id>, to: Location) returns (proposed: Catalog)
    requires forall x :: x in ids ==> x in catalog
    ensures proposed == Moved(catalog, set k | 0 <= k < |ids| :: ids[k], to)
  {
    proposed := catalog;
    for i := 0 to |ids|
      invariant proposed == Moved(catalog, set k | 0 <= k < i :: ids[k], to)
    {
      assert ids[i] in ids;
      proposed := proposed[ids[i] := proposed[ids[i]].(location := to)];
    }
  }

  // ---------------------------------------------------------------- restore after archive

  /** A descendant through children wherever they are stored. */
  ghost predicate Descends(catalog: Catalog, root: Id, id: Id)
    requires LegalParents(catalog)
    decreases if id in catalog then Rank(catalog[id].kind) + 1 else 0
  {
    id == root ||
    (id in catalog && catalog[id].parent.Some? && catalog[id].parent.value in catalog &&
     assert ParentTypeOk(catalog, id); Descends(catalog, root, catalog[id].parent.value))
  }

  ghost predicate NoArchivedDescendant(catalog: Catalog, root: Id)
    requires LegalParents(catalog)
  {
    forall id :: id in catalog && Descends(catalog, root, id) ==> catalog[id].location.Active?
  }

  /** After archiving a root, its archived subtree is the whole of its descendants. */
  lemma {:induction false} ArchivedSubtree(catalog: Catalog, moved: Catalog, root: Id, id: Id)
    requires ValidGraph(catalog) && LegalParents(moved)
    requires root in catalog && catalog[root].location.Active?
    requires moved == Moved(catalog, Members(catalog, Active, root), Archive)
    ensures id in catalog ==> (InSubtree(moved, Archive, root, id) <==> Descends(catalog, root, id))
    ensures id in catalog && catalog[id].location.Active? ==>
              (InSubtree(catalog, Active, root, id) <==> Descends(catalog, root, id))
    decreases if id in catalog then Rank(catalog[id].kind) + 1 else 0
  {
    if id in catalog && id != root && catalog[id].parent.Some? && catalog[id].parent.value in catalog {
      assert ParentTypeOk(catalog, id) && ParentTypeOk(moved, id) && EntryOk(catalog, id);
      ArchivedSubtree(catalog, moved, root, catalog[id].parent.value);
    }
  }

  /** Restore undoes archive exactly when no descendant had been archived before. */
  lemma RestoreUndoesArchiveIff(catalog: Catalog, root: Id)
    requires ValidGraph(catalog) && root in catalog && catalog[root].location.Active?
    ensures var archived := Moved(catalog, Members(catalog, Active, root), Archive);
            LegalParents(archived) &&
            (Moved(archived, Members(archived, Archive, root), Active) == catalog
             <==> NoArchivedDescendant(catalog, root))
  {
    var archived := Moved(catalog, Members(catalog, Active, root), Archive);
    MoveKeepsRecords(catalog, Members(catalog, Active, root), Archive);
    var restored := Moved(archived, Members(archived, Archive, root), Active);
    forall id | id in catalog
      ensures restored[id] == catalog[id] <==> (Descends(catalog, root, id) ==> catalog[id].location.Active?)
    {
      ArchivedSubtree(catalog, archived, root, id);
    }
    assert restored.Keys == catalog.Keys;
    if NoArchivedDescendant(catalog, root) {
      forall id | id in catalog ensures restored[id] == catalog[id] {
      }
      assert restored == catalog;
    }
  }

  // ---------------------------------------------------------------- relations

  function WithTargets(issue: Issue, relationship: Relationship, targets: seq<Id>): Issue {
    match relationship
    case DependsOn => issue.(dependsOn := targets)
    case RelatesTo => issue.(relatesTo := targets)
    case Duplicates => issue.(duplicates := targets)
    case Supersedes => issue.(supersedes := targets)
  }

  /** A symmetric relation is stored on its lexically smaller end. */
  function Owner(source: Id, target: Id, relationship: Relationship): (Id, Id) {
    if relationship.RelatesTo? && Less(target, source) then (target, source) else (source, target)
  }

  function Without(targets: seq<Id>, target: Id): seq<Id> {
    if targets == [] then []
    else
      var rest := Without(targets[..|targets| - 1], target);
      if targets[|targets| - 1] == target then rest else rest + [targets[|targets| - 1]]
  }

  lemma {:induction false} WithoutAbsent(targets: seq<Id>, target: Id)
    requires target !in targets
    ensures Without(targets, target) == targets
  {
    if targets != [] {
      WithoutAbsent(targets[..|targets| - 1], target);
      assert targets == targets[..|targets| - 1] + [targets[|targets| - 1]];
    }
  }

  lemma {:induction false} WithoutMembers(targets: seq<Id>, target: Id)
    ensures forall x :: x in Without(targets, target) <==> x in targets && x != target
  {
    if targets != [] {
      WithoutMembers(targets[..|targets| - 1], target);
      assert targets == targets[..|targets| - 1] + [targets[|targets| - 1]];
    }
  }

  function Related(catalog: Catalog, owner: Id, relationship: Relationship, target: Id): Catalog
    requires owner in catalog
  {
    catalog[owner := WithTargets(catalog[owner], relationship, Targets(catalog[owner], relationship) + [target])]
  }

  function Unrelated(catalog: Catalog, owner: Id, relationship: Relationship, target: Id): Catalog
    requires owner in catalog
  {
    catalog[owner := WithTargets(catalog[owner], relationship, Without(Targets(catalog[owner], relationship), target))]
  }

  /**
   * A relation between two present issues is accepted exactly when the ends differ and, for a
   * dependency, the target does not already depend on the source through other issues.
   */
  lemma RelateIsValidIff(catalog: Catalog, source: Id, target: Id, relationship: Relationship)
    requires ValidGraph(catalog) && source in catalog && target in catalog
    ensures var (owner, other) := Owner(source, target, relationship);
            ValidGraph(Related(catalog, owner, relationship, other)) <==>
              source != target && (relationship.DependsOn? ==> !Reaches(DependencyGraph(catalog), target, source))
  {
    LessIsTotal(source, target);
    var (owner, other) := Owner(source, target, relationship);
    RelatedEntries(catalog, owner, relationship, other);
    RelatedGraphs(catalog, owner, relationship, other);
  }

  lemma RelatedGraphs(catalog: Catalog, owner: Id, relationship: Relationship, other: Id)
    requires ValidGraph(catalog) && owner in catalog && other in catalog
    ensures var related := Related(catalog, owner, relationship, other);
            && Acyclic(ParentGraph(related))
            && (Acyclic(DependencyGraph(related)) <==>
                  (relationship.DependsOn? ==> !Reaches(DependencyGraph(catalog), other, owner)))
  {
    GraphsOfUpdate(catalog, owner,
      WithTargets(catalog[owner], relationship, Targets(catalog[owner], relationship) + [other]));
    AcyclicWithEdge(DependencyGraph(catalog), owner, other);
  }

  lemma GraphsOfUpdate(catalog: Catalog, id: Id, record: Issue)
    requires id in catalog && record.parent == catalog[id].parent
    ensures ParentGraph(catalog[id := record]) == ParentGraph(catalog)
    ensures DependencyGraph(catalog[id := record]) == DependencyGraph(catalog)[id := record.dependsOn]
    ensures record.dependsOn == catalog[id].dependsOn ==>
              DependencyGraph(catalog[id := record]) == DependencyGraph(catalog)
  {
    assert ParentGraph(catalog[id := record]) == ParentGraph(catalog);
    assert DependencyGraph(catalog[id := record]) == DependencyGraph(catalog)[id := record.dependsOn];
    assert record.dependsOn == catalog[id].dependsOn ==>
             DependencyGraph(catalog[id := record]) == DependencyGraph(catalog);
  }

  lemma RelatedEntries(catalog: Catalog, owner: Id, relationship: Relationship, other: Id)
    requires ValidGraph(catalog) && owner in catalog && other in catalog
    ensures var related := Related(catalog, owner, relationship, other);
            (forall id :: id in related ==> EntryOk(related, id)) <==> TargetOk(catalog, owner, relationship, other)
  {
    var related := Related(catalog, owner, relationship, other);
    forall id | id in related
      ensures EntryOk(related, id) <==> (id == owner ==> TargetOk(catalog, owner, relationship, other))
    {
      RelatedEntry(catalog, owner, relationship, other, id);
    }
    assert owner in related;
  }

  lemma RelatedEntry(catalog: Catalog, owner: Id, relationship: Relationship, other: Id, id: Id)
    requires ValidGraph(catalog) && owner in catalog && other in catalog && id in catalog
    ensures var related := Related(catalog, owner, relationship, other);
            EntryOk(related, id) <==> (id == owner ==> TargetOk(catalog, owner, relationship, other))
  {
    var related := Related(catalog, owner, relationship, other);
    assert EntryOk(catalog, id);
    assert RelationsOk(related, id) <==> (id == owner ==> TargetOk(catalog, owner, relationship, other)) by {
      if id == owner {
        assert other in Targets(related[id], relationship);
      }
      forall r, t | t in Targets(related[id], r) && !(id == owner && r == relationship && t == other)
        ensures TargetOk(related, id, r, t)
      {
        assert t in Targets(catalog[id], r);
        assert TargetOk(catalog, id, r, t);
      }
    }
  }

  /** Removing a relation never invalidates the graph, and it undoes adding one. */
  lemma UnrelateIsValid(catalog: Catalog, owner: Id, relationship: Relationship, target: Id)
    requires ValidGraph(catalog) && owner in catalog
    ensures ValidGraph(Unrelated(catalog, owner, relationship, target))
  {
    var unrelated := Unrelated(catalog, owner, relationship, target);
    WithoutMembers(Targets(catalog[owner], relationship), target);
    assert ParentGraph(unrelated) == ParentGraph(catalog);
    forall id | id in unrelated ensures EntryOk(unrelated, id) {
      assert EntryOk(catalog, id);
      forall r, t | t in Targets(unrelated[id], r) ensures TargetOk(unrelated, id, r, t) {
        assert t in Targets(catalog[id], r);
        assert TargetOk(catalog, id, r, t);
      }
    }
    FewerEdges(DependencyGraph(catalog), DependencyGraph(unrelated));
  }

  lemma FewerEdges(g: Graph, h: Graph)
    requires Acyclic(g) && forall a, b :: Edge(h, a, b) ==> Edge(g, a, b)
    ensures Acyclic(h)
  {
    forall p ensures !Cycle(h, p) {
      assert Cycle(h, p) ==> Cycle(g, p);
    }
  }

  lemma UnrelateUndoesRelate(catalog: Catalog, owner: Id, relationship: Relationship, target: Id)
    requires owner in catalog && target !in Targets(catalog[owner], relationship)
    ensures Unrelated(Related(catalog, owner, relationship, target), owner, relationship, target) == catalog
  {
    var targets := Targets(catalog[owner], relationship);
    WithoutAbsent(targets, target);
    assert (targets + [target])[..|targets|] == targets;
    assert WithTargets(WithTargets(catalog[owner], relationship, targets + [target]), relationship, targets)
             == catalog[owner];
  }

  // ---------------------------------------------------------------- the store

  class Store {
    var catalog: Catalog

    constructor ()
      ensures catalog == map[] && ValidGraph(catalog)
    {
      catalog := map[];
      new;
      assert forall p :: Cycle(ParentGraph(catalog), p) ==> Edge(ParentGraph(catalog), p[0], p[1]);
      assert forall p :: Cycle(DependencyGraph(catalog), p) ==> Edge(DependencyGraph(catalog), p[0], p[1]);
    }

    /** Moves an issue and its same-location descendants in one batch, or changes nothing. */
    method MoveSubtree(id: Id, listing: seq<Id>, from: Location, to: Location) returns (result: Result<seq<Id>, string>)
      requires ValidGraph(catalog) && IsListing(catalog, listing) && from != to
      modifies this
      ensures ValidGraph(catalog)
      ensures result.Ok? <==> id in old(catalog) && old(catalog)[id].location == from &&
                              (to.Active? ==> ParentIsActive(old(catalog), id))
      ensures result.Ok? ==> catalog == Moved(old(catalog), Members(old(catalog), from, id), to)
      ensures result.Ok? ==> Distinct(result.value) &&
                             forall x :: x in result.value <==> x in Members(old(catalog), from, id)
      ensures result.Err? ==> catalog == old(catalog)
    {
      var subtree := IssueSubtree(catalog, listing, id, from);
      if subtree.Err? {
        return subtree;
      }
      var ids := subtree.value;
      MembersAre(catalog, from, id, ids);
      var proposed := Relocate(catalog, ids, to);
      MoveIsValidIff(catalog, id, from, to);
      var findings := InspectIssueGraph(proposed);
      if findings != [] {
        return Err("Proposed issue graph is invalid");
      }
      catalog := proposed;
      result := Ok(ids);
    }

    /** Validates the proposed record in its catalog before publishing it. */
    method PublishRecord(id: Id, record: Issue) returns (published: bool)
      requires id in catalog && ValidGraph(catalog)
      modifies this
      ensures published <==> ValidGraph(old(catalog)[id := record])
      ensures catalog == if published then old(catalog)[id := record] else old(catalog)
    {
      var proposed := catalog[id := record];
      var findings := InspectIssueGraph(proposed);
      published := findings == [];
      if published {
        catalog := proposed;
      }
    }

    /** Adds an idempotent directional or symmetric relation. */
    method Relate(source: Id, target: Id, relationship: Relationship) returns (accepted: bool)
      requires ValidGraph(catalog)
      modifies this
      ensures ValidGraph(catalog) && catalog.Keys == old(catalog).Keys
      ensures accepted ==> source in catalog && target in catalog
      ensures accepted ==>
                var (owner, other) := Owner(source, target, relationship);
                catalog == if other in Targets(old(catalog)[owner], relationship) then old(catalog)
                           else Related(old(catalog), owner, relationship, other)
      ensures accepted <==> source in old(catalog) && target in old(catalog) && source != target &&
                            (relationship.DependsOn? ==> !Reaches(DependencyGraph(old(catalog)), target, source))
      ensures !accepted ==> catalog == old(catalog)
    {
      if source !in catalog || target !in catalog {
        return false;
      }
      var (owner, other) := Owner(source, target, relationship);
      if other in Targets(catalog[owner], relationship) {
        PresentRelation(catalog, source, target, relationship);
        return true;
      }
      RelateIsValidIff(catalog, source, target, relationship);
      accepted := PublishRecord(owner,
                                WithTargets(catalog[owner], relationship,
                                            Targets(catalog[owner], relationship) + [other]));
    }

    /** Removes a relation from its owner. */
    method Unrelate(source: Id, target: Id, relationship: Relationship) returns (found: bool)
      requires ValidGraph(catalog)
      modifies this
      ensures ValidGraph(catalog)
      ensures var (owner, other) := Owner(source, target, relationship);
              (found <==> owner in old(catalog)) &&
              catalog == if found then Unrelated(old(catalog), owner, relationship, other) else old(catalog)
    {
      var (owner, other) := Owner(source, target, relationship);
      if owner !in catalog {
        return false;
      }
      var values := Targets(catalog[owner], relationship);
      if other !in values {
        WithoutAbsent(values, other);
        assert WithTargets(catalog[owner], relationship, values) == catalog[owner];
        return true;
      }
      UnrelateIsValid(catalog, owner, relationship, other);
      found := PublishRecord(owner, WithTargets(catalog[owner], relationship, Without(values, other)));
    }
  }

  /** A relation already stored in a valid graph meets the conditions under which it is accepted. */
  lemma PresentRelation(catalog: Catalog, source: Id, target: Id, relationship: Relationship)
    requires ValidGraph(catalog) && source in catalog && target in catalog
    requires var (owner, other) := Owner(source, target, relationship); other in Targets(catalog[owner], relationship)
    ensures source != target && (relationship.DependsOn? ==> !Reaches(DependencyGraph(catalog), target, source))
  {
    var (owner, other) := Owner(source, target, relationship);
    assert EntryOk(catalog, owner);
    assert TargetOk(catalog, owner, relationship, other);
    if relationship.DependsOn? {
      NoWayBack(DependencyGraph(catalog), source, target);
    }
  }

  lemma NoWayBack(g: Graph, a: Id, b: Id)
    requires Acyclic(g) && Edge(g, a, b)
    ensures !Reaches(g, b, a)
  {
    forall p | IsPath(g, p) && p[0] == b ensures p[|p| - 1] != a {
      if p[|p| - 1] == a {
        PathMore(g, p, b);
        assert Cycle(g, p + [b]);
      }
    }
  }
}
