/** The issue graph: hierarchy, relationships, subtrees and the derived inverse views. */
module IssueGraph {
  import opened Values
  import opened Graphs
  import opened Texts

  datatype IssueType = Initiative | Epic | Story | Task | Bug

  datatype Location = Active | Archive

  datatype Relationship = DependsOn | RelatesTo | Duplicates | Supersedes

  datatype Issue = Issue(
    kind: IssueType,
    parent: Option<Id>,
    location: Location,
    dependsOn: seq<Id>,
    relatesTo: seq<Id>,
    duplicates: seq<Id>,
    supersedes: seq<Id>)

  type Catalog = map<Id, Issue>

  function AllowedParents(kind: IssueType): (kinds: set<IssueType>)
    ensures forall parent :: parent in kinds <==>
              Rank(parent) < Rank(kind) && (parent.Initiative? ==> kind.Epic? || kind.Story?)
  {
    match kind
    case Initiative => {}
    case Epic => {Initiative}
    case Story => {Epic, Initiative}
    case Task => {Story, Epic}
    case Bug => {Story, Task, Epic}
  }

  /** Depth of a type in the hierarchy; legal parents have a smaller rank. */
  function Rank(kind: IssueType): nat {
    match kind
    case Initiative => 0
    case Epic => 1
    case Story => 2
    case Task => 3
    case Bug => 4
  }

  function Targets(issue: Issue, relationship: Relationship): seq<Id> {
    match relationship
    case DependsOn => issue.dependsOn
    case RelatesTo => issue.relatesTo
    case Duplicates => issue.duplicates
    case Supersedes => issue.supersedes
  }

  // ---------------------------------------------------------------- validity

  function ParentGraph(catalog: Catalog): (g: Graph)
    ensures forall a, b :: Edge(g, a, b) <==> a in catalog && b in catalog && catalog[a].parent == Some(b)
  {
    map id | id in catalog :: if catalog[id].parent.Some? then [catalog[id].parent.value] else []
  }

  function DependencyGraph(catalog: Catalog): (g: Graph)
    ensures forall a, b :: Edge(g, a, b) <==> a in catalog && b in catalog && b in catalog[a].dependsOn
  {
    map id | id in catalog :: catalog[id].dependsOn
  }

  ghost predicate ParentResolves(catalog: Catalog, id: Id)
    requires id in catalog
  {
    catalog[id].parent.Some? ==> catalog[id].parent.value in catalog
  }

  ghost predicate ParentTypeOk(catalog: Catalog, id: Id)
    requires id in catalog
  {
    catalog[id].parent.Some? && catalog[id].parent.value in catalog ==>
      catalog[catalog[id].parent.value].kind in AllowedParents(catalog[id].kind)
  }

  ghost predicate ParentLocationOk(catalog: Catalog, id: Id)
    requires id in catalog
  {
    catalog[id].parent.Some? && catalog[id].parent.value in catalog && catalog[id].location.Active? ==>
      catalog[catalog[id].parent.value].location.Active?
  }

  /** A stored relation target: not the issue itself, present, and for `relates_to` on the lexical owner. */
  ghost predicate TargetOk(catalog: Catalog, id: Id, relationship: Relationship, target: Id) {
    target != id && target in catalog && (relationship.RelatesTo? ==> !Less(target, id))
  }

  ghost predicate RelationsOk(catalog: Catalog, id: Id)
    requires id in catalog
  {
    forall relationship, target :: target in Targets(catalog[id], relationship) ==>
      TargetOk(catalog, id, relationship, target)
  }

  ghost predicate EntryOk(catalog: Catalog, id: Id)
    requires id in catalog
  {
    ParentResolves(catalog, id) && ParentTypeOk(catalog, id) && ParentLocationOk(catalog, id)
      && RelationsOk(catalog, id)
  }

  ghost predicate ValidGraph(catalog: Catalog) {
    && (forall id :: id in catalog ==> EntryOk(catalog, id))
    && Acyclic(ParentGraph(catalog)) && Acyclic(DependencyGraph(catalog))
  }

  datatype Code =
    | TargetNotFound | ParentType | ParentLocation | SelfRelation | RelationOwner | ParentCycle | DependencyCycle

  datatype Finding = Finding(code: Code, id: Id)

  /** What a finding claims about its issue. */
  ghost predicate Defect(catalog: Catalog, f: Finding) {
    f.id in catalog &&
    match f.code
    case TargetNotFound =>
      !ParentResolves(catalog, f.id) ||
      exists relationship, target :: target in Targets(catalog[f.id], relationship) && target !in catalog
    case ParentType => !ParentTypeOk(catalog, f.id)
    case ParentLocation => !ParentLocationOk(catalog, f.id)
    case SelfRelation => exists relationship :: f.id in Targets(catalog[f.id], relationship)
    case RelationOwner => exists target :: target in catalog[f.id].relatesTo && Less(target, f.id)
    case ParentCycle => CycleAt(ParentGraph(catalog), f.id)
    case DependencyCycle => CycleAt(DependencyGraph(catalog), f.id)
  }

  ghost predicate AllDefects(catalog: Catalog, findings: seq<Finding>) {
    forall i :: 0 <= i < |findings| ==> Defect(catalog, findings[i])
  }

  lemma CycleNodeIsPresent(g: Graph, id: Id)
    requires CycleAt(g, id)
    ensures id in g
  {
    var p :| Cycle(g, p) && p[0] == id;
    assert Edge(g, p[0], p[1]);
  }

  const MAX_FINDINGS := 1000

  function Add(findings: seq<Finding>, finding: Finding): seq<Finding> {
    if |findings| < MAX_FINDINGS then findings + [finding] else findings
  }

  method InspectParent(catalog: Catalog, id: Id, findings: seq<Finding>) returns (more: seq<Finding>)
    requires id in catalog && |findings| <= MAX_FINDINGS && AllDefects(catalog, findings)
    ensures findings <= more && |more| <= MAX_FINDINGS && AllDefects(catalog, more)
    ensures more == findings <==>
              || |findings| == MAX_FINDINGS
              || (ParentResolves(catalog, id) && ParentTypeOk(catalog, id) && ParentLocationOk(catalog, id))
  {
    more := findings;
    var record := catalog[id];
    if record.parent.Some? {
      if record.parent.value !in catalog {
        more := Add(more, Finding(TargetNotFound, id));
      } else {
        var parent := catalog[record.parent.value];
        if parent.kind !in AllowedParents(record.kind) {
          more := Add(more, Finding(ParentType, id));
        }
        if record.location.Active? && parent.location.Archive? {
          more := Add(more, Finding(ParentLocation, id));
        }
      }
    }
  }

  method InspectTargets(catalog: Catalog, id: Id, relationship: Relationship, findings: seq<Finding>)
    returns (more: seq<Finding>)
    requires id in catalog && |findings| <= MAX_FINDINGS && AllDefects(catalog, findings)
    ensures findings <= more && |more| <= MAX_FINDINGS && AllDefects(catalog, more)
    ensures more == findings <==>
              || |findings| == MAX_FINDINGS
              || forall target ::
                   target in Targets(catalog[id], relationship) ==> TargetOk(catalog, id, relationship, target)
  {
    more := findings;
    var targets := Targets(catalog[id], relationship);
    for i := 0 to |targets|
      invariant findings <= more && |more| <= MAX_FINDINGS && AllDefects(catalog, more)
      invariant more == findings <==>
                  || |findings| == MAX_FINDINGS
                  || forall k :: 0 <= k < i ==> TargetOk(catalog, id, relationship, targets[k])
    {
      more := InspectTarget(catalog, id, relationship, targets[i], more);
    }
  }

  method InspectTarget(catalog: Catalog, id: Id, relationship: Relationship, target: Id, findings: seq<Finding>)
    returns (more: seq<Finding>)
    requires id in catalog && target in Targets(catalog[id], relationship)
    requires |findings| <= MAX_FINDINGS && AllDefects(catalog, findings)
    ensures findings <= more && |more| <= MAX_FINDINGS && AllDefects(catalog, more)
    ensures more == findings <==> |findings| == MAX_FINDINGS || TargetOk(catalog, id, relationship, target)
  {
    more := findings;
    if target == id {
      more := Add(more, Finding(SelfRelation, id));
    } else if target !in catalog {
      more := Add(more, Finding(TargetNotFound, id));
    }
    if relationship.RelatesTo? && Less(target, id) {
      more := Add(more, Finding(RelationOwner, id));
    }
  }

  /** Collects at most a thousand findings, each a defect; there are none exactly when the graph is valid. */
  method InspectIssueGraph(catalog: Catalog) returns (findings: seq<Finding>)
    ensures |findings| <= MAX_FINDINGS && AllDefects(catalog, findings)
    ensures findings == [] <==> ValidGraph(catalog)
  {
    findings := [];
    var keys := catalog.Keys;
    while keys != {}
      invariant keys <= catalog.Keys && |findings| <= MAX_FINDINGS && AllDefects(catalog, findings)
      invariant findings == [] <==> forall id :: id in catalog && id !in keys ==> EntryOk(catalog, id)
      decreases |keys|
    {
      var id :| id in keys;
      findings := InspectEntry(catalog, id, findings);
      keys := keys - {id};
    }
    findings := InspectCycles(catalog, findings);
  }

  /** Adds findings of one issue to the earlier ones: none exactly when there is no room or no defect. */
  method InspectEntry(catalog: Catalog, id: Id, findings: seq<Finding>) returns (more: seq<Finding>)
    requires id in catalog && |findings| <= MAX_FINDINGS && AllDefects(catalog, findings)
    ensures findings <= more && |more| <= MAX_FINDINGS && AllDefects(catalog, more)
    ensures more == findings <==> |findings| == MAX_FINDINGS || EntryOk(catalog, id)
  {
    more := InspectParent(catalog, id, findings);
    more := InspectTargets(catalog, id, DependsOn, more);
    more := InspectTargets(catalog, id, RelatesTo, more);
    more := InspectTargets(catalog, id, Duplicates, more);
    more := InspectTargets(catalog, id, Supersedes, more);
  }

  method InspectCycles(catalog: Catalog, earlier: seq<Finding>) returns (findings: seq<Finding>)
    requires |earlier| <= MAX_FINDINGS && AllDefects(catalog, earlier)
    ensures |findings| <= MAX_FINDINGS && AllDefects(catalog, findings)
    ensures findings == [] <==>
              earlier == [] && Acyclic(ParentGraph(catalog)) && Acyclic(DependencyGraph(catalog))
  {
    findings := earlier;
    var parents := AssertAcyclic(ParentGraph(catalog));
    if parents.Some? {
      CycleNodeIsPresent(ParentGraph(catalog), parents.value);
      findings := Add(findings, Finding(ParentCycle, parents.value));
    }
    var dependencies := AssertAcyclic(DependencyGraph(catalog));
    if dependencies.Some? {
      CycleNodeIsPresent(DependencyGraph(catalog), dependencies.value);
      findings := Add(findings, Finding(DependencyCycle, dependencies.value));
    }
  }

  // ---------------------------------------------------------------- hierarchy

  /** Resolved parents have legal types; nothing else is needed to walk the hierarchy. */
  ghost predicate LegalParents(catalog: Catalog) {
    forall id :: id in catalog ==> ParentTypeOk(catalog, id)
  }

  /** Legal parent types alone exclude parent cycles and bound every chain at five levels. */
  lemma {:induction false} LegalChainsAreShort(catalog: Catalog, p: seq<Id>)
    requires LegalParents(catalog) && IsPath(ParentGraph(catalog), p)
    ensures !Cycle(ParentGraph(catalog), p)
    ensures p[0] in catalog ==> |p| <= Rank(catalog[p[0]].kind) + 1 <= 5
  {
    if |p| >= 2 {
      assert Edge(ParentGraph(catalog), p[0], p[1]);
      forall i | 0 <= i < |p| - 2 ensures Edge(ParentGraph(catalog), p[1..][i], p[1..][i + 1]) {
        assert Edge(ParentGraph(catalog), p[i + 1], p[i + 2]);
      }
      assert ParentTypeOk(catalog, p[0]);
      LegalChainsAreShort(catalog, p[1..]);
      RanksFall(catalog, p);
    }
  }

  lemma {:induction false} RanksFall(catalog: Catalog, p: seq<Id>)
    requires LegalParents(catalog) && IsPath(ParentGraph(catalog), p) && |p| >= 2
    ensures p[0] in catalog && p[|p| - 1] in catalog && Rank(catalog[p[|p| - 1]].kind) < Rank(catalog[p[0]].kind)
  {
    assert Edge(ParentGraph(catalog), p[0], p[1]) && ParentTypeOk(catalog, p[0]);
    if |p| > 2 {
      forall i | 0 <= i < |p| - 2 ensures Edge(ParentGraph(catalog), p[1..][i], p[1..][i + 1]) {
        assert Edge(ParentGraph(catalog), p[i + 1], p[i + 2]);
      }
      RanksFall(catalog, p[1..]);
    }
  }

  /** Reached from the root through children that are all in the given location. */
  ghost predicate InSubtree(catalog: Catalog, location: Location, root: Id, id: Id)
    requires LegalParents(catalog)
    decreases if id in catalog then Rank(catalog[id].kind) + 1 else 0
  {
    || id == root
    || (&& id in catalog && catalog[id].location == location
        && catalog[id].parent.Some? && catalog[id].parent.value in catalog
        && assert ParentTypeOk(catalog, id); InSubtree(catalog, location, root, catalog[id].parent.value))
  }

  ghost predicate IsChild(catalog: Catalog, location: Location, parent: Id, id: Id) {
    id in catalog && catalog[id].location == location && catalog[id].parent == Some(parent)
  }

  lemma {:induction false} SubtreeRanks(catalog: Catalog, location: Location, root: Id, id: Id)
    requires LegalParents(catalog) && root in catalog && InSubtree(catalog, location, root, id)
    ensures id in catalog && (id != root ==> Rank(catalog[root].kind) < Rank(catalog[id].kind))
    decreases if id in catalog then Rank(catalog[id].kind) + 1 else 0
  {
    if id != root {
      assert ParentTypeOk(catalog, id);
      SubtreeRanks(catalog, location, root, catalog[id].parent.value);
    }
  }

  /** A subtree is its root and the subtrees of the root's children. */
  lemma {:induction false} SubtreeByChildren(catalog: Catalog, location: Location, root: Id, id: Id)
    requires LegalParents(catalog) && root in catalog
    ensures InSubtree(catalog, location, root, id) <==>
              id == root || exists c :: IsChild(catalog, location, root, c) && InSubtree(catalog, location, c, id)
    decreases if id in catalog then Rank(catalog[id].kind) + 1 else 0
  {
    if id != root && id in catalog && catalog[id].parent.Some? && catalog[id].parent.value in catalog {
      var p := catalog[id].parent.value;
      assert ParentTypeOk(catalog, id);
      SubtreeByChildren(catalog, location, root, p);
      if InSubtree(catalog, location, root, id) && p == root {
        assert IsChild(catalog, location, root, id) && InSubtree(catalog, location, id, id);
      }
      if c :| IsChild(catalog, location, root, c) && InSubtree(catalog, location, c, id) {
        assert c == id ==> p == root;
        assert c != id ==> InSubtree(catalog, location, c, p);
      }
    }
  }

  /** Sibling subtrees do not meet. */
  lemma {:induction false} SiblingsApart(catalog: Catalog, location: Location, parent: Id, c: Id, d: Id, id: Id)
    requires LegalParents(catalog) && parent in catalog && c != d
    requires IsChild(catalog, location, parent, c) && IsChild(catalog, location, parent, d)
    requires InSubtree(catalog, location, c, id)
    ensures !InSubtree(catalog, location, d, id)
    decreases if id in catalog then Rank(catalog[id].kind) + 1 else 0
  {
    assert ParentTypeOk(catalog, c) && ParentTypeOk(catalog, d);
    if InSubtree(catalog, location, d, parent) {
      SubtreeRanks(catalog, location, d, parent);
    }
    if id != c {
      assert ParentTypeOk(catalog, id);
      if catalog[id].parent.value == parent {
        SubtreeRanks(catalog, location, c, parent);
      } else {
        SiblingsApart(catalog, location, parent, c, d, catalog[id].parent.value);
      }
    }
  }

  /** The catalog's ids in the deterministic order of the listing. */
  ghost predicate IsListing(catalog: Catalog, ids: seq<Id>) {
    Distinct(ids) && forall id :: id in ids <==> id in catalog
  }

  /** The subtrees of the listed children come after the root, each complete. */
  ghost predicate Collected(catalog: Catalog, location: Location, root: Id, listed: seq<Id>, result: seq<Id>)
    requires LegalParents(catalog)
  {
    && Distinct(result) && result != [] && result[0] == root
    && forall id :: id in result <==>
         id == root
           || exists c :: c in listed && IsChild(catalog, location, root, c) && InSubtree(catalog, location, c, id)
  }

  /**
   * Visits a subtree without a visited set. Legal parent types make it terminate; it returns,
   * without repeats and root first, exactly the same-location descendants.
   */
  method Visit(catalog: Catalog, listing: seq<Id>, location: Location, id: Id) returns (result: seq<Id>)
    requires LegalParents(catalog) && IsListing(catalog, listing) && id in catalog
    ensures Distinct(result) && result != [] && result[0] == id
    ensures forall x :: x in result <==> InSubtree(catalog, location, id, x)
    decreases 4 - Rank(catalog[id].kind)
  {
    result := [id];
    for i := 0 to |listing|
      invariant Collected(catalog, location, id, listing[..i], result)
    {
      var child := listing[i];
      assert listing[..i + 1] == listing[..i] + [child];
      if catalog[child].location == location && catalog[child].parent == Some(id) {
        assert ParentTypeOk(catalog, child);
        var below := Visit(catalog, listing, location, child);
        CollectChild(catalog, location, id, listing, i, result, below);
        result := result + below;
      }
    }
    assert listing[..|listing|] == listing;
    forall x ensures x in result <==> InSubtree(catalog, location, id, x) {
      SubtreeByChildren(catalog, location, id, x);
    }
  }

  lemma CollectChild(catalog: Catalog, location: Location, root: Id, listing: seq<Id>, i: nat, result: seq<Id>,
                     below: seq<Id>)
    requires LegalParents(catalog) && IsListing(catalog, listing) && root in catalog && i < |listing|
    requires IsChild(catalog, location, root, listing[i])
    requires Collected(catalog, location, root, listing[..i], result)
    requires Distinct(below) && forall x :: x in below <==> InSubtree(catalog, location, listing[i], x)
    ensures Collected(catalog, location, root, listing[..i + 1], result + below)
  {
    var child := listing[i];
    assert listing[..i + 1] == listing[..i] + [child];
    assert ParentTypeOk(catalog, child);
    forall x | x in result ensures x !in below {
      if x == root {
        if InSubtree(catalog, location, child, root) {
          SubtreeRanks(catalog, location, child, root);
        }
      } else {
        var c :| c in listing[..i] && IsChild(catalog, location, root, c) && InSubtree(catalog, location, c, x);
        SiblingsApart(catalog, location, root, c, child, x);
      }
    }
    forall x
      ensures x in result + below <==>
                x == root
                || exists c :: c in listing[..i + 1] && IsChild(catalog, location, root, c)
                               && InSubtree(catalog, location, c, x)
    {
      if x in below {
        assert child in listing[..i + 1] && InSubtree(catalog, location, child, x);
      } else if x in result && x != root {
        var c :| c in listing[..i] && IsChild(catalog, location, root, c) && InSubtree(catalog, location, c, x);
        assert c in listing[..i + 1];
      }
      if c :| c in listing[..i + 1] && IsChild(catalog, location, root, c) && InSubtree(catalog, location, c, x) {
        assert c in listing[..i] || c == child;
      }
    }
    assert (result + below)[0] == root;
    JoinDistinct(result, below);
  }

  lemma JoinDistinct(left: seq<Id>, right: seq<Id>)
    requires Distinct(left) && Distinct(right) && forall x :: x in left ==> x !in right
    ensures Distinct(left + right)
  {
    forall i, j | 0 <= i < j < |left + right| ensures (left + right)[i] != (left + right)[j] {
      assert i < |left| ==> left[i] !in right;
    }
  }

  /** The subtree of an issue in a location, or an error when the issue is not there. */
  method IssueSubtree(catalog: Catalog, listing: seq<Id>, root: Id, location: Location)
    returns (result: Result<seq<Id>, string>)
    requires LegalParents(catalog) && IsListing(catalog, listing)
    ensures result.Ok? <==> root in catalog && catalog[root].location == location
    ensures result.Ok? ==> Distinct(result.value) && result.value != [] && result.value[0] == root
    ensures result.Ok? ==> forall x :: x in result.value <==> InSubtree(catalog, location, root, x)
  {
    if root !in catalog || catalog[root].location != location {
      return Err("Issue not found");
    }
    var ids := Visit(catalog, listing, location, root);
    result := Ok(ids);
  }

  // ---------------------------------------------------------------- inverse views

  datatype View = View(children: seq<Id>, blocks: seq<Id>, blockedBy: seq<Id>, relatedTo: seq<Id>)

  /** Derives hierarchy and inverse relationships, each list sorted; only what blocks an issue may repeat. */
  method HydrateIssue(catalog: Catalog, listing: seq<Id>, id: Id) returns (result: Result<View, string>)
    requires IsListing(catalog, listing)
    ensures result.Ok? <==> id in catalog
    ensures result.Ok? ==> IsView(catalog, id, result.value)
  {
    if id !in catalog {
      return Err("Issue not found");
    }
    var children: seq<Id>, blocks: seq<Id>, related := [], [], catalog[id].relatesTo;
    for i := 0 to |listing|
      invariant forall x :: x in children <==> x in listing[..i] && catalog[x].parent == Some(id)
      invariant forall x :: x in blocks <==> x in listing[..i] && id in catalog[x].dependsOn
      invariant forall x ::
                  x in related <==> x in catalog[id].relatesTo || (x in listing[..i] && id in catalog[x].relatesTo)
    {
      assert listing[..i + 1] == listing[..i] + [listing[i]];
      var candidate := listing[i];
      if catalog[candidate].parent == Some(id) {
        children := children + [candidate];
      }
      if id in catalog[candidate].dependsOn {
        blocks := blocks + [candidate];
      }
      if id in catalog[candidate].relatesTo {
        related := related + [candidate];
      }
    }
    assert listing[..|listing|] == listing;
    var sortedChildren := SortSet(set x | x in children);
    var sortedBlocks := SortSet(set x | x in blocks);
    var blockedBy := SortTexts(catalog[id].dependsOn);
    SameMembers(blockedBy, catalog[id].dependsOn);
    var sortedRelated := SortSet(set x | x in related);
    result := Ok(View(sortedChildren, sortedBlocks, blockedBy, sortedRelated));
  }

  lemma SameMembers(a: seq<Id>, b: seq<Id>)
    requires multiset(a) == multiset(b)
    ensures forall x :: x in a <==> x in b
  {
    forall x ensures x in a <==> x in b {
      assert x in multiset(a) <==> x in multiset(b);
    }
  }

  ghost predicate IsView(catalog: Catalog, id: Id, view: View)
    requires id in catalog
  {
    && Ascending(view.children) && Ascending(view.blocks) && Ascending(view.relatedTo)
    && NonDescending(view.blockedBy) && multiset(view.blockedBy) == multiset(catalog[id].dependsOn)
    && (forall x :: x in view.children <==> x in catalog && catalog[x].parent == Some(id))
    && (forall x :: x in view.blocks <==> x in catalog && id in catalog[x].dependsOn)
    && (forall x :: x in view.blockedBy <==> x in catalog[id].dependsOn)
    && (forall x :: x in view.relatedTo <==> x in catalog[id].relatesTo || (x in catalog && id in catalog[x].relatesTo))
  }

  /** The views of two issues agree: blocking is inverse to being blocked, relating is symmetric. */
  lemma ViewsAgree(catalog: Catalog, a: Id, b: Id, viewA: View, viewB: View)
    requires a in catalog && b in catalog && IsView(catalog, a, viewA) && IsView(catalog, b, viewB)
    ensures b in viewA.blocks <==> a in viewB.blockedBy
    ensures b in viewA.relatedTo <==> a in viewB.relatedTo
  {
  }
}
