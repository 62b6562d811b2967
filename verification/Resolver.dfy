/** Layered configuration: the merge writes into resolver-owned objects and never into a layer it was given. */
module Resolver {
  import opened Values
  import opened JsonPaths
  import opened Overlays

  /** A configuration value: a mapping is a mutable object, anything else is never written into. */
  datatype Value = Scalar(json: Json) | Mapping(node: Node)

  /** The objects a value is made of. One object may stand at several places, as in a parsed document. */
  datatype Shape = Flat(json: Json) | Nested(node: Node, parts: map<string, Shape>)

  // ---------------------------------------------------------------- shapes

  ghost function Nodes(shape: Shape): set<Node> {
    match shape
    case Flat(_) => {}
    case Nested(node, parts) => {node} + set k, n | k in parts && n in Nodes(parts[k]) :: n
  }

  ghost function Image(shape: Shape): Json {
    match shape
    case Flat(json) => json
    case Nested(_, parts) => Object(map k | k in parts :: Image(parts[k]))
  }

  function Held(shape: Shape): Value {
    match shape
    case Flat(json) => Scalar(json)
    case Nested(node, _) => Mapping(node)
  }

  /** No object stands at two places, so that writing at one leaves the others alone. */
  ghost predicate Unshared(shape: Shape) {
    shape.Nested? ==>
      && (forall k :: k in shape.parts ==> shape.node !in Nodes(shape.parts[k]) && Unshared(shape.parts[k]))
      && forall k, l :: k in shape.parts && l in shape.parts && k != l ==>
           Nodes(shape.parts[k]) !! Nodes(shape.parts[l])
  }

  ghost predicate ApartFrom(parts: map<string, Shape>, key: string, part: Shape) {
    forall k :: k in parts && k != key ==> Nodes(parts[k]) !! Nodes(part)
  }

  lemma UnsharedWithPart(node: Node, parts: map<string, Shape>, key: string, part: Shape)
    requires Unshared(Nested(node, parts)) && Unshared(part)
    requires node !in Nodes(part) && ApartFrom(parts, key, part)
    ensures Unshared(Nested(node, parts[key := part]))
    ensures Nodes(Nested(node, parts[key := part])) <= Nodes(Nested(node, parts)) + Nodes(part)
  {
    var updated := parts[key := part];
    forall k, n | k in updated && n in Nodes(updated[k]) ensures n in Nodes(Nested(node, parts)) + Nodes(part) {
      assert k != key ==> updated[k] == parts[k];
    }
    forall k, l | k in updated && l in updated && k != l ensures Nodes(updated[k]) !! Nodes(updated[l]) {
      assert k != key ==> updated[k] == parts[k];
      assert l != key ==> updated[l] == parts[l];
    }
  }

  lemma ImageWithPart(node: Node, parts: map<string, Shape>, key: string, part: Shape)
    ensures Image(Nested(node, parts[key := part])) == Object(Image(Nested(node, parts)).fields[key := Image(part)])
  {
  }

  /** Under the keys handled so far, the copy stands for the same data as the original. */
  ghost predicate Mirrors(copy: Shape, parts: map<string, Shape>, done: set<string>) {
    && copy.Nested? && copy.parts.Keys == done && done <= parts.Keys
    && forall k :: k in done ==> Image(copy.parts[k]) == Image(parts[k])
  }

  lemma MirrorsStep(copy: Shape, parts: map<string, Shape>, done: set<string>, key: string, part: Shape)
    requires Mirrors(copy, parts, done) && key in parts && Image(part) == Image(parts[key])
    ensures Mirrors(Nested(copy.node, copy.parts[key := part]), parts, done + {key})
  {
  }

  lemma MirrorsAll(copy: Shape, shape: Shape)
    requires shape.Nested? && Mirrors(copy, shape.parts, shape.parts.Keys)
    ensures Image(copy) == Image(shape)
  {
  }

  // ---------------------------------------------------------------- objects

  class Node {
    var fields: map<string, Value>
    /** What this object stands for, part by part, and every object it is made of. */
    ghost var shape: Shape
    ghost var repr: set<Node>

    constructor ()
      ensures fresh(repr) && shape == Nested(this, map[]) && Owned()
    {
      fields := map[];
      shape, repr := Nested(this, map[]), {this};
    }

    ghost predicate Valid()
      reads this, repr
    {
      && shape.Nested? && shape.node == this && repr == Nodes(shape)
      && Holds(shape)
    }

    /** It may be written into: no object stands at two places. */
    ghost predicate Owned()
      reads this, repr
    {
      Valid() && Unshared(shape)
    }

    /** The parts under all other keys are as recorded; a merge may have written into this one. */
    ghost predicate ValidBut(key: string)
      reads this, repr
    {
      && shape.Nested? && shape.node == this && repr == Nodes(shape)
      && fields.Keys == shape.parts.Keys
      && forall k :: k in shape.parts && k != key ==> fields[k] == Held(shape.parts[k]) && Holds(shape.parts[k])
    }

    /** Assigns one key in place. */
    method SetField(key: string, value: Value)
      requires ValidBut(key) && Unshared(shape)
      requires IsOwned(value)
      requires this !in Nodes(ShapeOf(value)) && ApartFrom(shape.parts, key, ShapeOf(value))
      modifies this
      ensures Owned()
      ensures shape == Nested(this, old(shape.parts)[key := old(ShapeOf(value))])
      ensures repr <= old(repr + Footprint(value))
    {
      ghost var part, parts := ShapeOf(value), shape.parts;
      UnsharedWithPart(this, parts, key, part);
      assert Held(part) == value && Holds(part);
      Assign(key, value, parts[key := part]);
      forall k | k in parts && k != key ensures Holds(parts[k]) {
        assert this !in Nodes(parts[k]);
      }
    }

    method Assign(key: string, value: Value, ghost parts: map<string, Shape>)
      modifies this
      ensures fields == old(fields)[key := value] && shape == Nested(this, parts) && repr == Nodes(shape)
    {
      fields := fields[key := value];
      shape := Nested(this, parts);
      repr := Nodes(shape);
    }
  }

  /** Every object of the shape has the fields that the shape gives it. */
  ghost predicate Holds(shape: Shape)
    reads Nodes(shape)
    decreases shape
  {
    match shape
    case Flat(json) => !json.Object?
    case Nested(node, parts) =>
      && node.shape == shape && node.repr == Nodes(shape) && node.fields.Keys == parts.Keys
      && forall k :: k in parts ==> node.fields[k] == Held(parts[k]) && Holds(parts[k])
  }

  ghost function ShapeOf(value: Value): Shape
    reads if value.Mapping? then {value.node} else {}
  {
    if value.Mapping? then value.node.shape else Flat(value.json)
  }

  ghost predicate IsValid(value: Value)
    reads if value.Mapping? then {value.node} + value.node.repr else {}
  {
    if value.Mapping? then value.node.Valid() else !value.json.Object?
  }

  /** The objects a value may be written through, and the data it stands for. */
  ghost function Footprint(value: Value): set<Node>
    reads if value.Mapping? then {value.node} else {}
  {
    if value.Mapping? then value.node.repr else {}
  }

  ghost function View(value: Value): Json
    reads if value.Mapping? then {value.node} else {}
  {
    Image(ShapeOf(value))
  }

  ghost predicate IsOwned(value: Value)
    reads if value.Mapping? then {value.node} + value.node.repr else {}
  {
    if value.Mapping? then value.node.Owned() else !value.json.Object?
  }

  lemma PartIsValid(node: Node, key: string)
    requires node.Valid() && key in node.fields
    ensures key in node.shape.parts && ShapeOf(node.fields[key]) == node.shape.parts[key] && IsValid(node.fields[key])
  {
    assert Holds(node.shape.parts[key]);
  }

  lemma ValidImpliesValidBut(node: Node, key: string)
    requires node.Valid()
    ensures node.ValidBut(key)
  {
  }

  lemma DisjointIsApart(shape: Shape, key: string, part: Shape)
    requires shape.Nested? && Nodes(shape) !! Nodes(part)
    ensures shape.node !in Nodes(part) && ApartFrom(shape.parts, key, part)
  {
  }

  /** A copy that shares no object with the original. */
  method CloneMutable(value: Value) returns (copy: Value)
    requires IsValid(value)
    ensures IsOwned(copy) && fresh(Footprint(copy)) && View(copy) == View(value)
    decreases ShapeOf(value), 1
  {
    if value.Scalar? {
      return value;
    }
    var node := new Node();
    CloneFields(value.node, node);
    MirrorsAll(node.shape, value.node.shape);
    copy := Mapping(node);
  }

  method CloneFields(source: Node, target: Node)
    requires source.Valid() && target.Owned() && target.shape.parts == map[] && source != target
    requires target !in source.repr && target.repr == {target}
    modifies target
    ensures target.Owned() && fresh(target.repr - {target})
    ensures Mirrors(target.shape, old(source.shape.parts), old(source.shape.parts).Keys)
    decreases source.shape, 0
  {
    ghost var parts := source.shape.parts;
    var keys := source.fields.Keys;
    while keys != {}
      invariant keys <= parts.Keys && source.Valid() && source.shape == old(source.shape)
      invariant target.Owned() && fresh(target.repr - {target})
      invariant Mirrors(target.shape, parts, parts.Keys - keys)
      decreases keys
    {
      var key :| key in keys;
      PartIsValid(source, key);
      ghost var before := target.shape;
      ghost var part := CloneField(target, key, source.fields[key]);
      MirrorsStep(before, parts, parts.Keys - keys, key, part);
      assert parts.Keys - (keys - {key}) == parts.Keys - keys + {key};
      keys := keys - {key};
    }
    assert parts.Keys - keys == parts.Keys;
  }

  /** Assigns a copy of one part. */
  method CloneField(target: Node, key: string, value: Value) returns (ghost part: Shape)
    requires target.Owned() && IsValid(value)
    modifies target
    ensures target.Owned() && target.repr <= old(target.repr) + Nodes(part) && fresh(Nodes(part))
    ensures target.shape == Nested(target, old(target.shape.parts)[key := part]) && Image(part) == old(View(value))
    decreases ShapeOf(value), 2
  {
    ghost var built := target.repr;
    var child := CloneMutable(value);
    part := ShapeOf(child);
    assert built !! Footprint(child);
    DisjointIsApart(target.shape, key, part);
    ValidImpliesValidBut(target, key);
    target.SetField(key, child);
  }

  // ---------------------------------------------------------------- the merge

  ghost function FootprintOf(value: Option<Value>): set<Node>
    reads if value.Some? && value.value.Mapping? then {value.value.node} else {}
  {
    if value.Some? then Footprint(value.value) else {}
  }

  ghost function ViewOf(value: Option<Value>): Option<Json>
    reads if value.Some? && value.value.Mapping? then {value.value.node} else {}
  {
    if value.Some? then Some(View(value.value)) else None
  }

  lemma PartIsOwned(node: Node, key: string)
    requires node.Owned() && key in node.fields
    ensures IsOwned(node.fields[key]) && Footprint(node.fields[key]) <= node.repr
            && node !in Footprint(node.fields[key])
    ensures ShapeOf(node.fields[key]) == node.shape.parts[key]
    ensures ApartFrom(node.shape.parts, key, node.shape.parts[key])
  {
    PartIsValid(node, key);
  }

  /** All other parts are made of objects that a write below one part does not reach. */
  ghost predicate KeptParts(parts: map<string, Shape>, key: string, whole: set<Node>, written: set<Node>) {
    forall k :: k in parts && k != key ==> Nodes(parts[k]) <= whole && Nodes(parts[k]) !! written
  }

  /** The trees of the parts handled so far. */
  ghost predicate Annotates(children: map<string, Tree>, parts: map<string, Shape>, done: set<string>, source: Source) {
    && children.Keys == done && done <= parts.Keys
    && forall k :: k in done ==> children[k] == Annotate(Image(parts[k]), source)
  }

  lemma AnnotatesAll(children: map<string, Tree>, shape: Shape, source: Source)
    requires shape.Nested? && Annotates(children, shape.parts, shape.parts.Keys, source)
    ensures Branch(children) == Annotate(Image(shape), source)
  {
  }

  class Provenance {
    var entries: map<JsonPath, Source>

    constructor ()
      ensures entries == map[]
    {
      entries := map[];
    }

    /** Removes obsolete descendants when a higher layer replaces a subtree. */
    method Clear(target: JsonPath)
      modifies this
      ensures Records(entries, target, None) && SameOutside(entries, old(entries), target)
    {
      var keys := entries.Keys;
      while keys != {}
        invariant entries.Keys <= old(entries).Keys && keys <= old(entries).Keys
        invariant forall q :: q in entries && target <= q ==> q in keys
        invariant SameOutside(entries, old(entries), target)
        decreases |keys|
      {
        var key :| key in keys;
        if target <= key {
          entries := entries - {key};
        }
        keys := keys - {key};
      }
    }

    /** Records every scalar and array leaf of a value that has just replaced a subtree. */
    method RecordLeaves(value: Value, at: JsonPath, source: Source)
      requires IsValid(value) && Records(entries, at, None)
      modifies this
      ensures Records(entries, at, Some(Annotate(View(value), source))) && SameOutside(entries, old(entries), at)
      decreases ShapeOf(value), 1
    {
      if value.Mapping? {
        RecordFields(value.node, at, source);
      } else {
        RecordLeaf(value.json, at, source);
      }
    }

    method RecordFields(node: Node, at: JsonPath, source: Source)
      requires node.Valid() && Records(entries, at, None)
      modifies this
      ensures Records(entries, at, Some(Annotate(Image(node.shape), source))) && SameOutside(entries, old(entries), at)
      decreases node.shape, 0
    {
      ghost var parts := node.shape.parts;
      ghost var children: map<string, Tree> := map[];
      var keys := node.fields.Keys;
      while keys != {}
        invariant keys <= parts.Keys && Annotates(children, parts, parts.Keys - keys, source)
        invariant Records(entries, at, Some(Branch(children))) && SameOutside(entries, old(entries), at)
        decreases keys
      {
        var key :| key in keys;
        ghost var before := entries;
        PartIsValid(node, key);
        RecordsChild(entries, at, Some(Branch(children)), key);
        RecordLeaves(node.fields[key], at + [key], source);
        RecordsWithChild(entries, before, at, children, key, Annotate(Image(parts[key]), source));
        children := children[key := Annotate(Image(parts[key]), source)];
        keys := keys - {key};
      }
      AnnotatesAll(children, node.shape, source);
    }

    method RecordLeaf(json: Json, at: JsonPath, source: Source)
      requires Records(entries, at, None) && !json.Object?
      modifies this
      ensures Records(entries, at, Some(Annotate(json, source))) && SameOutside(entries, old(entries), at)
    {
      entries := entries[at := source];
      forall q | at <= q ensures EntryAt(entries, q) == SourceAt(Some(Annotate(json, source)), q[|at|..]) {
        assert q[|at|..] == [] <==> q == at;
      }
    }

    /**
     * Merges a higher value over a lower one, writing into the objects of the lower one only.
     * The result is the erasure of the reference overlay and shares no object with the higher
     * value, which keeps its objects and its data; below the current path the map records
     * exactly the leaves of the overlay.
     */
    method MergeValues(lower: Option<Value>, higher: Value, at: JsonPath, source: Source, ghost tree: Option<Tree>)
      returns (merged: Value)
      requires lower.Some? ==> IsOwned(lower.value)
      requires IsValid(higher) && FootprintOf(lower) !! Footprint(higher)
      requires ViewOf(lower) == EraseOf(tree) && (tree.Some? ==> WellFormed(tree.value))
      requires Records(entries, at, tree)
      modifies this, FootprintOf(lower)
      ensures IsOwned(merged) && fresh(Footprint(merged) - old(FootprintOf(lower)))
      ensures IsValid(higher) && Footprint(higher) == old(Footprint(higher)) && View(higher) == old(View(higher))
      ensures Footprint(merged) !! Footprint(higher)
      ensures View(merged) == Erase(Overlay(tree, View(higher), source))
      ensures Records(entries, at, Some(Overlay(tree, View(higher), source)))
      ensures SameOutside(entries, old(entries), at)
      decreases ShapeOf(higher), 2
    {
      if lower.Some? && lower.value.Mapping? && higher.Mapping? {
        MergeFields(lower.value.node, higher.node, at, source, tree.value);
        return lower.value;
      }
      merged := Replace(higher, at, source);
      AnnotateErases(View(higher), source);
    }

    /** The higher value takes the place of whatever was there, as a copy of its own. */
    method Replace(higher: Value, at: JsonPath, source: Source) returns (replacement: Value)
      requires IsValid(higher)
      modifies this
      ensures IsOwned(replacement) && fresh(Footprint(replacement)) && View(replacement) == View(higher)
      ensures Records(entries, at, Some(Annotate(View(higher), source))) && SameOutside(entries, old(entries), at)
    {
      Clear(at);
      replacement := CloneMutable(higher);
      RecordLeaves(replacement, at, source);
    }

    method MergeFields(lower: Node, higher: Node, at: JsonPath, source: Source, ghost tree: Tree)
      requires tree.Branch? && Merging(lower, higher, at, tree.children)
      modifies this, lower.repr
      ensures lower.Owned() && fresh(lower.repr - old(lower.repr))
      ensures Image(lower.shape) == Erase(Overlay(Some(tree), Image(higher.shape), source))
      ensures Records(entries, at, Some(Overlay(Some(tree), Image(higher.shape), source)))
      ensures SameOutside(entries, old(entries), at)
      decreases higher.shape, 1
    {
      ghost var below, patch := tree.children, Image(higher.shape).fields;
      ghost var children := below;
      PartlyOverlaidAll(below, patch, source);
      var keys := higher.fields.Keys;
      while keys != {}
        invariant keys <= patch.Keys && higher.shape == old(higher.shape)
        invariant Merging(lower, higher, at, children) && fresh(lower.repr - old(lower.repr))
        invariant children == PartlyOverlaid(below, patch, source, keys) && SameOutside(entries, old(entries), at)
        decreases keys
      {
        var key :| key in keys;
        PartlyOverlaidStep(below, patch, source, keys, key);
        children := MergeKey(lower, higher, key, at, source, children);
        keys := keys - {key};
      }
    }

    /** A merge of mappings in progress: the tree so far and the objects it is stored in. */
    ghost predicate Merging(lower: Node, higher: Node, at: JsonPath, children: map<string, Tree>)
      reads this, lower, lower.repr, higher, higher.repr
    {
      && lower.Owned() && higher.Valid() && lower.repr !! higher.repr
      && Image(lower.shape) == Erase(Branch(children)) && WellFormed(Branch(children))
      && Records(entries, at, Some(Branch(children)))
    }

    method MergeKey(lower: Node, higher: Node, key: string, at: JsonPath, source: Source,
                    ghost children: map<string, Tree>)
      returns (ghost updated: map<string, Tree>)
      requires Merging(lower, higher, at, children) && key in higher.fields
      modifies this, lower.repr
      ensures Merging(lower, higher, at, updated) && fresh(lower.repr - old(lower.repr))
      ensures higher.shape == old(higher.shape) && SameOutside(entries, old(entries), at)
      ensures updated
              == children[key := Overlay(ChildOf(Some(Branch(children)), key), Image(higher.shape).fields[key], source)]
      decreases higher.shape, 0
    {
      ghost var child, patch := ChildOf(Some(Branch(children)), key), Image(higher.shape).fields[key];
      PartIsValid(higher, key);
      ChildToMerge(entries, at, children, key);
      MergeField(lower, key, higher.fields[key], at, source, child);
      ChildMerged(entries, old(entries), at, children, key, patch, source);
      updated := children[key := Overlay(child, patch, source)];
    }

    /** Merges one key and assigns the result in place. */
    method MergeField(lower: Node, key: string, higher: Value, at: JsonPath, source: Source, ghost tree: Option<Tree>)
      requires lower.Owned() && IsValid(higher) && lower.repr !! Footprint(higher)
      requires FieldOf(Some(Image(lower.shape)), key) == EraseOf(tree) && (tree.Some? ==> WellFormed(tree.value))
      requires Records(entries, at + [key], tree)
      modifies this, lower.repr
      ensures lower.Owned() && fresh(lower.repr - old(lower.repr))
      ensures Image(lower.shape)
              == Object(old(Image(lower.shape)).fields[key := Erase(Overlay(tree, old(View(higher)), source))])
      ensures Records(entries, at + [key], Some(Overlay(tree, old(View(higher)), source)))
      ensures SameOutside(entries, old(entries), at + [key])
      decreases ShapeOf(higher), 3
    {
      var child := if key in lower.fields then Some(lower.fields[key]) else None;
      ghost var parts, whole, written := lower.shape.parts, lower.repr, FootprintOf(child);
      if key in lower.fields {
        PartIsOwned(lower, key);
      }
      assert KeptParts(parts, key, whole, written);
      var merged := MergeValues(child, higher, at + [key], source, tree);
      forall k | k in parts && k != key
        ensures lower.fields[k] == Held(parts[k]) && Holds(parts[k]) && Nodes(parts[k]) !! Footprint(merged)
      {
        assert Nodes(parts[k]) <= whole && Nodes(parts[k]) !! written;
      }
      ImageWithPart(lower, parts, key, ShapeOf(merged));
      lower.SetField(key, merged);
    }
  }

  /** One contribution being resolved: its value and the sources of its leaves. */
  class Resolution {
    var value: Value
    const provenance: Provenance

    constructor (value: Value, provenance: Provenance)
      ensures this.value == value && this.provenance == provenance
    {
      this.value, this.provenance := value, provenance;
    }

    /** Value and map are those of the reference fold over the layers applied so far. */
    ghost predicate Holds(defaults: Json, layers: seq<Layer>)
      reads this, provenance, Reach(value)
    {
      && IsOwned(value) && View(value) == Erase(Fold(defaults, layers))
      && Records(provenance.entries, [], Some(Fold(defaults, layers)))
    }

    /** Applies one source's patch over everything below it. */
    method Apply(located: Located, ghost defaults: Json, ghost layers: seq<Layer>, ghost n: nat)
      requires n < |layers| && LayerOf(located) == layers[n] && IsValid(located.patch)
      requires Holds(defaults, layers[..n]) && Footprint(value) !! Footprint(located.patch)
      modifies this, provenance, Footprint(value)
      ensures Holds(defaults, layers[..n + 1])
      ensures fresh(Footprint(value) - old(Footprint(value)))
    {
      FoldWellFormed(defaults, layers[..n]);
      FoldNext(defaults, layers, n);
      ghost var tree := Some(Fold(defaults, layers[..n]));
      var merged := provenance.MergeValues(Some(value), located.patch, [], located.source, tree);
      label merged:
      value := merged;
      assert IsOwned(merged) && View(merged) == old@merged(View(merged));
    }
  }

  /** A validated patch with the file, profile, variable or override it comes from. */
  datatype Located = Located(patch: Value, source: Source)

  /** Every object a value can be read through. */
  ghost function Reach(value: Value): set<Node>
    reads if value.Mapping? then {value.node} else {}
  {
    if value.Mapping? then {value.node} + value.node.repr else {}
  }

  ghost function LayerOf(located: Located): Layer
    reads if located.patch.Mapping? then {located.patch.node} else {}
  {
    Layer(View(located.patch), located.source)
  }

  /** The patches are well formed, made of objects of the region, and stand for these layers. */
  ghost predicate StandFor(patches: seq<Located>, layers: seq<Layer>, region: set<Node>)
    reads region
  {
    && |patches| == |layers|
    && forall i :: 0 <= i < |patches| ==> StandsFor(patches[i], layers[i], region)
  }

  ghost predicate StandsFor(located: Located, layer: Layer, region: set<Node>)
    reads region
  {
    && (located.patch.Mapping? ==> located.patch.node in region && located.patch.node.repr <= region)
    && IsValid(located.patch) && LayerOf(located) == layer
  }

  /** Starts a contribution from a detached copy of its complete defaults. */
  method InitializeDefaults(defaults: Value) returns (resolution: Resolution)
    requires IsValid(defaults)
    ensures fresh(resolution) && fresh(resolution.provenance) && fresh(Footprint(resolution.value))
    ensures resolution.Holds(View(defaults), [])
  {
    var provenance := new Provenance();
    var value := CloneMutable(defaults);
    provenance.RecordLeaves(value, [], Source(Defaults, ""));
    AnnotateErases(View(defaults), Source(Defaults, ""));
    resolution := new Resolution(value, provenance);
  }

  /**
   * Files, profiles, environment and overrides, lowest precedence first. The method changes no
   * object it was given: the defaults and every patch keep their objects and their data, and
   * the resolved value shares none of them, however much the patches share among themselves.
   */
  method ResolveLayers(defaults: Value, patches: seq<Located>, ghost layers: seq<Layer>, ghost region: set<Node>)
    returns (resolution: Resolution)
    requires IsValid(defaults) && StandFor(patches, layers, region)
    ensures fresh(resolution) && fresh(resolution.provenance) && fresh(Footprint(resolution.value))
    ensures IsValid(defaults) && View(defaults) == old(View(defaults)) && StandFor(patches, layers, region)
    ensures IsOwned(resolution.value) && View(resolution.value) == Erase(Fold(View(defaults), layers))
    ensures forall p :: EntryAt(resolution.provenance.entries, p) == SourceAt(Some(Fold(View(defaults), layers)), p)
  {
    resolution := InitializeDefaults(defaults);
    ApplyPatches(resolution, patches, View(defaults), layers, region);
    RecordsAtRoot(resolution.provenance.entries, Fold(View(defaults), layers));
  }

  method ApplyPatches(resolution: Resolution, patches: seq<Located>, ghost defaults: Json, ghost layers: seq<Layer>,
                      ghost region: set<Node>)
    requires resolution.Holds(defaults, []) && StandFor(patches, layers, region)
    requires region !! Footprint(resolution.value)
    modifies resolution, resolution.provenance, Footprint(resolution.value)
    ensures resolution.Holds(defaults, layers) && StandFor(patches, layers, region)
    ensures fresh(Footprint(resolution.value) - old(Footprint(resolution.value)))
  {
    for i := 0 to |patches|
      invariant fresh(Footprint(resolution.value) - old(Footprint(resolution.value)))
      invariant StandFor(patches, layers, region) && resolution.Holds(defaults, layers[..i])
    {
      assert StandsFor(patches[i], layers[i], region);
      resolution.Apply(patches[i], defaults, layers, i);
    }
    assert layers[..|layers|] == layers;
  }
}
