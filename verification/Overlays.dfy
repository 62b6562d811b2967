/** Layered configuration, the reference: a fold of trees whose leaves carry their source. */
module Overlays {
  import opened Values
  import opened JsonPaths

  datatype SourceKind = Defaults | Global | Project | Profile | Environment | Override

  datatype Source = Source(kind: SourceKind, origin: string)

  /** A configuration value whose scalar and array leaves carry the layer that wrote them. */
  datatype Tree = Leaf(value: Json, source: Source) | Branch(children: map<string, Tree>)

  datatype Layer = Layer(patch: Json, source: Source)

  // ---------------------------------------------------------------- the reference fold

  function Annotate(value: Json, source: Source): Tree {
    match value
    case Object(fields) => Branch(map k | k in fields :: Annotate(fields[k], source))
    case _ => Leaf(value, source)
  }

  function Erase(tree: Tree): Json {
    match tree
    case Leaf(value, _) => value
    case Branch(children) => Object(map k | k in children :: Erase(children[k]))
  }

  function EraseOf(tree: Option<Tree>): Option<Json> {
    if tree.Some? then Some(Erase(tree.value)) else None
  }

  predicate WellFormed(tree: Tree) {
    match tree
    case Leaf(value, _) => !value.Object?
    case Branch(children) => forall k :: k in children ==> WellFormed(children[k])
  }

  /** Mappings merge key by key; anything else is replaced as a whole by the higher layer. */
  function Overlay(tree: Option<Tree>, patch: Json, source: Source): Tree
    decreases patch
  {
    if tree.Some? && tree.value.Branch? && patch.Object? then
      var below := tree.value.children;
      Branch(map k | k in below.Keys + patch.fields.Keys ::
               if k in patch.fields then Overlay(ChildOf(tree, k), patch.fields[k], source) else below[k])
    else Annotate(patch, source)
  }

  function ChildOf(tree: Option<Tree>, key: string): Option<Tree> {
    if tree.Some? && tree.value.Branch? && key in tree.value.children then Some(tree.value.children[key]) else None
  }

  /** The layer that owns the leaf at a path; none where the path does not end at a leaf. */
  function SourceAt(tree: Option<Tree>, path: JsonPath): Option<Source>
    decreases path
  {
    if tree.None? then None
    else if path == [] then (if tree.value.Leaf? then Some(tree.value.source) else None)
    else SourceAt(ChildOf(tree, path[0]), path[1..])
  }

  function Fold(defaults: Json, layers: seq<Layer>): Tree {
    if layers == [] then Annotate(defaults, Source(Defaults, ""))
    else
      var last := layers[|layers| - 1];
      Overlay(Some(Fold(defaults, layers[..|layers| - 1])), last.patch, last.source)
  }

  lemma {:induction false} AnnotateErases(value: Json, source: Source)
    ensures Erase(Annotate(value, source)) == value && WellFormed(Annotate(value, source))
  {
    if value.Object? {
      forall k | k in value.fields
        ensures Erase(Annotate(value.fields[k], source)) == value.fields[k]
                && WellFormed(Annotate(value.fields[k], source))
      {
        AnnotateErases(value.fields[k], source);
      }
    }
  }

  lemma {:induction false} OverlayWellFormed(tree: Option<Tree>, patch: Json, source: Source)
    requires tree.Some? ==> WellFormed(tree.value)
    ensures WellFormed(Overlay(tree, patch, source))
    decreases patch
  {
    if tree.Some? && tree.value.Branch? && patch.Object? {
      forall k | k in patch.fields ensures WellFormed(Overlay(ChildOf(tree, k), patch.fields[k], source)) {
        OverlayWellFormed(ChildOf(tree, k), patch.fields[k], source);
      }
    } else {
      AnnotateErases(patch, source);
    }
  }

  // ---------------------------------------------------------------- the provenance map

  function EntryAt(entries: map<JsonPath, Source>, path: JsonPath): Option<Source> {
    if path in entries then Some(entries[path]) else None
  }

  /** Below `at`, the map lists exactly the leaves of the tree with their sources. */
  ghost predicate Records(entries: map<JsonPath, Source>, at: JsonPath, tree: Option<Tree>) {
    forall q :: at <= q ==> EntryAt(entries, q) == SourceAt(tree, q[|at|..])
  }

  /** Outside `at`, nothing changed. */
  ghost predicate SameOutside(entries: map<JsonPath, Source>, before: map<JsonPath, Source>, at: JsonPath) {
    forall q :: !(at <= q) ==> EntryAt(entries, q) == EntryAt(before, q)
  }

  lemma RecordsChild(entries: map<JsonPath, Source>, at: JsonPath, tree: Option<Tree>, key: string)
    requires Records(entries, at, tree)
    ensures Records(entries, at + [key], ChildOf(tree, key))
  {
    forall q | at + [key] <= q ensures EntryAt(entries, q) == SourceAt(ChildOf(tree, key), q[|at| + 1..]) {
      assert at <= q && q[|at|..][0] == key && q[|at|..][1..] == q[|at| + 1..];
    }
  }

  lemma RecordsWithChild(entries: map<JsonPath, Source>, before: map<JsonPath, Source>, at: JsonPath,
                         children: map<string, Tree>, key: string, child: Tree)
    requires Records(before, at, Some(Branch(children)))
    requires Records(entries, at + [key], Some(child)) && SameOutside(entries, before, at + [key])
    ensures Records(entries, at, Some(Branch(children[key := child])))
    ensures SameOutside(entries, before, at)
  {
    var tree := Some(Branch(children[key := child]));
    forall q | at <= q ensures EntryAt(entries, q) == SourceAt(tree, q[|at|..]) {
      var rest := q[|at|..];
      if rest != [] && rest[0] == key {
        assert at + [key] <= q && rest[1..] == q[|at| + 1..];
      } else {
        assert !(at + [key] <= q);
        assert rest != [] ==> ChildOf(tree, rest[0]) == ChildOf(Some(Branch(children)), rest[0]);
      }
    }
    forall q | !(at <= q) ensures EntryAt(entries, q) == EntryAt(before, q) {
      assert !(at + [key] <= q);
    }
  }

  function FieldOf(value: Option<Json>, key: string): Option<Json> {
    if value.Some? && value.value.Object? && key in value.value.fields then Some(value.value.fields[key]) else None
  }

  /** The children of a merge that still has to handle the keys in `left`. */
  ghost function PartlyOverlaid(below: map<string, Tree>, fields: map<string, Json>, source: Source, left: set<string>)
    : map<string, Tree>
  {
    map k | k in below.Keys + (fields.Keys - left) ::
      if k in fields && k !in left then Overlay(ChildOf(Some(Branch(below)), k), fields[k], source) else below[k]
  }

  lemma PartlyOverlaidStep(below: map<string, Tree>, fields: map<string, Json>, source: Source, left: set<string>,
                           key: string)
    requires key in fields && key in left
    ensures var children := PartlyOverlaid(below, fields, source, left);
            var child := ChildOf(Some(Branch(below)), key);
            && ChildOf(Some(Branch(children)), key) == child
            && PartlyOverlaid(below, fields, source, left - {key})
               == children[key := Overlay(child, fields[key], source)]
  {
  }

  lemma PartlyOverlaidAll(below: map<string, Tree>, fields: map<string, Json>, source: Source)
    ensures PartlyOverlaid(below, fields, source, fields.Keys) == below
    ensures Branch(PartlyOverlaid(below, fields, source, {})) == Overlay(Some(Branch(below)), Object(fields), source)
  {
  }

  /** What a merge of one key may rely on. */
  lemma ChildToMerge(entries: map<JsonPath, Source>, at: JsonPath, children: map<string, Tree>, key: string)
    requires Records(entries, at, Some(Branch(children))) && WellFormed(Branch(children))
    ensures var child := ChildOf(Some(Branch(children)), key);
            && Records(entries, at + [key], child) && (child.Some? ==> WellFormed(child.value))
            && FieldOf(Some(Erase(Branch(children))), key) == EraseOf(child)
  {
    RecordsChild(entries, at, Some(Branch(children)), key);
  }

  /** What a merge of one key leaves behind. */
  lemma ChildMerged(entries: map<JsonPath, Source>, before: map<JsonPath, Source>, at: JsonPath,
                    children: map<string, Tree>, key: string, patch: Json, source: Source)
    requires Records(before, at, Some(Branch(children))) && WellFormed(Branch(children))
    requires SameOutside(entries, before, at + [key])
    requires Records(entries, at + [key], Some(Overlay(ChildOf(Some(Branch(children)), key), patch, source)))
    ensures var overlaid := Overlay(ChildOf(Some(Branch(children)), key), patch, source);
            && Records(entries, at, Some(Branch(children[key := overlaid]))) && SameOutside(entries, before, at)
            && WellFormed(Branch(children[key := overlaid]))
            && Erase(Branch(children[key := overlaid]))
               == Object(Erase(Branch(children)).fields[key := Erase(overlaid)])
  {
    var child := ChildOf(Some(Branch(children)), key);
    RecordsWithChild(entries, before, at, children, key, Overlay(child, patch, source));
    OverlayWellFormed(child, patch, source);
  }

  lemma {:induction false} FoldWellFormed(defaults: Json, layers: seq<Layer>)
    ensures WellFormed(Fold(defaults, layers))
  {
    if layers == [] {
      AnnotateErases(defaults, Source(Defaults, ""));
    } else {
      var last := layers[|layers| - 1];
      FoldWellFormed(defaults, layers[..|layers| - 1]);
      OverlayWellFormed(Some(Fold(defaults, layers[..|layers| - 1])), last.patch, last.source);
    }
  }

  lemma RecordsAtRoot(entries: map<JsonPath, Source>, tree: Tree)
    requires Records(entries, [], Some(tree))
    ensures forall p :: EntryAt(entries, p) == SourceAt(Some(tree), p)
  {
    assert forall p: JsonPath :: [] <= p && p[0..] == p;
  }

  lemma FoldNext(defaults: Json, layers: seq<Layer>, n: nat)
    requires n < |layers|
    ensures Fold(defaults, layers[..n + 1])
              == Overlay(Some(Fold(defaults, layers[..n])), layers[n].patch, layers[n].source)
  {
    assert layers[..n + 1][..n] == layers[..n];
  }

  // ---------------------------------------------------------------- what the fold means

  /** The patch replaces, or removes by replacing an ancestor, whatever was at the path. */
  predicate Writes(patch: Json, path: JsonPath)
    decreases path
  {
    !patch.Object? || path == [] || (path[0] in patch.fields && Writes(patch.fields[path[0]], path[1..]))
  }

  lemma {:induction false} AnnotateLeaves(value: Json, source: Source, path: JsonPath)
    ensures SourceAt(Some(Annotate(value, source)), path) == if HasLeaf(value, path) then Some(source) else None
    decreases path
  {
    if path != [] && value.Object? && path[0] in value.fields {
      AnnotateLeaves(value.fields[path[0]], source, path[1..]);
    }
  }

  /** One overlay: a leaf of the result comes from the patch, or was there and is not written over. */
  lemma {:induction false} OverlayLeaves(tree: Option<Tree>, patch: Json, source: Source, path: JsonPath)
    ensures SourceAt(Some(Overlay(tree, patch, source)), path)
            == if Writes(patch, path) then (if HasLeaf(patch, path) then Some(source) else None)
              else SourceAt(tree, path)
    decreases path
  {
    if tree.Some? && tree.value.Branch? && patch.Object? {
      if path != [] && path[0] in patch.fields {
        OverlayLeaves(ChildOf(tree, path[0]), patch.fields[path[0]], source, path[1..]);
      }
    } else {
      AnnotateLeaves(patch, source, path);
      if !Writes(patch, path) {
        NoLeafWithoutWrite(patch, path);
      }
    }
  }

  lemma {:induction false} NoLeafWithoutWrite(patch: Json, path: JsonPath)
    requires !Writes(patch, path)
    ensures !HasLeaf(patch, path)
    decreases path
  {
    if path[0] in patch.fields {
      NoLeafWithoutWrite(patch.fields[path[0]], path[1..]);
    }
  }

  /** The value at a leaf of the result is the patch's when the patch writes there, else the lower one. */
  lemma {:induction false} OverlayValue(tree: Option<Tree>, patch: Json, source: Source, path: JsonPath)
    requires SourceAt(Some(Overlay(tree, patch, source)), path).Some?
    ensures ValueAt(Erase(Overlay(tree, patch, source)), path)
            == if Writes(patch, path) then ValueAt(patch, path)
               else if tree.Some? then ValueAt(Erase(tree.value), path) else None
    decreases path
  {
    if tree.Some? && tree.value.Branch? && patch.Object? {
      if path != [] && path[0] in patch.fields {
        OverlayValue(ChildOf(tree, path[0]), patch.fields[path[0]], source, path[1..]);
      }
    } else {
      AnnotateErases(patch, source);
      AnnotateLeaves(patch, source, path);
      if !Writes(patch, path) {
        NoLeafWithoutWrite(patch, path);
      }
    }
  }

  /** At this path the tree shows exactly what one patch has there, under that patch's source. */
  ghost predicate DecidedBy(tree: Tree, path: JsonPath, patch: Json, source: Source) {
    var owner := SourceAt(Some(tree), path);
    && (owner.Some? <==> HasLeaf(patch, path))
    && (owner.Some? ==> owner == Some(source) && ValueAt(Erase(tree), path) == ValueAt(patch, path))
  }

  lemma OverlayDecides(tree: Tree, layer: Layer, path: JsonPath)
    ensures var overlaid := Overlay(Some(tree), layer.patch, layer.source);
            if Writes(layer.patch, path) then DecidedBy(overlaid, path, layer.patch, layer.source)
            else forall patch, source :: DecidedBy(tree, path, patch, source) ==>
              DecidedBy(overlaid, path, patch, source)
  {
    OverlayLeaves(Some(tree), layer.patch, layer.source, path);
    if SourceAt(Some(Overlay(Some(tree), layer.patch, layer.source)), path).Some? {
      OverlayValue(Some(tree), layer.patch, layer.source, path);
    }
  }

  ghost predicate LastWriter(layers: seq<Layer>, path: JsonPath, i: int) {
    && 0 <= i < |layers| && Writes(layers[i].patch, path)
    && forall j :: i < j < |layers| ==> !Writes(layers[j].patch, path)
  }

  ghost predicate NoWriter(layers: seq<Layer>, path: JsonPath) {
    forall i :: 0 <= i < |layers| ==> !Writes(layers[i].patch, path)
  }

  /**
   * The last writer wins: a path is a leaf of the resolved value exactly when the last layer
   * that writes there has a leaf there, and then that layer is its source and gives its value.
   * Where no layer writes, the defaults decide.
   */
  lemma {:induction false} LastWriterWins(defaults: Json, layers: seq<Layer>, path: JsonPath)
    ensures forall i :: LastWriter(layers, path, i) ==>
              DecidedBy(Fold(defaults, layers), path, layers[i].patch, layers[i].source)
    ensures NoWriter(layers, path) ==> DecidedBy(Fold(defaults, layers), path, defaults, Source(Defaults, ""))
  {
    if layers == [] {
      AnnotateErases(defaults, Source(Defaults, ""));
      AnnotateLeaves(defaults, Source(Defaults, ""), path);
    } else {
      var n := |layers| - 1;
      var init, last := layers[..n], layers[n];
      LastWriterWins(defaults, init, path);
      OverlayDecides(Fold(defaults, init), last, path);
      forall i | LastWriter(layers, path, i)
        ensures DecidedBy(Fold(defaults, layers), path, layers[i].patch, layers[i].source)
      {
        if i < n {
          assert !Writes(layers[n].patch, path);
          assert LastWriter(init, path, i) && init[i] == layers[i];
        }
      }
      if NoWriter(layers, path) {
        assert !Writes(layers[n].patch, path);
        assert NoWriter(init, path);
      }
    }
  }
}
