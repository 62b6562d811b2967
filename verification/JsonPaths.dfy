/** Paths into JSON trees, with the read-over-write laws the rest of the project relies on. */
module JsonPaths {
  import opened Values

  type JsonPath = seq<string>

  /** The value at a path; only objects are entered. */
  function ValueAt(doc: Json, path: JsonPath): Option<Json>
    decreases path
  {
    if path == [] then Some(doc)
    else if doc.Object? && path[0] in doc.fields then ValueAt(doc.fields[path[0]], path[1..])
    else None
  }

  /** The document has a scalar or array leaf at the path. */
  predicate HasLeaf(doc: Json, path: JsonPath) {
    ValueAt(doc, path).Some? && !ValueAt(doc, path).value.Object?
  }

  function FieldsOf(doc: Json): map<string, Json> {
    if doc.Object? then doc.fields else map[]
  }

  /** Assigns a path, creating missing parents and replacing parents that are not objects. */
  function SetAt(doc: Json, path: JsonPath, value: Json): Json
    decreases path
  {
    if path == [] then value
    else
      var fields := FieldsOf(doc);
      var child := if path[0] in fields then fields[path[0]] else Object(map[]);
      Object(fields[path[0] := SetAt(child, path[1..], value)])
  }

  /** Removes the last key of a path when it is there; parents stay. */
  function RemoveAt(doc: Json, path: JsonPath): Json
    decreases path
  {
    if path == [] || !doc.Object? || path[0] !in doc.fields then doc
    else if |path| == 1 then Object(doc.fields - {path[0]})
    else Object(doc.fields[path[0] := RemoveAt(doc.fields[path[0]], path[1..])])
  }

  /** No value other than an object stands in the way of creating the path. */
  predicate Insertable(doc: Json, path: JsonPath)
    decreases path
  {
    path == [] || (doc.Object? && (path[0] in doc.fields ==> Insertable(doc.fields[path[0]], path[1..])))
  }

  /** On the way to the path there are only objects, or nothing yet. */
  ghost predicate Reachable(doc: Json, path: JsonPath) {
    forall above :: above < path ==> Enterable(doc, above)
  }

  ghost predicate Enterable(doc: Json, path: JsonPath) {
    ValueAt(doc, path).Some? ==> ValueAt(doc, path).value.Object?
  }

  lemma {:induction false} InsertableIff(doc: Json, path: JsonPath)
    ensures Insertable(doc, path) <==> Reachable(doc, path)
    decreases path
  {
    if path != [] {
      var root: JsonPath := [];
      assert Enterable(doc, root) <==> doc.Object?;
      assert root < path;
      if doc.Object? && path[0] in doc.fields {
        InsertableIff(doc.fields[path[0]], path[1..]);
        ReachableBelow(doc, path);
      }
    }
  }

  lemma ReachableBelow(doc: Json, path: JsonPath)
    requires path != [] && doc.Object? && path[0] in doc.fields
    ensures Reachable(doc, path) <==> Reachable(doc.fields[path[0]], path[1..])
  {
    var child := doc.fields[path[0]];
    if Reachable(doc, path) {
      forall above: JsonPath | above < path[1..] ensures Enterable(child, above) {
        var longer := [path[0]] + above;
        assert longer[1..] == above && longer < path;
        assert Enterable(doc, longer);
      }
    }
    if Reachable(child, path[1..]) {
      forall above | above < path ensures Enterable(doc, above) {
        assert above != [] ==> above[0] == path[0] && above[1..] < path[1..] && Enterable(child, above[1..]);
      }
    }
  }

  lemma {:induction false} PresentIsReachable(doc: Json, path: JsonPath)
    requires ValueAt(doc, path).Some?
    ensures Insertable(doc, path) && Reachable(doc, path)
    decreases path
  {
    if path != [] {
      PresentIsReachable(doc.fields[path[0]], path[1..]);
    }
    InsertableIff(doc, path);
  }

  ghost predicate Apart(left: JsonPath, right: JsonPath) {
    !(left <= right) && !(right <= left)
  }

  lemma {:induction false} SetThenGet(doc: Json, path: JsonPath, value: Json)
    ensures ValueAt(SetAt(doc, path, value), path) == Some(value)
    decreases path
  {
    if path != [] {
      var fields := FieldsOf(doc);
      var child := if path[0] in fields then fields[path[0]] else Object(map[]);
      SetThenGet(child, path[1..], value);
    }
  }

  lemma {:induction false} SetFrame(doc: Json, path: JsonPath, value: Json, other: JsonPath)
    requires Apart(path, other)
    ensures ValueAt(SetAt(doc, path, value), other) == ValueAt(doc, other)
    decreases path
  {
    if path[0] == other[0] {
      var fields := FieldsOf(doc);
      var child := if path[0] in fields then fields[path[0]] else Object(map[]);
      TailsApart(path, other);
      SetFrame(child, path[1..], value, other[1..]);
      assert path[0] !in fields ==> ValueAt(child, other[1..]).None?;
    }
  }

  lemma {:induction false} RemoveThenGet(doc: Json, path: JsonPath)
    requires path != []
    ensures ValueAt(RemoveAt(doc, path), path) == None
    decreases path
  {
    if |path| > 1 && doc.Object? && path[0] in doc.fields {
      RemoveThenGet(doc.fields[path[0]], path[1..]);
    }
  }

  lemma {:induction false} RemoveFrame(doc: Json, path: JsonPath, other: JsonPath)
    requires Apart(path, other)
    ensures ValueAt(RemoveAt(doc, path), other) == ValueAt(doc, other)
    decreases path
  {
    if doc.Object? && path[0] in doc.fields && path[0] == other[0] {
      TailsApart(path, other);
      assert |path| > 1;
      RemoveFrame(doc.fields[path[0]], path[1..], other[1..]);
    }
  }

  lemma TailsApart(left: JsonPath, right: JsonPath)
    requires Apart(left, right) && left[0] == right[0]
    ensures Apart(left[1..], right[1..])
  {
    assert left == [left[0]] + left[1..] && right == [right[0]] + right[1..];
  }

  lemma {:induction false} ValueAtConcat(doc: Json, left: JsonPath, right: JsonPath)
    ensures ValueAt(doc, left + right) ==
            if ValueAt(doc, left).Some? then ValueAt(ValueAt(doc, left).value, right) else None
    decreases left
  {
    if left == [] {
      assert left + right == right;
    } else {
      assert (left + right)[1..] == left[1..] + right;
      if doc.Object? && left[0] in doc.fields {
        ValueAtConcat(doc.fields[left[0]], left[1..], right);
      }
    }
  }
}
