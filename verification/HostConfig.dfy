/** Entry-level reads and edits of a host configuration document. */
module HostConfig {
  import opened Values
  import opened Files
  import opened JsonPaths

  datatype Change = Change(part: Unit, state: Option<Json>)

  // ---------------------------------------------------------------- array identities

  function IndexOf(text: string, c: char): (i: int)
    ensures -1 <= i < |text|
  {
    if text == [] then -1
    else if text[0] == c then 0
    else
      var rest := IndexOf(text[1..], c);
      if rest == -1 then -1 else rest + 1
  }

  function LastIndexOf(text: string, c: char): (i: int)
    ensures -1 <= i < |text|
  {
    if text == [] then -1
    else if text[|text| - 1] == c then |text| - 1
    else LastIndexOf(text[..|text| - 1], c)
  }

  /** The name in front of the version; the `@` of a scope is not a version separator. */
  function PackageOf(specifier: string): string {
    var separator := LastIndexOf(specifier, '@');
    var scopedBoundary := if specifier != [] && specifier[0] == '@' then IndexOf(specifier, '/') else 0;
    if separator > scopedBoundary then specifier[..separator] else specifier
  }

  /** The package identity of an array value: its name without `npm:` and without a version. */
  function ArrayEntryIdentity(value: Json): Option<string> {
    if !value.Text? then None
    else
      var normalized := if "npm:" <= value.text then value.text[4..] else value.text;
      if PackageOf(normalized) != [] then Some("npm:" + PackageOf(normalized)) else None
  }

  lemma {:induction false} FirstIndex(text: string, c: char)
    ensures var i := IndexOf(text, c);
            if i == -1 then c !in text else text[i] == c && c !in text[..i]
  {
    if text != [] && text[0] != c {
      FirstIndex(text[1..], c);
      assert text == [text[0]] + text[1..];
      var rest := IndexOf(text[1..], c);
      assert rest != -1 ==> text[..rest + 1] == [text[0]] + text[1..][..rest];
    }
  }

  lemma {:induction false} LastIndex(text: string, c: char)
    ensures var i := LastIndexOf(text, c);
            if i == -1 then c !in text else text[i] == c && c !in text[i + 1..]
  {
    if text != [] && text[|text| - 1] != c {
      var n := |text| - 1;
      LastIndex(text[..n], c);
      assert text == text[..n] + [text[n]];
      var i := LastIndexOf(text[..n], c);
      assert i != -1 ==> text[i + 1..] == text[..n][i + 1..] + [text[n]];
    }
  }

  /** The last `@`, unless it only opens the text or belongs to its scope. */
  ghost predicate SeparatesVersion(text: string, k: int) {
    && 0 <= k < |text| && text[k] == '@' && '@' !in text[k + 1..]
    && if text[0] == '@' then '/' !in text || '/' in text[..k] else k > 0
  }

  ghost predicate HasName(text: string, name: string) {
    if exists k :: SeparatesVersion(text, k) then exists k :: SeparatesVersion(text, k) && name == text[..k]
    else name == text
  }

  lemma StandsBefore(text: string, j: nat, k: nat)
    requires j < k <= |text|
    ensures text[j] in text[..k]
  {
    assert text[..k][j] == text[j];
  }

  lemma SlashBefore(text: string, k: nat)
    requires k < |text| && '/' in text
    ensures '/' in text[..k] <==> IndexOf(text, '/') < k
  {
    FirstIndex(text, '/');
    var slash := IndexOf(text, '/');
    if slash < k {
      StandsBefore(text, slash, k);
    } else {
      assert text[..slash][..k] == text[..k];
      assert forall c :: c in text[..k] ==> c in text[..slash];
    }
  }

  lemma OnlySeparator(text: string, k: int)
    requires SeparatesVersion(text, k)
    ensures k == LastIndexOf(text, '@')
  {
    LastIndex(text, '@');
  }

  lemma PackageOfIs(text: string)
    ensures HasName(text, PackageOf(text))
    ensures forall name :: HasName(text, name) ==> name == PackageOf(text)
  {
    FirstIndex(text, '/');
    LastIndex(text, '@');
    var last := LastIndexOf(text, '@');
    forall k | SeparatesVersion(text, k) ensures k == last {
      OnlySeparator(text, k);
    }
    if last != -1 && '/' in text {
      SlashBefore(text, last);
    }
    assert SeparatesVersion(text, last)
           <==> last > if text != [] && text[0] == '@' then IndexOf(text, '/') else 0;
  }

  /** For every text: the identity is the name after an optional `npm:`, filed under `npm:`; an empty name has none. */
  lemma IdentityIs(text: string, bare: string, name: string)
    requires text == "npm:" + bare || (text == bare && !("npm:" <= bare))
    requires HasName(bare, name)
    ensures ArrayEntryIdentity(Text(text)) == if name == "" then None else Some("npm:" + name)
  {
    assert ("npm:" + bare)[4..] == bare;
    PackageOfIs(bare);
  }

  ghost predicate PackageName(name: string) {
    && name != []
    && if name[0] == '@' then '/' in name && '@' !in name[1..] else '@' !in name
  }

  /**
   * A package name, bare or followed by a version without `@`, is recognized as that package,
   * whether the host writes it with the `npm:` prefix or without.
   */
  lemma VersionedIdentity(name: string, version: string)
    requires PackageName(name) && '@' !in version
    ensures ArrayEntryIdentity(Text("npm:" + (name + "@" + version))) == Some("npm:" + name)
    ensures ArrayEntryIdentity(Text("npm:" + name)) == Some("npm:" + name)
    ensures !("npm:" <= name) ==> ArrayEntryIdentity(Text(name + "@" + version)) == Some("npm:" + name)
    ensures !("npm:" <= name) ==> ArrayEntryIdentity(Text(name)) == Some("npm:" + name)
  {
    var full := name + "@" + version;
    PackageOfVersioned(name, version);
    assert ("npm:" + full)[4..] == full && ("npm:" + name)[4..] == name;
    VersionAddsNoPrefix(name, version);
  }

  lemma VersionAddsNoPrefix(name: string, version: string)
    ensures "npm:" <= name + "@" + version ==> "npm:" <= name
  {
    var full := name + "@" + version;
    if "npm:" <= full {
      assert full[|name|] == '@';
      assert full[0] == 'n' && full[1] == 'p' && full[2] == 'm' && full[3] == ':';
      assert full[..4] == name[..4];
    }
  }

  lemma PackageOfVersioned(name: string, version: string)
    requires PackageName(name) && '@' !in version
    ensures PackageOf(name + "@" + version) == name && PackageOf(name) == name
  {
    var full := name + "@" + version;
    assert full[0] == name[0];
    assert full[..|name|] == name;
    assert LastIndexOf(full, '@') == |name| by {
      assert full[|name| + 1..] == version;
      LastIndexIs(full, '@', |name|);
    }
    if name[0] == '@' {
      assert IndexOf(full, '/') == IndexOf(name, '/') by {
        assert full == name + ("@" + version);
        FirstIndexIs(name, "@" + version, '/');
      }
      LastIndexIs(name, '@', 0);
      FirstIndexIs(name, "", '/');
    } else {
      NoLastIndex(name, '@');
    }
  }

  lemma {:induction false} LastIndexIs(text: string, c: char, i: nat)
    requires i < |text| && text[i] == c && c !in text[i + 1..]
    ensures LastIndexOf(text, c) == i
  {
    var n := |text| - 1;
    if i < n {
      assert text[i + 1..][n - i - 1] == text[n];
      assert text[i + 1..] == text[..n][i + 1..] + [text[n]];
      LastIndexIs(text[..n], c, i);
    }
  }

  lemma {:induction false} NoLastIndex(text: string, c: char)
    requires c !in text
    ensures LastIndexOf(text, c) == -1
  {
    if text != [] {
      NoLastIndex(text[..|text| - 1], c);
    }
  }

  lemma {:induction false} FirstIndexIs(text: string, more: string, c: char)
    requires c in text
    ensures 0 <= IndexOf(text + more, c) == IndexOf(text, c)
  {
    if text[0] != c {
      assert (text + more)[1..] == text[1..] + more;
      assert text == [text[0]] + text[1..];
      FirstIndexIs(text[1..], more, c);
    }
  }

  // ---------------------------------------------------------------- entries of one array

  function FindEntry(items: seq<Json>, identity: string): Option<Json> {
    if items == [] then None
    else if ArrayEntryIdentity(items[0]) == Some(identity) then Some(items[0])
    else FindEntry(items[1..], identity)
  }

  function CountEntry(items: seq<Json>, identity: string): nat {
    if items == [] then 0
    else (if ArrayEntryIdentity(items[0]) == Some(identity) then 1 else 0) + CountEntry(items[1..], identity)
  }

  function Listed(state: Option<Json>): seq<Json> {
    if state.Some? then [state.value] else []
  }

  /** Replaces or drops the first entry with the identity, or appends one. */
  function WriteEntry(items: seq<Json>, identity: string, state: Option<Json>): seq<Json> {
    if items == [] then Listed(state)
    else if ArrayEntryIdentity(items[0]) == Some(identity) then Listed(state) + items[1..]
    else [items[0]] + WriteEntry(items[1..], identity, state)
  }

  ghost predicate NoneBefore(items: seq<Json>, identity: string, index: nat) {
    forall k :: 0 <= k < index && k < |items| ==> ArrayEntryIdentity(items[k]) != Some(identity)
  }

  /** The first entry with the identity, or the end if there is none. */
  ghost predicate Place(items: seq<Json>, identity: string, i: nat) {
    && i <= |items| && NoneBefore(items, identity, i)
    && (i < |items| ==> ArrayEntryIdentity(items[i]) == Some(identity))
  }

  function ItemsAfter(items: seq<Json>, i: nat): seq<Json> {
    if i < |items| then items[i + 1..] else []
  }

  lemma {:induction false} HasPlace(items: seq<Json>, identity: string) returns (i: nat)
    ensures Place(items, identity, i)
  {
    i := 0;
    while i < |items| && ArrayEntryIdentity(items[i]) != Some(identity)
      invariant i <= |items| && NoneBefore(items, identity, i)
    {
      i := i + 1;
    }
  }

  /** Only that place is written. */
  ghost predicate WritesAt(items: seq<Json>, state: Option<Json>, i: nat, written: seq<Json>)
    requires i <= |items|
  {
    written == items[..i] + Listed(state) + ItemsAfter(items, i)
  }

  lemma {:induction false} WriteEntryAt(items: seq<Json>, identity: string, state: Option<Json>, i: nat)
    requires Place(items, identity, i)
    ensures WritesAt(items, state, i, WriteEntry(items, identity, state))
  {
    if i > 0 {
      assert forall k :: 0 <= k < |items| - 1 ==> items[1..][k] == items[k + 1];
      WriteEntryAt(items[1..], identity, state, i - 1);
      LaterPlace(items, Listed(state), i);
    }
  }

  lemma LaterPlace(items: seq<Json>, listed: seq<Json>, i: nat)
    requires 0 < i <= |items|
    ensures [items[0]] + (items[1..][..i - 1] + listed + ItemsAfter(items[1..], i - 1))
         == items[..i] + listed + ItemsAfter(items, i)
  {
    assert items[..i] == [items[0]] + items[1..][..i - 1];
    assert ItemsAfter(items[1..], i - 1) == ItemsAfter(items, i);
  }

  ghost predicate OnePlaceWritten(items: seq<Json>, identity: string, state: Option<Json>, written: seq<Json>) {
    exists i: nat :: Place(items, identity, i) && WritesAt(items, state, i, written)
  }

  lemma OnePlace(items: seq<Json>, identity: string, state: Option<Json>)
    ensures OnePlaceWritten(items, identity, state, WriteEntry(items, identity, state))
  {
    var i := HasPlace(items, identity);
    WriteEntryAt(items, identity, state, i);
  }

  /** A written entry reads back exactly when the value carries the identity it is filed under. */
  lemma {:induction false} WrittenEntryReadsBack(items: seq<Json>, identity: string, value: Json)
    ensures FindEntry(WriteEntry(items, identity, Some(value)), identity) == Some(value)
            <==> ArrayEntryIdentity(value) == Some(identity)
    ensures ArrayEntryIdentity(value) == Some(identity) ==>
              CountEntry(WriteEntry(items, identity, Some(value)), identity)
              == if CountEntry(items, identity) == 0 then 1 else CountEntry(items, identity)
  {
    if items == [] {
      assert [value][1..] == [];
    } else if ArrayEntryIdentity(items[0]) == Some(identity) {
      assert ([value] + items[1..])[1..] == items[1..];
      FoundHasIdentity(items[1..], identity);
    } else {
      assert WriteEntry(items, identity, Some(value))[1..] == WriteEntry(items[1..], identity, Some(value));
      WrittenEntryReadsBack(items[1..], identity, value);
    }
  }

  lemma {:induction false} FoundHasIdentity(items: seq<Json>, identity: string)
    ensures FindEntry(items, identity).Some? ==>
              ArrayEntryIdentity(FindEntry(items, identity).value) == Some(identity)
    ensures FindEntry(items, identity).None? <==> CountEntry(items, identity) == 0
  {
    if items != [] {
      FoundHasIdentity(items[1..], identity);
    }
  }

  /** A dropped entry is gone exactly when it was the only one with its identity. */
  lemma {:induction false} DroppedEntryIsGone(items: seq<Json>, identity: string)
    ensures FindEntry(WriteEntry(items, identity, None), identity) == None <==> CountEntry(items, identity) <= 1
    ensures CountEntry(WriteEntry(items, identity, None), identity)
            == if CountEntry(items, identity) == 0 then 0 else CountEntry(items, identity) - 1
  {
    FoundHasIdentity(WriteEntry(items, identity, None), identity);
    if items != [] {
      if ArrayEntryIdentity(items[0]) == Some(identity) {
        assert WriteEntry(items, identity, None) == items[1..];
      } else {
        assert WriteEntry(items, identity, None)[1..] == WriteEntry(items[1..], identity, None);
        DroppedEntryIsGone(items[1..], identity);
      }
    }
  }

  /** Writing one entry keeps every other entry, in order. */
  lemma {:induction false} OtherEntriesKept(items: seq<Json>, identity: string, state: Option<Json>)
    requires state.Some? ==> ArrayEntryIdentity(state.value) == Some(identity)
    ensures OnePlaceWritten(items, identity, state, WriteEntry(items, identity, state))
    ensures forall other :: other != identity ==>
              FindEntry(WriteEntry(items, identity, state), other) == FindEntry(items, other)
    ensures forall other :: other != identity ==>
              CountEntry(WriteEntry(items, identity, state), other) == CountEntry(items, other)
  {
    var written := WriteEntry(items, identity, state);
    OnePlace(items, identity, state);
    if items == [] {
    } else if ArrayEntryIdentity(items[0]) == Some(identity) {
      assert state.Some? ==> written[1..] == items[1..];
      assert state.None? ==> written == items[1..];
    } else {
      assert written[1..] == WriteEntry(items[1..], identity, state);
      OtherEntriesKept(items[1..], identity, state);
    }
  }

  lemma {:induction false} WriteEntryUnchanged(items: seq<Json>, identity: string)
    ensures WriteEntry(items, identity, FindEntry(items, identity)) == items
  {
    if items != [] && ArrayEntryIdentity(items[0]) != Some(identity) {
      WriteEntryUnchanged(items[1..], identity);
    }
  }

  // ---------------------------------------------------------------- units of one document

  /** Reads one unit; a pointer that leads to the wrong kind of value is an error. */
  function ReadUnit(doc: Json, part: Unit): Result<Option<Json>, string> {
    match part
    case WholeFile => Err("A file unit cannot be read from host configuration.")
    case ArrayEntry(pointer, identity) => ReadArray(ValueAt(doc, pointer), identity)
    case ObjectEntry(pointer, key) => ReadObject(ValueAt(doc, pointer), key)
  }

  function ReadArray(parent: Option<Json>, identity: string): Result<Option<Json>, string> {
    if parent.None? then Ok(None)
    else if !parent.value.Array? then Err("Host configuration pointer is not an array.")
    else Ok(FindEntry(parent.value.items, identity))
  }

  function ReadObject(parent: Option<Json>, key: string): Result<Option<Json>, string> {
    if parent.None? then Ok(None)
    else if !parent.value.Object? then Err("Host configuration pointer is not an object.")
    else if key in parent.value.fields then Ok(Some(parent.value.fields[key]))
    else Ok(None)
  }

  /** A structured edit; it fails where something other than an object stands in the way. */
  function Replace(doc: Json, path: JsonPath, value: Json): Result<Json, string> {
    if Insertable(doc, path) then Ok(SetAt(doc, path, value)) else Err("Can not add to this parent.")
  }

  function ItemsOf(parent: Option<Json>): seq<Json> {
    if parent.Some? && parent.value.Array? then parent.value.items else []
  }

  /** The effect of one change, as the unit sees it. */
  ghost function WriteUnit(doc: Json, change: Change): Result<Json, string> {
    match change.part
    case WholeFile => Err("A file unit cannot edit host configuration.")
    case ArrayEntry(pointer, identity) =>
      var parent := ValueAt(doc, pointer);
      if parent.Some? && !parent.value.Array? then Err("Host configuration pointer is not an array.")
      else
        var values := WriteEntry(ItemsOf(parent), identity, change.state);
        if values == ItemsOf(parent) then Ok(doc) else Replace(doc, pointer, Array(values))
    case ObjectEntry(pointer, key) =>
      var read := ReadObject(ValueAt(doc, pointer), key);
      if read.Err? then Err(read.error)
      else if read.value == change.state then Ok(doc)
      else if change.state.Some? then Replace(doc, pointer + [key], change.state.value)
      else Ok(RemoveAt(doc, pointer + [key]))
  }

  ghost function WriteUnits(doc: Json, changes: seq<Change>): Result<Json, string> {
    if changes == [] then Ok(doc)
    else
      var earlier := WriteUnits(doc, changes[..|changes| - 1]);
      if earlier.Err? then earlier else WriteUnit(earlier.value, changes[|changes| - 1])
  }

  /** The first entry with the identity, or -1. */
  method FindIndex(items: seq<Json>, identity: string) returns (index: int)
    ensures -1 <= index < |items|
    ensures index == -1 ==> NoneBefore(items, identity, |items|)
    ensures index != -1 ==>
              NoneBefore(items, identity, index) && ArrayEntryIdentity(items[index]) == Some(identity)
  {
    index := 0;
    while index < |items|
      invariant 0 <= index <= |items|
      invariant NoneBefore(items, identity, index)
    {
      if ArrayEntryIdentity(items[index]) == Some(identity) {
        return;
      }
      index := index + 1;
    }
    index := -1;
  }

  lemma WritesAtIs(items: seq<Json>, state: Option<Json>, i: nat, written: seq<Json>)
    requires i <= |items| && WritesAt(items, state, i, written)
    ensures i == |items| ==> written == items + Listed(state)
    ensures i < |items| && state.Some? ==> written == items[i := state.value]
    ensures i < |items| && state.None? ==> written == items[..i] + items[i + 1..]
  {
  }

  lemma EditIs(items: seq<Json>, identity: string, state: Option<Json>, i: nat)
    requires Place(items, identity, i)
    ensures OnePlaceWritten(items, identity, state, WriteEntry(items, identity, state))
    ensures i == |items| ==> WriteEntry(items, identity, state) == items + Listed(state)
    ensures i < |items| && state.Some? ==> WriteEntry(items, identity, state) == items[i := state.value]
    ensures i < |items| && state.None? ==> WriteEntry(items, identity, state) == items[..i] + items[i + 1..]
  {
    WriteEntryAt(items, identity, state, i);
    WritesAtIs(items, state, i, WriteEntry(items, identity, state));
  }

  /** Pushes, replaces or splices one entry of a copied array. */
  method EditEntries(items: seq<Json>, identity: string, state: Option<Json>) returns (values: seq<Json>)
    ensures values == WriteEntry(items, identity, state)
    ensures OnePlaceWritten(items, identity, state, values)
  {
    values := items;
    var index := FindIndex(values, identity);
    EditIs(items, identity, state, if index == -1 then |items| else index);
    if index == -1 {
      if state.Some? {
        values := values + [state.value];
      }
    } else {
      if state.Some? {
        values := values[index := state.value];
      } else {
        values := values[..index] + values[index + 1..];
      }
    }
  }

  /** Applies one entry-level state to the parsed document. */
  method EditDocument(content: Json, change: Change) returns (edited: Result<Json, string>)
    ensures edited.Ok? <==> WriteUnit(content, change).Ok?
    ensures edited.Ok? ==> edited == WriteUnit(content, change)
  {
    match change.part {
      case WholeFile =>
        return Err("A file unit cannot edit host configuration.");
      case ArrayEntry(pointer, identity) =>
        var parent := ValueAt(content, pointer);
        if parent.Some? && !parent.value.Array? {
          return Err("Host configuration pointer is not an array.");
        }
        var values := EditEntries(ItemsOf(parent), identity, change.state);
        var changed := if parent.None? then |values| > 0 else values != parent.value.items;
        return if changed then Replace(content, pointer, Array(values)) else Ok(content);
      case ObjectEntry(pointer, key) =>
        var parent := ValueAt(content, pointer);
        if parent.Some? && !parent.value.Object? {
          return Err("Host configuration pointer is not an object.");
        }
        if change.state.Some? {
          if parent.None? || key !in parent.value.fields || parent.value.fields[key] != change.state.value {
            return Replace(content, pointer + [key], change.state.value);
          }
        } else if parent.Some? && key in parent.value.fields {
          return Ok(RemoveAt(content, pointer + [key]));
        }
        return Ok(content);
    }
  }

  /** Applies entry-level states one after the other to a copy of the document. */
  method ApplyHostUnitStates(current: Option<Json>, changes: seq<Change>) returns (result: Result<Json, string>)
    ensures result.Ok? <==> Base(current).Ok? && WriteUnits(Base(current).value, changes).Ok?
    ensures result.Ok? ==> result == WriteUnits(Base(current).value, changes)
  {
    var content := if current.Some? then current.value else Object(map[]);
    if !content.Object? {
      return Err("Host configuration must be a JSON object.");
    }
    for i := 0 to |changes|
      invariant WriteUnits(Base(current).value, changes[..i]) == Ok(content)
    {
      assert changes[..i + 1][..i] == changes[..i];
      var edited := EditDocument(content, changes[i]);
      if edited.Err? {
        FailureSticks(Base(current).value, changes, i + 1);
        return edited;
      }
      content := edited.value;
    }
    assert changes[..|changes|] == changes;
    result := Ok(content);
  }

  /** The document edits start from: a missing file counts as an empty object. */
  function Base(current: Option<Json>): Result<Json, string> {
    if current.None? then Ok(Object(map[]))
    else if current.value.Object? then Ok(current.value)
    else Err("Host configuration must be a JSON object.")
  }

  lemma {:induction false} FailureSticks(doc: Json, changes: seq<Change>, n: nat)
    requires n <= |changes| && WriteUnits(doc, changes[..n]).Err?
    ensures WriteUnits(doc, changes).Err?
    decreases |changes|
  {
    if n == |changes| {
      assert changes[..n] == changes;
    } else {
      var init := changes[..|changes| - 1];
      assert init[..n] == changes[..n];
      FailureSticks(doc, init, n);
    }
  }

  // ---------------------------------------------------------------- independence

  /** Where a unit lives in the document: its own entry, or the array that holds it. */
  function Address(part: Unit): JsonPath {
    match part
    case WholeFile => []
    case ArrayEntry(pointer, identity) => pointer
    case ObjectEntry(pointer, key) => pointer + [key]
  }

  /** Different entries of one array, or addresses neither of which leads to the other. */
  ghost predicate Independent(left: Unit, right: Unit) {
    || Apart(Address(left), Address(right))
    || (left.ArrayEntry? && right.ArrayEntry? && left.pointer == right.pointer && left.identity != right.identity)
  }

  /** The value of an array entry must carry the identity it is filed under. */
  predicate Sound(change: Change) {
    change.part.ArrayEntry? && change.state.Some? ==>
      ArrayEntryIdentity(change.state.value) == Some(change.part.identity)
  }

  /** No second entry of the array hides behind the one a unit names. */
  predicate Unambiguous(doc: Json, part: Unit) {
    part.ArrayEntry? ==> CountEntry(ItemsOf(ValueAt(doc, part.pointer)), part.identity) <= 1
  }

  lemma {:induction false} SetKeepsEntry(doc: Json, path: JsonPath, value: Json, pointer: JsonPath, key: string)
    requires Insertable(doc, path) && Apart(path, pointer + [key])
    ensures ReadObject(ValueAt(SetAt(doc, path, value), pointer), key) == ReadObject(ValueAt(doc, pointer), key)
    decreases pointer
  {
    if pointer == [] {
      assert pointer + [key] == [key];
      assert path[0] == key ==> [key] <= path;
    } else if path[0] == pointer[0] {
      var fields := FieldsOf(doc);
      var child := if path[0] in fields then fields[path[0]] else Object(map[]);
      assert (pointer + [key])[1..] == pointer[1..] + [key];
      TailsApart(path, pointer + [key]);
      SetKeepsEntry(child, path[1..], value, pointer[1..], key);
    }
  }

  lemma {:induction false} RemoveKeepsEntry(doc: Json, path: JsonPath, pointer: JsonPath, key: string)
    requires Apart(path, pointer + [key])
    ensures ReadObject(ValueAt(RemoveAt(doc, path), pointer), key) == ReadObject(ValueAt(doc, pointer), key)
    decreases pointer
  {
    if pointer == [] {
      assert pointer + [key] == [key];
      assert path[0] == key ==> [key] <= path;
    } else if path[0] == pointer[0] && doc.Object? && path[0] in doc.fields {
      assert (pointer + [key])[1..] == pointer[1..] + [key];
      TailsApart(path, pointer + [key]);
      assert |path| > 1;
      RemoveKeepsEntry(doc.fields[path[0]], path[1..], pointer[1..], key);
    }
  }

  /** A change makes its own unit read as the planned state. */
  lemma WriteReadsBack(doc: Json, change: Change)
    requires doc.Object? && WriteUnit(doc, change).Ok? && Sound(change) && Unambiguous(doc, change.part)
    ensures ReadUnit(WriteUnit(doc, change).value, change.part) == Ok(change.state)
    ensures Unambiguous(WriteUnit(doc, change).value, change.part)
    ensures WriteUnit(doc, change).value.Object?
  {
    var part, result := change.part, WriteUnit(doc, change).value;
    match part {
      case ArrayEntry(pointer, identity) =>
        var items := ItemsOf(ValueAt(doc, pointer));
        var values := WriteEntry(items, identity, change.state);
        if change.state.Some? {
          WrittenEntryReadsBack(items, identity, change.state.value);
        } else {
          DroppedEntryIsGone(items, identity);
        }
        if values != items {
          assert pointer != [] || ValueAt(doc, pointer) == Some(doc);
          SetThenGet(doc, pointer, Array(values));
        }
      case ObjectEntry(pointer, key) =>
        var path := pointer + [key];
        ValueAtConcat(doc, pointer, [key]);
        ValueAtConcat(result, pointer, [key]);
        if change.state.Some? {
          SetThenGet(doc, path, change.state.value);
          EntryOf(result, pointer, key);
        } else {
          RemoveThenGet(doc, path);
          if ReadObject(ValueAt(doc, pointer), key) != Ok(None) {
            RemoveKeepsParent(doc, pointer, key);
          }
        }
    }
  }

  lemma EntryOf(doc: Json, pointer: JsonPath, key: string)
    requires ValueAt(doc, pointer + [key]).Some?
    ensures ReadObject(ValueAt(doc, pointer), key) == Ok(ValueAt(doc, pointer + [key]))
  {
    ValueAtConcat(doc, pointer, [key]);
  }

  lemma {:induction false} RemoveKeepsParent(doc: Json, pointer: JsonPath, key: string)
    requires ValueAt(doc, pointer).Some? && ValueAt(doc, pointer).value.Object?
    ensures ReadObject(ValueAt(RemoveAt(doc, pointer + [key]), pointer), key) == Ok(None)
    decreases pointer
  {
    if pointer != [] {
      assert (pointer + [key])[1..] == pointer[1..] + [key];
      RemoveKeepsParent(doc.fields[pointer[0]], pointer[1..], key);
    }
  }

  /** A change leaves every independent unit, present or absent, readable or not, as it was. */
  lemma WriteFrame(doc: Json, change: Change, other: Unit)
    requires doc.Object? && WriteUnit(doc, change).Ok? && Sound(change)
    requires !other.WholeFile? && Independent(change.part, other)
    ensures ReadUnit(WriteUnit(doc, change).value, other) == ReadUnit(doc, other)
    ensures Unambiguous(doc, other) ==> Unambiguous(WriteUnit(doc, change).value, other)
  {
    var result := WriteUnit(doc, change).value;
    var path := Address(change.part);
    if result == doc {
    } else if Apart(path, Address(other)) {
      if change.part.ObjectEntry? && change.state.None? {
        RemoveFrame(doc, path, Address(other));
        if other.ObjectEntry? {
          RemoveKeepsEntry(doc, path, other.pointer, other.key);
        }
      } else {
        var value := if change.part.ObjectEntry? then change.state.value
          else Array(WriteEntry(ItemsOf(ValueAt(doc, path)), change.part.identity, change.state));
        assert result == SetAt(doc, path, value);
        SetFrame(doc, path, value, Address(other));
        if other.ObjectEntry? {
          SetKeepsEntry(doc, path, value, other.pointer, other.key);
        }
      }
    } else {
      var items := ItemsOf(ValueAt(doc, path));
      OtherEntriesKept(items, change.part.identity, change.state);
      SetThenGet(doc, path, Array(WriteEntry(items, change.part.identity, change.state)));
      assert WriteEntry(items, change.part.identity, change.state) != items;
      if ValueAt(doc, path).None? {
        assert items == [] && FindEntry(items, other.identity) == None;
      }
    }
  }

  /** The container is of the right kind or absent, and what is added has somewhere to go. */
  ghost predicate Writable(doc: Json, change: Change) {
    match change.part
    case WholeFile => false
    case ArrayEntry(pointer, _) =>
      && (ValueAt(doc, pointer).Some? ==> ValueAt(doc, pointer).value.Array?)
      && (change.state.None? || Reachable(doc, pointer))
    case ObjectEntry(pointer, key) =>
      && (ValueAt(doc, pointer).Some? ==> ValueAt(doc, pointer).value.Object?)
      && (change.state.None? || Reachable(doc, pointer + [key]))
  }

  /** Exactly then a change succeeds. */
  lemma WritableIff(doc: Json, change: Change)
    ensures WriteUnit(doc, change).Ok? <==> Writable(doc, change)
  {
    match change.part {
      case WholeFile =>
      case ArrayEntry(pointer, identity) =>
        InsertableIff(doc, pointer);
        if ValueAt(doc, pointer).Some? {
          PresentIsReachable(doc, pointer);
        }
      case ObjectEntry(pointer, key) =>
        InsertableIff(doc, pointer + [key]);
        if ValueAt(doc, pointer + [key]).Some? {
          PresentIsReachable(doc, pointer + [key]);
        }
        ValueAtConcat(doc, pointer, [key]);
    }
  }

  /** A unit that is there can be written: nothing stands in the way of its place. */
  lemma PresentIsWritable(doc: Json, change: Change)
    requires IsPresent(doc, change.part)
    ensures Writable(doc, change)
  {
    match change.part {
      case ArrayEntry(pointer, identity) =>
        PresentIsReachable(doc, pointer);
      case ObjectEntry(pointer, key) =>
        ValueAtConcat(doc, pointer, [key]);
        PresentIsReachable(doc, pointer + [key]);
    }
  }

  lemma {:induction false} SetKeepsReachable(doc: Json, path: JsonPath, value: Json, other: JsonPath)
    requires Insertable(doc, path) && Apart(path, other)
    ensures Insertable(SetAt(doc, path, value), other) <==> Insertable(doc, other)
    decreases path
  {
    if path[0] == other[0] {
      var fields := FieldsOf(doc);
      var child := if path[0] in fields then fields[path[0]] else Object(map[]);
      TailsApart(path, other);
      SetKeepsReachable(child, path[1..], value, other[1..]);
    }
  }

  lemma {:induction false} RemoveKeepsReachable(doc: Json, path: JsonPath, other: JsonPath)
    requires Apart(path, other)
    ensures Insertable(RemoveAt(doc, path), other) <==> Insertable(doc, other)
    decreases path
  {
    if path[0] == other[0] && doc.Object? && path[0] in doc.fields {
      TailsApart(path, other);
      assert |path| > 1;
      RemoveKeepsReachable(doc.fields[path[0]], path[1..], other[1..]);
    }
  }

  /** A path that a value was set at can still be set, as it could before. */
  lemma SetIsReachable(doc: Json, path: JsonPath, value: Json)
    requires Insertable(doc, path)
    ensures Insertable(SetAt(doc, path, value), path)
  {
    SetThenGet(doc, path, value);
    PresentIsReachable(SetAt(doc, path, value), path);
  }

  lemma WriteKeepsReachable(doc: Json, change: Change, other: Unit)
    requires doc.Object? && WriteUnit(doc, change).Ok? && Sound(change)
    requires !other.WholeFile? && Independent(change.part, other)
    ensures Insertable(WriteUnit(doc, change).value, Address(other)) <==> Insertable(doc, Address(other))
  {
    var path := Address(change.part);
    if WriteUnit(doc, change).value != doc {
      if change.part.ObjectEntry? && change.state.None? {
        RemoveKeepsReachable(doc, path, Address(other));
      } else {
        var value := if change.part.ObjectEntry? then change.state.value
          else Array(WriteEntry(ItemsOf(ValueAt(doc, path)), change.part.identity, change.state));
        assert WriteUnit(doc, change).value == SetAt(doc, path, value) && Insertable(doc, path);
        if Apart(path, Address(other)) {
          SetKeepsReachable(doc, path, value, Address(other));
        } else {
          SetIsReachable(doc, path, value);
        }
      }
    }
  }

  /** A change leaves every independent change as possible or impossible as it was. */
  lemma WritableFrame(doc: Json, change: Change, other: Change)
    requires doc.Object? && WriteUnit(doc, change).Ok? && Sound(change)
    requires !other.part.WholeFile? && Independent(change.part, other.part)
    ensures Writable(WriteUnit(doc, change).value, other) <==> Writable(doc, other)
  {
    var result := WriteUnit(doc, change).value;
    WriteFrame(doc, change, other.part);
    WriteKeepsReachable(doc, change, other.part);
    InsertableIff(doc, Address(other.part));
    InsertableIff(result, Address(other.part));
    assert forall d :: ReadUnit(d, other.part).Ok? <==> Writable(d, other.(state := None));
  }

  predicate IsPresent(doc: Json, part: Unit) {
    ReadUnit(doc, part).Ok? && ReadUnit(doc, part).value.Some?
  }

  /** Writing the state a unit already has is no edit at all. */
  lemma WriteUnchanged(doc: Json, change: Change)
    requires ReadUnit(doc, change.part) == Ok(change.state)
    ensures WriteUnit(doc, change) == Ok(doc)
  {
    if change.part.ArrayEntry? {
      WriteEntryUnchanged(ItemsOf(ValueAt(doc, change.part.pointer)), change.part.identity);
    }
  }

  // ---------------------------------------------------------------- whole change lists

  ghost predicate IndependentChanges(changes: seq<Change>) {
    forall i, j :: 0 <= i < j < |changes| ==> Independent(changes[i].part, changes[j].part)
  }

  ghost predicate Achieved(doc: Json, changes: seq<Change>, result: Json) {
    && result.Object?
    && (forall i :: 0 <= i < |changes| ==>
          ReadUnit(result, changes[i].part) == Ok(changes[i].state) && Unambiguous(result, changes[i].part))
    && (forall other: Unit :: IndependentOfAll(other, changes) ==>
          && ReadUnit(result, other) == ReadUnit(doc, other)
          && (Unambiguous(doc, other) ==> Unambiguous(result, other)))
  }

  /**
   * A list of changes does what it says: every changed unit reads back as its planned state,
   * and every unit independent of all of them reads as before.
   */
  lemma {:induction false} WritesReadBack(doc: Json, changes: seq<Change>)
    requires doc.Object? && WriteUnits(doc, changes).Ok? && IndependentChanges(changes)
    requires forall i :: 0 <= i < |changes| ==> Sound(changes[i]) && Unambiguous(doc, changes[i].part)
    ensures Achieved(doc, changes, WriteUnits(doc, changes).value)
  {
    if changes != [] {
      var n := |changes| - 1;
      var init := changes[..n];
      assert forall i :: 0 <= i < n ==> init[i] == changes[i];
      WritesReadBack(doc, init);
      LastWriteReadsBack(doc, WriteUnits(doc, init).value, changes);
    }
  }

  lemma LastWriteReadsBack(doc: Json, mid: Json, changes: seq<Change>)
    requires changes != [] && IndependentChanges(changes)
    requires forall i :: 0 <= i < |changes| ==> Sound(changes[i]) && Unambiguous(doc, changes[i].part)
    requires WriteUnit(mid, changes[|changes| - 1]).Ok? && Achieved(doc, changes[..|changes| - 1], mid)
    ensures Achieved(doc, changes, WriteUnit(mid, changes[|changes| - 1]).value)
  {
    var n := |changes| - 1;
    var init := changes[..n];
    var result := WriteUnit(mid, changes[n]).value;
    assert IndependentOfAll(changes[n].part, init);
    WriteReadsBack(mid, changes[n]);
    forall i | 0 <= i < |changes|
      ensures ReadUnit(result, changes[i].part) == Ok(changes[i].state) && Unambiguous(result, changes[i].part)
    {
      if i < n {
        assert init[i] == changes[i];
        WriteFrame(mid, changes[n], changes[i].part);
      }
    }
    forall other: Unit | IndependentOfAll(other, changes)
      ensures ReadUnit(result, other) == ReadUnit(doc, other)
      ensures Unambiguous(doc, other) ==> Unambiguous(result, other)
    {
      LastWriteFrame(doc, mid, changes, other);
    }
  }

  lemma LastWriteFrame(doc: Json, mid: Json, changes: seq<Change>, other: Unit)
    requires changes != [] && Sound(changes[|changes| - 1]) && IndependentOfAll(other, changes)
    requires WriteUnit(mid, changes[|changes| - 1]).Ok? && Achieved(doc, changes[..|changes| - 1], mid)
    ensures var result := WriteUnit(mid, changes[|changes| - 1]).value;
            ReadUnit(result, other) == ReadUnit(doc, other) && (Unambiguous(doc, other) ==> Unambiguous(result, other))
  {
    var n := |changes| - 1;
    assert IndependentOfAll(other, changes[..n]);
    WriteFrame(mid, changes[n], other);
  }

  ghost predicate IndependentOfAll(other: Unit, changes: seq<Change>) {
    !other.WholeFile? && forall i :: 0 <= i < |changes| ==> Independent(changes[i].part, other)
  }

  lemma LastWriteKeepsWritable(mid: Json, change: Change, other: Change)
    requires mid.Object? && WriteUnit(mid, change).Ok? && Sound(change)
    requires !other.part.WholeFile? && Independent(change.part, other.part)
    ensures WriteUnit(mid, change).value.Object?
    ensures Writable(WriteUnit(mid, change).value, other) <==> Writable(mid, other)
  {
    WritableFrame(mid, change, other);
  }

  lemma {:induction false} WritesKeepWritable(doc: Json, changes: seq<Change>, other: Change)
    requires doc.Object? && WriteUnits(doc, changes).Ok? && IndependentOfAll(other.part, changes)
    requires forall i :: 0 <= i < |changes| ==> Sound(changes[i])
    ensures WriteUnits(doc, changes).value.Object?
    ensures Writable(WriteUnits(doc, changes).value, other) <==> Writable(doc, other)
  {
    if changes != [] {
      var n := |changes| - 1;
      var init := changes[..n];
      assert forall i :: 0 <= i < n ==> init[i] == changes[i];
      WritesKeepWritable(doc, init, other);
      LastWriteKeepsWritable(WriteUnits(doc, init).value, changes[n], other);
    }
  }

  ghost predicate AllWritable(doc: Json, changes: seq<Change>) {
    forall i :: 0 <= i < |changes| ==> Writable(doc, changes[i])
  }

  lemma AllWritableLast(doc: Json, changes: seq<Change>)
    requires changes != []
    ensures AllWritable(doc, changes)
            <==> AllWritable(doc, changes[..|changes| - 1]) && Writable(doc, changes[|changes| - 1])
  {
    var n := |changes| - 1;
    assert changes == changes[..n] + [changes[n]];
  }

  lemma LastSucceedsIff(doc: Json, changes: seq<Change>)
    requires changes != [] && doc.Object? && IndependentChanges(changes)
    requires forall i :: 0 <= i < |changes| ==> Sound(changes[i]) && !changes[i].part.WholeFile?
    requires WriteUnits(doc, changes[..|changes| - 1]).Ok?
    ensures WriteUnits(doc, changes).Ok? <==> Writable(doc, changes[|changes| - 1])
  {
    var n := |changes| - 1;
    var init := changes[..n];
    assert forall i :: 0 <= i < n ==> init[i] == changes[i];
    WritesKeepWritable(doc, init, changes[n]);
    WritableIff(WriteUnits(doc, init).value, changes[n]);
  }

  /** Independent changes can all be made exactly if each of them could be made alone. */
  lemma {:induction false} WritesSucceedIff(doc: Json, changes: seq<Change>)
    requires doc.Object? && IndependentChanges(changes)
    requires forall i :: 0 <= i < |changes| ==> Sound(changes[i]) && !changes[i].part.WholeFile?
    ensures WriteUnits(doc, changes).Ok? <==> AllWritable(doc, changes)
  {
    if changes != [] {
      WritesSucceedIff(doc, changes[..|changes| - 1]);
      AllWritableLast(doc, changes);
      if WriteUnits(doc, changes[..|changes| - 1]).Ok? {
        LastSucceedsIff(doc, changes);
      }
    }
  }

  /** Re-applying states that all hold already returns the document itself. */
  lemma {:induction false} WritesUnchanged(doc: Json, changes: seq<Change>)
    requires forall i :: 0 <= i < |changes| ==> ReadUnit(doc, changes[i].part) == Ok(changes[i].state)
    ensures WriteUnits(doc, changes) == Ok(doc)
  {
    if changes != [] {
      WritesUnchanged(doc, changes[..|changes| - 1]);
      WriteUnchanged(doc, changes[|changes| - 1]);
    }
  }
}
