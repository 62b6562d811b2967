/** Over whole runs every unit can be put back as it was before the first installation; replanning changes nothing. */
module Conservation {
  import opened Values
  import opened Files
  import opened JsonPaths
  import opened HostConfig
  import opened Transaction
  import opened Planner

  /** Units that can be owned side by side: no unit lies inside another. */
  ghost predicate Compatible(universe: set<UnitKey>, receiptPath: Path) {
    && (forall k :: k in universe ==> k.path != receiptPath && (!k.part.WholeFile? ==> k.part.pointer != []))
    && (forall k, l :: k in universe && l in universe && k != l && k.path == l.path ==>
          !k.part.WholeFile? && !l.part.WholeFile? && Independent(k.part, l.part))
  }

  /** No array of the document lists two entries for the same unit. */
  ghost predicate TidyAt(container: Option<Content>, part: Unit) {
    container.Some? && container.value.Document? ==> Unambiguous(container.value.root, part)
  }

  ghost predicate Tidy(files: Files, universe: set<UnitKey>) {
    forall k :: k in universe ==> TidyAt(Lookup(files, k.path), k.part)
  }

  ghost predicate SoundState(part: Unit, state: Option<Content>) {
    state.Some? && !part.WholeFile? ==>
      state.value.Document? && Sound(Change(part, Some(state.value.root)))
  }

  // ---------------------------------------------------------------- groups

  lemma {:induction false} GroupMembers(units: seq<InspectedUnit>, path: Path)
    ensures forall u :: u in Group(units, path) <==> u in units && u.key.path == path
  {
    if units != [] {
      GroupMembers(units[..|units| - 1], path);
      assert units == units[..|units| - 1] + [units[|units| - 1]];
    }
  }

  lemma {:induction false} GroupDistinct(units: seq<InspectedUnit>, path: Path)
    requires DistinctUnits(units)
    ensures DistinctUnits(Group(units, path))
  {
    if units != [] {
      var init := units[..|units| - 1];
      GroupDistinct(init, path);
      GroupMembers(init, path);
      var group := Group(init, path);
      forall i | 0 <= i < |group| ensures group[i].key != units[|units| - 1].key {
        assert group[i] in init;
      }
    }
  }

  lemma {:induction false} ChangesAt(group: seq<InspectedUnit>, action: Action)
    requires ChangesOf(group, action).Ok?
    ensures |ChangesOf(group, action).value| == |group|
    ensures forall i :: 0 <= i < |group| ==> ChangeOf(group[i], action) == Ok(ChangesOf(group, action).value[i])
  {
    if group != [] {
      ChangesAt(group[..|group| - 1], action);
    }
  }

  // ---------------------------------------------------------------- one file

  /** The group of units planned for one file, out of a universe of compatible units. */
  ghost predicate PlannedGroup(group: seq<InspectedUnit>, action: Action, container: Option<Content>,
                               universe: set<UnitKey>, path: Path) {
    FittingGroup(group, action, container, universe, path) && Target(group, action).Ok?
  }

  ghost predicate FittingGroup(group: seq<InspectedUnit>, action: Action, container: Option<Content>,
                               universe: set<UnitKey>, path: Path) {
    && group != [] && DistinctUnits(group)
    && (forall i :: 0 <= i < |group| ==>
          && group[i].key in universe && group[i].key.path == path && group[i].container == container
          && SoundState(group[i].key.part, NextState(group[i], action)))
    && (forall k :: k in universe && k.path == path ==> TidyAt(container, k.part))
  }

  /** The file a plan writes holds each planned unit as intended and every other unit as before. */
  lemma FileAchieves(group: seq<InspectedUnit>, action: Action, container: Option<Content>,
                     universe: set<UnitKey>, receiptPath: Path, path: Path)
    requires Compatible(universe, receiptPath) && PlannedGroup(group, action, container, universe, path)
    ensures var after := Target(group, action).value;
            && (forall i :: 0 <= i < |group| ==>
                  ReadState(after, group[i].key.part) == Ok(NextState(group[i], action)))
            && (forall k :: k in universe && k.path == path && !Planner.Listed(group, k) ==>
                  ReadState(after, k.part) == ReadState(container, k.part))
            && (forall k :: k in universe && k.path == path ==> TidyAt(after, k.part))
  {
    if w :| 0 <= w < |group| && group[w].key.part.WholeFile? {
      assert |group| == 1 && w == 0;
      forall k | k in universe && k.path == path ensures k == group[0].key {
      }
      assert Planner.Listed(group, group[0].key);
    } else {
      DocumentAchieves(group, action, container, universe, receiptPath, path);
    }
  }

  lemma DocumentAchieves(group: seq<InspectedUnit>, action: Action, container: Option<Content>,
                         universe: set<UnitKey>, receiptPath: Path, path: Path)
    requires Compatible(universe, receiptPath) && PlannedGroup(group, action, container, universe, path)
    requires forall i :: 0 <= i < |group| ==> !group[i].key.part.WholeFile?
    ensures var after := Target(group, action).value;
            && (forall i :: 0 <= i < |group| ==>
                  ReadState(after, group[i].key.part) == Ok(NextState(group[i], action)))
            && (forall k :: k in universe && k.path == path && !Planner.Listed(group, k) ==>
                  ReadState(after, k.part) == ReadState(container, k.part))
            && (forall k :: k in universe && k.path == path ==> TidyAt(after, k.part))
  {
    ChangesAchieved(group, action, container, universe, receiptPath, path);
    forall i | 0 <= i < |group|
      ensures ReadState(Target(group, action).value, group[i].key.part) == Ok(NextState(group[i], action))
      ensures TidyAt(Target(group, action).value, group[i].key.part)
    {
      InGroup(group, action, container, i);
    }
    forall k | k in universe && k.path == path && !Planner.Listed(group, k)
      ensures ReadState(Target(group, action).value, k.part) == ReadState(container, k.part)
      ensures TidyAt(Target(group, action).value, k.part)
    {
      OutsideGroup(group, action, container, universe, receiptPath, path, k);
    }
  }

  /** The planned document is what the changes make of the file's document. */
  ghost predicate Rewritten(group: seq<InspectedUnit>, action: Action, container: Option<Content>)
    requires group != []
  {
    && ChangesOf(group, action).Ok? && RootOf(container).Ok? && Base(RootOf(container).value).Ok?
    && Target(group, action).Ok? && Target(group, action).value.Some? && Target(group, action).value.value.Document?
    && Achieved(Base(RootOf(container).value).value, ChangesOf(group, action).value,
                Target(group, action).value.value.root)
  }

  lemma ChangesFit(group: seq<InspectedUnit>, action: Action, container: Option<Content>,
                   universe: set<UnitKey>, receiptPath: Path, path: Path)
    requires Compatible(universe, receiptPath) && FittingGroup(group, action, container, universe, path)
    requires forall i :: 0 <= i < |group| ==> !group[i].key.part.WholeFile?
    requires ChangesOf(group, action).Ok? && RootOf(container).Ok? && Base(RootOf(container).value).Ok?
    ensures var changes := ChangesOf(group, action).value;
            && IndependentChanges(changes)
            && forall i :: 0 <= i < |changes| ==>
                 Sound(changes[i]) && Unambiguous(Base(RootOf(container).value).value, changes[i].part)
  {
    var changes := ChangesOf(group, action).value;
    ChangesAt(group, action);
    forall i | 0 <= i < |changes|
      ensures changes[i].part == group[i].key.part && Sound(changes[i])
      ensures Unambiguous(Base(RootOf(container).value).value, changes[i].part)
    {
      assert group[i].key in universe;
      BaseIsTidy(container, group[i].key.part);
    }
    forall i, j | 0 <= i < j < |changes| ensures Independent(changes[i].part, changes[j].part) {
      assert group[i].key in universe && group[j].key in universe;
    }
  }

  lemma ChangesAchieved(group: seq<InspectedUnit>, action: Action, container: Option<Content>,
                        universe: set<UnitKey>, receiptPath: Path, path: Path)
    requires Compatible(universe, receiptPath) && PlannedGroup(group, action, container, universe, path)
    requires forall i :: 0 <= i < |group| ==> !group[i].key.part.WholeFile?
    ensures Rewritten(group, action, container)
  {
    ChangesFit(group, action, container, universe, receiptPath, path);
    WritesReadBack(Base(RootOf(container).value).value, ChangesOf(group, action).value);
  }

  lemma InGroup(group: seq<InspectedUnit>, action: Action, container: Option<Content>, i: nat)
    requires i < |group| && Rewritten(group, action, container) && !group[i].key.part.WholeFile?
    ensures ReadState(Target(group, action).value, group[i].key.part) == Ok(NextState(group[i], action))
    ensures TidyAt(Target(group, action).value, group[i].key.part)
  {
    ChangesAt(group, action);
    ReadBack(group[i], action, ChangesOf(group, action).value[i], Target(group, action).value.value.root);
  }

  lemma ReadBack(u: InspectedUnit, action: Action, change: Change, doc: Json)
    requires ChangeOf(u, action) == Ok(change) && !u.key.part.WholeFile? && doc.Object?
    requires ReadUnit(doc, change.part) == Ok(change.state) && Unambiguous(doc, change.part)
    ensures ReadState(Some(Document(doc)), u.key.part) == Ok(NextState(u, action))
    ensures TidyAt(Some(Document(doc)), u.key.part)
  {
  }

  lemma OutsideGroup(group: seq<InspectedUnit>, action: Action, container: Option<Content>,
                     universe: set<UnitKey>, receiptPath: Path, path: Path, k: UnitKey)
    requires Compatible(universe, receiptPath) && PlannedGroup(group, action, container, universe, path)
    requires Rewritten(group, action, container)
    requires k in universe && k.path == path && !Planner.Listed(group, k)
    ensures ReadState(Target(group, action).value, k.part) == ReadState(container, k.part)
    ensures TidyAt(Target(group, action).value, k.part)
  {
    PartsIndependent(group, action, container, universe, receiptPath, path, k);
    BaseIsTidy(container, k.part);
  }

  lemma PartsIndependent(group: seq<InspectedUnit>, action: Action, container: Option<Content>,
                         universe: set<UnitKey>, receiptPath: Path, path: Path, k: UnitKey)
    requires Compatible(universe, receiptPath) && PlannedGroup(group, action, container, universe, path)
    requires ChangesOf(group, action).Ok?
    requires k in universe && k.path == path && !Planner.Listed(group, k)
    ensures !k.part.WholeFile? && IndependentOfAll(k.part, ChangesOf(group, action).value)
  {
    var changes := ChangesOf(group, action).value;
    ChangesAt(group, action);
    assert group[0].key in universe && group[0].key != k;
    forall i | 0 <= i < |changes| ensures Independent(changes[i].part, k.part) {
      assert group[i].key in universe && group[i].key != k;
      assert ChangeOf(group[i], action) == Ok(changes[i]);
    }
  }

  lemma BaseIsTidy(container: Option<Content>, part: Unit)
    requires RootOf(container).Ok? && Base(RootOf(container).value).Ok? && TidyAt(container, part)
    requires !part.WholeFile? && part.pointer != []
    ensures Unambiguous(Base(RootOf(container).value).value, part)
  {
  }

  /** The file is absent or an object, and the state has somewhere to go in it; a whole file always has. */
  ghost predicate Placeable(container: Option<Content>, part: Unit, state: Option<Content>) {
    || part.WholeFile?
    || match container
       case None => Writable(Object(map[]), ChangeTo(part, state))
       case Some(Document(root)) => root.Object? && Writable(root, ChangeTo(part, state))
       case Some(_) => false
  }

  ghost function ChangeTo(part: Unit, state: Option<Content>): Change {
    Change(part, if state.Some? && state.value.Document? then Some(state.value.root) else None)
  }

  /** A file can be planned exactly if each of its units could be placed alone. */
  lemma PlannableIff(group: seq<InspectedUnit>, action: Action, container: Option<Content>,
                     universe: set<UnitKey>, receiptPath: Path, path: Path)
    requires Compatible(universe, receiptPath) && FittingGroup(group, action, container, universe, path)
    ensures Plannable(group, action)
            <==> forall i :: 0 <= i < |group| ==> Placeable(container, group[i].key.part, NextState(group[i], action))
  {
    if w :| 0 <= w < |group| && group[w].key.part.WholeFile? {
      WholeFileIsAlone(group, universe, receiptPath, path, w);
    } else {
      ChangesAreStates(group, action);
      ChangesAt(group, action);
      assert group[0].container == container;
      if RootOf(container).Ok? && Base(RootOf(container).value).Ok? {
        EntriesPlannableIff(group, action, container, universe, receiptPath, path);
      } else {
        assert !Placeable(container, group[0].key.part, NextState(group[0], action));
      }
    }
  }

  lemma EntriesPlannableIff(group: seq<InspectedUnit>, action: Action, container: Option<Content>,
                            universe: set<UnitKey>, receiptPath: Path, path: Path)
    requires Compatible(universe, receiptPath) && FittingGroup(group, action, container, universe, path)
    requires forall i :: 0 <= i < |group| ==> !group[i].key.part.WholeFile?
    requires ChangesOf(group, action).Ok? && RootOf(container).Ok? && Base(RootOf(container).value).Ok?
    ensures Plannable(group, action)
            <==> forall i :: 0 <= i < |group| ==> Placeable(container, group[i].key.part, NextState(group[i], action))
  {
    var doc, changes := Base(RootOf(container).value).value, ChangesOf(group, action).value;
    ChangesFit(group, action, container, universe, receiptPath, path);
    EntriesTarget(group, action, container);
    EntriesPlaceable(group, action, container);
    WritesSucceedIff(doc, changes);
  }

  lemma EntriesPlaceable(group: seq<InspectedUnit>, action: Action, container: Option<Content>)
    requires forall i :: 0 <= i < |group| ==> !group[i].key.part.WholeFile?
    requires ChangesOf(group, action).Ok? && RootOf(container).Ok? && Base(RootOf(container).value).Ok?
    ensures var changes := ChangesOf(group, action).value;
            && (forall i :: 0 <= i < |changes| ==> !changes[i].part.WholeFile?)
            && (AllWritable(Base(RootOf(container).value).value, changes)
                <==> forall i :: 0 <= i < |group| ==>
                       Placeable(container, group[i].key.part, NextState(group[i], action)))
  {
    var doc, changes := Base(RootOf(container).value).value, ChangesOf(group, action).value;
    ChangesAt(group, action);
    forall i | 0 <= i < |group|
      ensures Placeable(container, group[i].key.part, NextState(group[i], action)) <==> Writable(doc, changes[i])
      ensures !changes[i].part.WholeFile?
    {
      ChangePlaced(group[i], action, changes[i], container);
    }
  }

  lemma EntriesTarget(group: seq<InspectedUnit>, action: Action, container: Option<Content>)
    requires group != [] && forall i :: 0 <= i < |group| ==> group[i].container == container
    requires forall i :: 0 <= i < |group| ==> !group[i].key.part.WholeFile?
    requires ChangesOf(group, action).Ok? && RootOf(container).Ok? && Base(RootOf(container).value).Ok?
    ensures Plannable(group, action)
            <==> WriteUnits(Base(RootOf(container).value).value, ChangesOf(group, action).value).Ok?
  {
  }

  lemma ChangePlaced(u: InspectedUnit, action: Action, change: Change, container: Option<Content>)
    requires ChangeOf(u, action) == Ok(change) && !u.key.part.WholeFile?
    requires RootOf(container).Ok? && Base(RootOf(container).value).Ok?
    ensures !change.part.WholeFile?
    ensures Placeable(container, u.key.part, NextState(u, action))
            <==> Writable(Base(RootOf(container).value).value, change)
  {
  }

  /** A unit that is there can be placed, whatever it is to become. */
  lemma PresentIsPlaceable(container: Option<Content>, part: Unit, current: Content, state: Option<Content>)
    requires ReadState(container, part) == Ok(Some(current))
    ensures Placeable(container, part, state)
  {
    if !part.WholeFile? {
      PresentIsWritable(container.value.root, ChangeTo(part, state));
    }
  }

  ghost predicate InFile(group: seq<InspectedUnit>, universe: set<UnitKey>, path: Path) {
    forall i :: 0 <= i < |group| ==> group[i].key in universe && group[i].key.path == path
  }

  lemma WholeFileIsAlone(group: seq<InspectedUnit>, universe: set<UnitKey>, receiptPath: Path, path: Path, w: nat)
    requires Compatible(universe, receiptPath) && DistinctUnits(group) && InFile(group, universe, path)
    requires w < |group| && group[w].key.part.WholeFile?
    ensures |group| == 1
  {
    WholeFileIs(group, universe, receiptPath, path, w, 0);
    WholeFileIs(group, universe, receiptPath, path, w, |group| - 1);
  }

  lemma WholeFileIs(group: seq<InspectedUnit>, universe: set<UnitKey>, receiptPath: Path, path: Path, w: nat, i: nat)
    requires Compatible(universe, receiptPath) && DistinctUnits(group) && InFile(group, universe, path)
    requires w < |group| && group[w].key.part.WholeFile? && i < |group|
    ensures i == w
  {
    assert group[i].key in universe && group[w].key in universe;
  }

  lemma {:induction false} ChangesAreStates(group: seq<InspectedUnit>, action: Action)
    requires forall i :: 0 <= i < |group| ==>
               !group[i].key.part.WholeFile? && SoundState(group[i].key.part, NextState(group[i], action))
    ensures ChangesOf(group, action).Ok?
  {
    if group != [] {
      ChangesAreStates(group[..|group| - 1], action);
    }
  }

  // ---------------------------------------------------------------- one plan

  /** One action of the installer, with what it inspected and planned. */
  datatype Move = Move(action: Action, manifest: Option<Manifest>, snapshot: Snapshot, plan: Plan)

  ghost predicate SoundManifest(manifest: Option<Manifest>, universe: set<UnitKey>) {
    forall key :: FindAsset(AssetsOf(manifest), key).Some? ==>
      key in universe && SoundState(key.part, Some(FindAsset(AssetsOf(manifest), key).value.value))
  }

  ghost predicate Legal(files: Files, move: Move, universe: set<UnitKey>, receiptPath: Path) {
    && IsSnapshot(files, receiptPath, move.manifest, move.snapshot)
    && IsPlan(move.snapshot, receiptPath, move.action, move.plan)
    && (move.action.Uninstall? <==> move.manifest.None?)
    && SoundManifest(move.manifest, universe)
  }

  function Result(files: Files, move: Move): Files {
    After(files, move.plan.Mutations())
  }

  ghost predicate AwayFrom(units: seq<InspectedUnit>, receiptPath: Path) {
    forall i :: 0 <= i < |units| ==> units[i].key.path != receiptPath
  }

  /** Each content mutation guards the file its group was inspected in, never the receipt. */
  lemma ContentMutation(files: Files, move: Move, universe: set<UnitKey>, receiptPath: Path, m: Mutation)
    requires Legal(files, move, universe, receiptPath) && AwayFrom(move.snapshot.units, receiptPath)
    requires Planned(move.snapshot.units, move.action, m)
    ensures m.path != receiptPath && Matches(Lookup(files, m.path), m.before)
  {
    GroupMembers(move.snapshot.units, m.path);
    assert Group(move.snapshot.units, m.path)[0] in move.snapshot.units;
  }

  lemma PlanIsFresh(files: Files, move: Move, universe: set<UnitKey>, receiptPath: Path)
    requires Legal(files, move, universe, receiptPath) && AwayFrom(move.snapshot.units, receiptPath)
    ensures ValidPlan(move.plan.Mutations()) && Fresh(files, move.plan.Mutations())
    ensures forall i :: 0 <= i < |move.plan.content| ==> move.plan.content[i].path != receiptPath
  {
    forall i | 0 <= i < |move.plan.content|
      ensures move.plan.content[i].path != receiptPath
      ensures Matches(Lookup(files, move.plan.content[i].path), move.plan.content[i].before)
    {
      ContentMutation(files, move, universe, receiptPath, move.plan.content[i]);
    }
    OneMore(files, move.plan.content, move.plan.receipt, receiptPath);
  }

  lemma OneMore(files: Files, content: seq<Mutation>, receipt: seq<Mutation>, receiptPath: Path)
    requires ValidPlan(content) && ValidPlan(receipt) && Fresh(files, content) && Fresh(files, receipt)
    requires forall i :: 0 <= i < |content| ==> content[i].path != receiptPath
    requires |receipt| <= 1 && forall i :: 0 <= i < |receipt| ==> receipt[i].path == receiptPath
    ensures ValidPlan(content + receipt) && Fresh(files, content + receipt)
  {
    var all := content + receipt;
    assert forall i :: 0 <= i < |all| ==> all[i] == if i < |content| then content[i] else receipt[i - |content|];
  }

  /** Where every file ends up: at its target, with the receipt last and nothing else touched. */
  lemma FilesAfter(files: Files, move: Move, universe: set<UnitKey>, receiptPath: Path)
    requires Legal(files, move, universe, receiptPath) && AwayFrom(move.snapshot.units, receiptPath)
    ensures Lookup(Result(files, move), receiptPath) == NextStored(move.snapshot, move.action)
    ensures forall path :: path != receiptPath ==>
              var group := Group(move.snapshot.units, path);
              && (group == [] ==> Lookup(Result(files, move), path) == Lookup(files, path))
              && (group != [] ==> Target(group, move.action) == Ok(Lookup(Result(files, move), path)))
  {
    PlanIsFresh(files, move, universe, receiptPath);
    ReceiptAfter(files, move, universe, receiptPath);
    forall path | path != receiptPath
      ensures var group := Group(move.snapshot.units, path);
              && (group == [] ==> Lookup(Result(files, move), path) == Lookup(files, path))
              && (group != [] ==> Target(group, move.action) == Ok(Lookup(Result(files, move), path)))
    {
      FileAfter(files, move, universe, receiptPath, path);
    }
  }

  lemma FileAfter(files: Files, move: Move, universe: set<UnitKey>, receiptPath: Path, path: Path)
    requires Legal(files, move, universe, receiptPath) && ValidPlan(move.plan.Mutations()) && path != receiptPath
    ensures var group := Group(move.snapshot.units, path);
            && (group == [] ==> Lookup(Result(files, move), path) == Lookup(files, path))
            && (group != [] ==> Target(group, move.action) == Ok(Lookup(Result(files, move), path)))
  {
    var muts := move.plan.Mutations();
    AfterAt(files, muts);
    if Touches(muts, path) {
      var i :| 0 <= i < |muts| && muts[i].path == path;
      assert muts[i] == move.plan.content[i];
      assert Planned(move.snapshot.units, move.action, muts[i]);
    } else if Group(move.snapshot.units, path) != [] {
      UntouchedFile(files, move, universe, receiptPath, path);
    }
  }

  lemma UntouchedFile(files: Files, move: Move, universe: set<UnitKey>, receiptPath: Path, path: Path)
    requires Legal(files, move, universe, receiptPath) && Group(move.snapshot.units, path) != []
    requires !Touches(move.plan.Mutations(), path)
    ensures Target(Group(move.snapshot.units, path), move.action) == Ok(Lookup(files, path))
  {
    var content := move.plan.content;
    forall i | 0 <= i < |content| ensures content[i].path != path {
      assert move.plan.Mutations()[i] == content[i];
    }
    assert Covered(move.snapshot.units, move.action, content, path);
    GroupMembers(move.snapshot.units, path);
    assert Group(move.snapshot.units, path)[0] in move.snapshot.units;
  }

  lemma ReceiptAfter(files: Files, move: Move, universe: set<UnitKey>, receiptPath: Path)
    requires Legal(files, move, universe, receiptPath)
    requires ValidPlan(move.plan.Mutations())
    requires forall i :: 0 <= i < |move.plan.content| ==> move.plan.content[i].path != receiptPath
    ensures Lookup(Result(files, move), receiptPath) == NextStored(move.snapshot, move.action)
  {
    var muts := move.plan.Mutations();
    AfterAt(files, muts);
    if move.plan.receipt != [] {
      assert muts[|move.plan.content|] == move.plan.receipt[0];
    } else {
      assert muts == move.plan.content;
      assert !Touches(muts, receiptPath);
    }
  }

  ghost predicate UnitsFit(files: Files, move: Move, universe: set<UnitKey>) {
    forall i :: 0 <= i < |move.snapshot.units| ==>
      var u := move.snapshot.units[i];
      u.key in universe && SoundState(u.key.part, NextState(u, move.action))
  }

  /**
   * A plan does what it says: once its mutations are done every inspected unit reads as its
   * planned state, and every other unit of the universe, in the same file or not, as before.
   */
  lemma PlanAchieves(files: Files, move: Move, universe: set<UnitKey>, receiptPath: Path)
    requires Compatible(universe, receiptPath) && Tidy(files, universe)
    requires Legal(files, move, universe, receiptPath) && UnitsFit(files, move, universe)
    ensures ValidPlan(move.plan.Mutations()) && Fresh(files, move.plan.Mutations())
    ensures Lookup(Result(files, move), receiptPath) == NextStored(move.snapshot, move.action)
    ensures forall i :: 0 <= i < |move.snapshot.units| ==>
              ReadKey(Result(files, move), move.snapshot.units[i].key)
                == Ok(NextState(move.snapshot.units[i], move.action))
    ensures forall k :: k in universe && !Planner.Listed(move.snapshot.units, k) ==>
              ReadKey(Result(files, move), k) == ReadKey(files, k)
    ensures Tidy(Result(files, move), universe)
  {
    var units, after := move.snapshot.units, Result(files, move);
    assert AwayFrom(units, receiptPath);
    PlanIsFresh(files, move, universe, receiptPath);
    FilesAfter(files, move, universe, receiptPath);
    forall i | 0 <= i < |units|
      ensures ReadKey(after, units[i].key) == Ok(NextState(units[i], move.action))
    {
      var path := units[i].key.path;
      GroupMembers(units, path);
      assert units[i] in Group(units, path);
      GroupAchieves(files, move, universe, receiptPath, path);
    }
    forall k | k in universe
      ensures !Planner.Listed(units, k) ==> ReadKey(after, k) == ReadKey(files, k)
      ensures TidyAt(Lookup(after, k.path), k.part)
    {
      GroupMembers(units, k.path);
      if Group(units, k.path) != [] {
        GroupAchieves(files, move, universe, receiptPath, k.path);
        if Planner.Listed(Group(units, k.path), k) {
          var i :| 0 <= i < |Group(units, k.path)| && Group(units, k.path)[i].key == k;
          assert Group(units, k.path)[i] in units;
        }
      }
    }
  }

  lemma GroupAchieves(files: Files, move: Move, universe: set<UnitKey>, receiptPath: Path, path: Path)
    requires Compatible(universe, receiptPath) && Tidy(files, universe)
    requires Legal(files, move, universe, receiptPath) && UnitsFit(files, move, universe)
    requires Group(move.snapshot.units, path) != []
    ensures var group := Group(move.snapshot.units, path);
            && Target(group, move.action).Ok?
            && (forall u :: u in group ==>
                  ReadState(Target(group, move.action).value, u.key.part) == Ok(NextState(u, move.action)))
            && (forall k :: k in universe && k.path == path && !Planner.Listed(group, k) ==>
                  ReadState(Target(group, move.action).value, k.part) == ReadKey(files, k))
            && (forall k :: k in universe && k.path == path ==> TidyAt(Target(group, move.action).value, k.part))
  {
    var units := move.snapshot.units;
    var group := Group(units, path);
    assert Covered(units, move.action, move.plan.content, path);
    GroupMembers(units, path);
    GroupDistinct(units, path);
    forall i | 0 <= i < |group|
      ensures group[i].key in universe && group[i].key.path == path && group[i].container == Lookup(files, path)
      ensures SoundState(group[i].key.part, NextState(group[i], move.action))
    {
      assert group[i] in units;
    }
    FileAchieves(group, move.action, Lookup(files, path), universe, receiptPath, path);
  }

  // ---------------------------------------------------------------- whole runs

  /**
   * The invariant. The receipt owns only units of the universe; for each it remembers what
   * the file system held before the first installation, and the unit reads as installed.
   * Every other unit reads exactly as it did before the first installation.
   */
  ghost predicate Conserved(files: Files, origin: Files, universe: set<UnitKey>, receiptPath: Path) {
    && Tidy(files, universe)
    && var parsed := ParseReceipt(Lookup(files, receiptPath));
       parsed.Ok? && forall k :: OwnedOrOriginal(files, origin, universe, k, FindReceipt(parsed.value, k))
  }

  ghost predicate OwnedOrOriginal(files: Files, origin: Files, universe: set<UnitKey>, k: UnitKey,
                                  entry: Option<ReceiptEntry>)
  {
    if entry.Some? then
      && k in universe
      && ReadKey(origin, k) == Ok(entry.value.previous)
      && ReadKey(files, k) == Ok(Some(entry.value.checksum.preimage))
    else k in universe ==> ReadKey(files, k) == ReadKey(origin, k)
  }

  lemma {:induction false} NextEntriesAt(units: seq<InspectedUnit>, action: Action)
    requires DistinctUnits(units)
    ensures forall i :: 0 <= i < |units| ==>
              (units[i].key in NextEntries(units, action) <==> KeepDesired(units[i], action))
    ensures forall i :: 0 <= i < |units| && KeepDesired(units[i], action) ==>
              NextEntries(units, action)[units[i].key] == NextReceiptEntry(units[i])
    ensures forall key :: key in NextEntries(units, action) ==> Planner.Listed(units, key)
  {
    if units != [] {
      var n := |units| - 1;
      var init := units[..n];
      forall i | 0 <= i < n ensures init[i] == units[i] && init[i].key != units[n].key {
      }
      NextEntriesAt(init, action);
      assert !Planner.Listed(init, units[n].key);
      forall key | key in NextEntries(units, action) ensures Planner.Listed(units, key) {
        if key != units[n].key {
          var i :| 0 <= i < n && init[i].key == key;
          assert units[i].key == key;
        }
      }
    }
  }

  /** A value read from a file is sound for the unit it was read as. */
  lemma ReadIsSound(files: Files, key: UnitKey)
    requires ReadKey(files, key).Ok?
    ensures SoundState(key.part, ReadKey(files, key).value)
  {
    if key.part.ArrayEntry? && ReadKey(files, key).value.Some? {
      FoundHasIdentity(ItemsOf(ValueAt(files[key.path].root, key.part.pointer)), key.part.identity);
    }
  }

  lemma UnitsFitHere(files: Files, origin: Files, move: Move, universe: set<UnitKey>, receiptPath: Path)
    requires Conserved(files, origin, universe, receiptPath)
    requires Legal(files, move, universe, receiptPath)
    ensures UnitsFit(files, move, universe)
  {
    forall i | 0 <= i < |move.snapshot.units|
      ensures var u := move.snapshot.units[i];
              u.key in universe && SoundState(u.key.part, NextState(u, move.action))
    {
      var u := move.snapshot.units[i];
      assert Planner.Listed(move.snapshot.units, u.key);
      assert InspectedAt(files, AssetsOf(move.manifest), move.snapshot.receipt, u);
      assert OwnedOrOriginal(files, origin, universe, u.key, u.receipt);
      if u.receipt.Some? {
        ReadIsSound(origin, u.key);
      }
    }
  }

  /** Every install, update and uninstall keeps the invariant. */
  lemma MoveConserves(files: Files, origin: Files, move: Move, universe: set<UnitKey>, receiptPath: Path)
    requires Compatible(universe, receiptPath)
    requires Conserved(files, origin, universe, receiptPath)
    requires Legal(files, move, universe, receiptPath)
    ensures Conserved(Result(files, move), origin, universe, receiptPath)
  {
    var after, units := Result(files, move), move.snapshot.units;
    UnitsFitHere(files, origin, move, universe, receiptPath);
    PlanAchieves(files, move, universe, receiptPath);
    NextEntriesAt(units, move.action);
    var parsed := ParseReceipt(Lookup(after, receiptPath));
    forall k ensures OwnedOrOriginal(after, origin, universe, k, FindReceipt(parsed.value, k)) {
      assert OwnedOrOriginal(files, origin, universe, k, FindReceipt(move.snapshot.receipt, k));
      if Planner.Listed(units, k) {
        var i :| 0 <= i < |units| && units[i].key == k;
        ListedConserves(files, origin, move, universe, receiptPath, i);
      } else {
        assert FindReceipt(parsed.value, k).None?;
      }
    }
  }

  lemma ListedConserves(files: Files, origin: Files, move: Move, universe: set<UnitKey>, receiptPath: Path, i: nat)
    requires Legal(files, move, universe, receiptPath) && i < |move.snapshot.units|
    requires OwnedOrOriginal(files, origin, universe, move.snapshot.units[i].key, move.snapshot.units[i].receipt)
    requires UnitsFit(files, move, universe)
    requires Lookup(Result(files, move), receiptPath) == NextStored(move.snapshot, move.action)
    requires ReadKey(Result(files, move), move.snapshot.units[i].key)
               == Ok(NextState(move.snapshot.units[i], move.action))
    ensures var k := move.snapshot.units[i].key;
            var parsed := ParseReceipt(Lookup(Result(files, move), receiptPath));
            OwnedOrOriginal(Result(files, move), origin, universe, k, FindReceipt(parsed.value, k))
  {
    var u := move.snapshot.units[i];
    NextEntriesAt(move.snapshot.units, move.action);
    assert InspectedAt(files, AssetsOf(move.manifest), move.snapshot.receipt, u);
    assert Planner.Listed(move.snapshot.units, u.key);
  }

  /**
   * Crashes do not matter: when applying a plan was interrupted any number of times and recovery
   * has settled the disk, the invariant still holds.
   */
  lemma InterruptedMoveConserves(files: Files, origin: Files, move: Move, universe: set<UnitKey>, receiptPath: Path,
                                 events: seq<Event>)
    requires Compatible(universe, receiptPath) && Conserved(files, origin, universe, receiptPath)
    requires Legal(files, move, universe, receiptPath)
    requires NoBegin(events) && NoLateFailure(Started(files, move.plan.Mutations()), events)
    requires Transaction.Settled(Run(Started(files, move.plan.Mutations()), events))
    ensures Conserved(Run(Started(files, move.plan.Mutations()), events).files, origin, universe, receiptPath)
  {
    UnitsFitHere(files, origin, move, universe, receiptPath);
    PlanAchieves(files, move, universe, receiptPath);
    MoveConserves(files, origin, move, universe, receiptPath);
    Atomicity(files, move.plan.Mutations(), events);
  }

  /** Where a move can end: carried out, or interrupted and recovered until the disk has settled. */
  ghost predicate Ends(files: Files, move: Move, after: Files) {
    after == Result(files, move) || exists events :: EndsBy(files, move, events, after)
  }

  ghost predicate EndsBy(files: Files, move: Move, events: seq<Event>, after: Files) {
    var started := Started(files, move.plan.Mutations());
    && NoBegin(events) && NoLateFailure(started, events)
    && Transaction.Settled(Run(started, events)) && after == Run(started, events).files
  }

  ghost predicate IsRun(worlds: seq<Files>, moves: seq<Move>, universe: set<UnitKey>, receiptPath: Path) {
    && |worlds| == |moves| + 1
    && forall i :: 0 <= i < |moves| ==>
         Legal(worlds[i], moves[i], universe, receiptPath) && Ends(worlds[i], moves[i], worlds[i + 1])
  }

  /**
   * Originals are conserved: over any sequence of installs, updates and uninstalls with changing
   * manifests and no outside edits, each carried out or interrupted and recovered, the receipt
   * always holds the original state of each owned unit, and every unit not currently owned
   * reads as it did before the first installation.
   */
  lemma {:induction false} OriginalsConserved(worlds: seq<Files>, moves: seq<Move>, universe: set<UnitKey>,
                                              receiptPath: Path, n: nat)
    requires Compatible(universe, receiptPath) && IsRun(worlds, moves, universe, receiptPath)
    requires receiptPath !in worlds[0] && Tidy(worlds[0], universe)
    requires n < |worlds|
    ensures Conserved(worlds[n], worlds[0], universe, receiptPath)
  {
    if n > 0 {
      var before, move := worlds[n - 1], moves[n - 1];
      OriginalsConserved(worlds, moves, universe, receiptPath, n - 1);
      MoveConserves(before, worlds[0], move, universe, receiptPath);
      if worlds[n] != Result(before, move) {
        var events :| EndsBy(before, move, events, worlds[n]);
        InterruptedMoveConserves(before, worlds[0], move, universe, receiptPath, events);
      }
    }
  }

  /**
   * After any run an uninstall that is carried out returns every unit, ever owned or not, to its
   * state before the first install.
   */
  lemma UninstallRestores(worlds: seq<Files>, moves: seq<Move>, universe: set<UnitKey>, receiptPath: Path,
                          n: nat, uninstall: Move)
    requires Compatible(universe, receiptPath) && IsRun(worlds, moves, universe, receiptPath)
    requires receiptPath !in worlds[0] && Tidy(worlds[0], universe)
    requires n < |worlds| && Legal(worlds[n], uninstall, universe, receiptPath) && uninstall.action.Uninstall?
    ensures var last := Result(worlds[n], uninstall);
            receiptPath !in last && forall k :: k in universe ==> ReadKey(last, k) == ReadKey(worlds[0], k)
  {
    OriginalsConserved(worlds, moves, universe, receiptPath, n);
    MoveConserves(worlds[n], worlds[0], uninstall, universe, receiptPath);
    UnitsFitHere(worlds[n], worlds[0], uninstall, universe, receiptPath);
    PlanAchieves(worlds[n], uninstall, universe, receiptPath);
    var last := Result(worlds[n], uninstall);
    assert Lookup(last, receiptPath) == None;
    forall k | k in universe ensures ReadKey(last, k) == ReadKey(worlds[0], k) {
      assert OwnedOrOriginal(last, worlds[0], universe, k,
                             FindReceipt(ParseReceipt(Lookup(last, receiptPath)).value, k));
    }
  }

  // ---------------------------------------------------------------- the next action

  /**
   * What stands in the way of a plan: exactly a unit whose file is neither absent nor an object,
   * or whose pointer runs through something else.
   */
  lemma UnplannableIff(files: Files, manifest: Option<Manifest>, snapshot: Snapshot, action: Action,
                       universe: set<UnitKey>, receiptPath: Path, path: Path)
    requires Compatible(universe, receiptPath) && Tidy(files, universe)
    requires IsSnapshot(files, receiptPath, manifest, snapshot)
    requires forall i :: 0 <= i < |snapshot.units| ==>
               var u := snapshot.units[i]; u.key in universe && SoundState(u.key.part, NextState(u, action))
    ensures Unplannable(snapshot.units, action, path)
            <==> exists u :: u in snapshot.units && u.key.path == path
                             && !Placeable(Lookup(files, path), u.key.part, NextState(u, action))
  {
    var units, group := snapshot.units, Group(snapshot.units, path);
    GroupMembers(units, path);
    GroupDistinct(units, path);
    forall i | 0 <= i < |group|
      ensures group[i].key in universe && group[i].key.path == path && group[i].container == Lookup(files, path)
      ensures SoundState(group[i].key.part, NextState(group[i], action))
    {
      assert group[i] in units;
    }
    if group != [] {
      PlannableIff(group, action, Lookup(files, path), universe, receiptPath, path);
      if u :| u in units && u.key.path == path && !Placeable(Lookup(files, path), u.key.part, NextState(u, action)) {
        assert u in group;
      }
    }
  }

  lemma PresentUnitsArePlannable(files: Files, manifest: Option<Manifest>, snapshot: Snapshot, action: Action,
                                 universe: set<UnitKey>, receiptPath: Path, path: Path)
    requires Compatible(universe, receiptPath) && Tidy(files, universe)
    requires IsSnapshot(files, receiptPath, manifest, snapshot)
    requires forall i :: 0 <= i < |snapshot.units| ==>
               var u := snapshot.units[i];
               u.key in universe && u.current.Some? && SoundState(u.key.part, NextState(u, action))
    ensures !Unplannable(snapshot.units, action, path)
  {
    UnplannableIff(files, manifest, snapshot, action, universe, receiptPath, path);
    forall u | u in snapshot.units && u.key.path == path
      ensures Placeable(Lookup(files, path), u.key.part, NextState(u, action))
    {
      PresentIsPlaceable(Lookup(files, path), u.key.part, u.current.value, NextState(u, action));
    }
  }

  /**
   * Whatever an installation went through, as long as it has a receipt it can be uninstalled:
   * every owned unit can be inspected, and the removal can be planned for every file.
   */
  lemma UninstallIsPossible(files: Files, origin: Files, universe: set<UnitKey>, receiptPath: Path,
                            snapshot: Snapshot, path: Path)
    requires Compatible(universe, receiptPath) && Conserved(files, origin, universe, receiptPath)
    requires receiptPath in files
    ensures Inspectable(files, receiptPath, None)
    ensures IsSnapshot(files, receiptPath, None, snapshot) ==>
              && !Unplannable(snapshot.units, Uninstall, path)
              && (snapshot.pending || Startable(snapshot, Uninstall))
  {
    var receipt := ParseReceipt(Lookup(files, receiptPath)).value;
    forall key | key in OwnedKeys(receipt) ensures Readable(files, key) {
      assert OwnedOrOriginal(files, origin, universe, key, FindReceipt(receipt, key));
    }
    if IsSnapshot(files, receiptPath, None, snapshot) {
      forall i | 0 <= i < |snapshot.units|
        ensures var u := snapshot.units[i];
                u.key in universe && u.current.Some? && SoundState(u.key.part, NextState(u, Uninstall))
      {
        OwnedUnit(files, origin, universe, receiptPath, snapshot, i);
      }
      PresentUnitsArePlannable(files, None, snapshot, Uninstall, universe, receiptPath, path);
    }
  }

  lemma OwnedUnit(files: Files, origin: Files, universe: set<UnitKey>, receiptPath: Path, snapshot: Snapshot, i: nat)
    requires Conserved(files, origin, universe, receiptPath)
    requires IsSnapshot(files, receiptPath, None, snapshot) && i < |snapshot.units|
    ensures var u := snapshot.units[i];
            u.key in universe && u.current.Some? && SoundState(u.key.part, NextState(u, Uninstall))
  {
    var u := snapshot.units[i];
    assert Planner.Listed(snapshot.units, u.key);
    assert InspectedAt(files, [], snapshot.receipt, u);
    assert OwnedOrOriginal(files, origin, universe, u.key, u.receipt);
    ReadIsSound(origin, u.key);
  }

  // ---------------------------------------------------------------- planning again

  lemma {:induction false} NoConflicts(units: seq<InspectedUnit>)
    requires forall i :: 0 <= i < |units| ==> ClassifyConflict(units[i]) == None
    ensures Conflicts(units) == []
  {
    if units != [] {
      NoConflicts(units[..|units| - 1]);
    }
  }

  /** A file whose units all read as planned needs no mutation. */
  lemma TargetUnchanged(group: seq<InspectedUnit>, action: Action)
    requires group != [] && Plannable(group, action)
    requires forall i :: 0 <= i < |group| ==>
               && group[i].current.Some? && NextState(group[i], action) == group[i].current
               && ReadState(group[i].container, group[i].key.part) == Ok(group[i].current)
    ensures Target(group, action).value == group[0].container
  {
    if forall i :: 0 <= i < |group| ==> !group[i].key.part.WholeFile? {
      var changes := ChangesOf(group, action).value;
      var root := group[0].container.value.root;
      ChangesAt(group, action);
      forall i | 0 <= i < |changes| ensures ReadUnit(root, changes[i].part) == Ok(changes[i].state) {
        UnitUnchanged(group[i], action, changes[i]);
      }
      WritesUnchanged(root, changes);
    }
  }

  lemma UnitUnchanged(u: InspectedUnit, action: Action, change: Change)
    requires ChangeOf(u, action) == Ok(change) && !u.key.part.WholeFile?
    requires u.current.Some? && NextState(u, action) == u.current
    requires ReadState(u.container, u.key.part) == Ok(u.current)
    ensures u.container.Some? && u.container.value.Document?
    ensures ReadUnit(u.container.value.root, change.part) == Ok(change.state)
  {
  }

  /** After an install or update: the state of one unit at the next inspection. */
  ghost predicate UpToDate(u: InspectedUnit) {
    && u.desired.Some?
    && u.current == Some(u.desired.value.value)
    && u.receipt.Some? && u.receipt.value.checksum == Sha256(u.desired.value.value)
    && u.receipt.value.source == u.desired.value.source
    && ReadState(u.container, u.key.part) == Ok(u.current)
  }

  lemma UpToDatePlansNothing(snapshot: Snapshot, receiptPath: Path, plan: Plan)
    requires IsPlan(snapshot, receiptPath, Update, plan)
    requires forall i :: 0 <= i < |snapshot.units| ==> UpToDate(snapshot.units[i])
    requires NextStored(snapshot, Update) == snapshot.stored
    ensures plan.Mutations() == [] && plan.conflicts == []
  {
    var units := snapshot.units;
    NoConflicts(units);
    if plan.content != [] {
      var m := plan.content[0];
      assert Planned(units, Update, m);
      var group := Group(units, m.path);
      GroupMembers(units, m.path);
      forall i | 0 <= i < |group| ensures UpToDate(group[i]) {
        assert group[i] in units;
      }
      TargetUnchanged(group, Update);
      assert false;
    }
  }

  /**
   * Re-planning is a fixpoint: after an install or update has been carried out, inspecting with
   * the same manifest gives an update plan without conflicts and without mutations.
   */
  lemma ReplanIsEmpty(files: Files, origin: Files, move: Move, universe: set<UnitKey>, receiptPath: Path,
                      again: Snapshot, plan: Plan)
    requires Compatible(universe, receiptPath) && Conserved(files, origin, universe, receiptPath)
    requires Legal(files, move, universe, receiptPath) && !move.action.Uninstall?
    requires IsSnapshot(Result(files, move), receiptPath, move.manifest, again)
    requires IsPlan(again, receiptPath, Update, plan)
    ensures plan.Mutations() == [] && plan.conflicts == []
  {
    var units := move.snapshot.units;
    UnitsFitHere(files, origin, move, universe, receiptPath);
    PlanAchieves(files, move, universe, receiptPath);
    assert CarriedOut(files, move, receiptPath);
    forall i | 0 <= i < |again.units| ensures UpToDate(again.units[i]) {
      UpToDateAgain(files, move, universe, receiptPath, again, i);
    }
    SameEntries(files, move, universe, receiptPath, again);
    UpToDatePlansNothing(again, receiptPath, plan);
  }

  ghost predicate CarriedOut(files: Files, move: Move, receiptPath: Path) {
    && Lookup(Result(files, move), receiptPath) == NextStored(move.snapshot, move.action)
    && forall j :: 0 <= j < |move.snapshot.units| ==>
         ReadKey(Result(files, move), move.snapshot.units[j].key) == Ok(NextState(move.snapshot.units[j], move.action))
  }

  lemma UpToDateAgain(files: Files, move: Move, universe: set<UnitKey>, receiptPath: Path, again: Snapshot, i: nat)
    requires Legal(files, move, universe, receiptPath) && !move.action.Uninstall?
    requires IsSnapshot(Result(files, move), receiptPath, move.manifest, again) && i < |again.units|
    requires CarriedOut(files, move, receiptPath)
    ensures UpToDate(again.units[i])
    ensures exists j :: 0 <= j < |move.snapshot.units| && move.snapshot.units[j].key == again.units[i].key &&
              KeepDesired(move.snapshot.units[j], move.action) &&
              NextReceiptEntry(again.units[i]) == NextReceiptEntry(move.snapshot.units[j])
  {
    var u, units := again.units[i], move.snapshot.units;
    NextEntriesAt(units, move.action);
    assert Planner.Listed(again.units, u.key);
    assert InspectedAt(Result(files, move), AssetsOf(move.manifest), again.receipt, u);
    assert Planner.Listed(units, u.key) by {
      assert FindAsset(AssetsOf(move.manifest), u.key).Some? || u.key in NextEntries(units, move.action);
    }
    var j :| 0 <= j < |units| && units[j].key == u.key;
    assert InspectedAt(files, AssetsOf(move.manifest), move.snapshot.receipt, units[j]);
  }

  lemma SameEntries(files: Files, move: Move, universe: set<UnitKey>, receiptPath: Path, again: Snapshot)
    requires Legal(files, move, universe, receiptPath) && !move.action.Uninstall?
    requires IsSnapshot(Result(files, move), receiptPath, move.manifest, again)
    requires CarriedOut(files, move, receiptPath)
    ensures NextStored(again, Update) == again.stored
  {
    var first, second := NextEntries(move.snapshot.units, move.action), NextEntries(again.units, Update);
    forall key
      ensures key in first <==> key in second
      ensures key in first ==> first[key] == second[key]
    {
      EntryAgain(files, move, universe, receiptPath, again, key);
    }
    SameMaps(first, second);
  }

  lemma SameMaps(first: map<UnitKey, ReceiptEntry>, second: map<UnitKey, ReceiptEntry>)
    requires forall key :: key in first <==> key in second
    requires forall key :: key in first ==> first[key] == second[key]
    ensures first == second
  {
  }

  lemma EntryAgain(files: Files, move: Move, universe: set<UnitKey>, receiptPath: Path, again: Snapshot, key: UnitKey)
    requires Legal(files, move, universe, receiptPath) && !move.action.Uninstall?
    requires IsSnapshot(Result(files, move), receiptPath, move.manifest, again)
    requires CarriedOut(files, move, receiptPath)
    ensures var first, second := NextEntries(move.snapshot.units, move.action), NextEntries(again.units, Update);
            && (key in first <==> key in second)
            && (key in first ==> first[key] == second[key])
  {
    var first := NextEntries(move.snapshot.units, move.action);
    assert key in first ==> FindReceipt(again.receipt, key).Some?;
    NextEntriesAt(again.units, Update);
    if Planner.Listed(again.units, key) {
      NextEntriesAt(move.snapshot.units, move.action);
      var i :| 0 <= i < |again.units| && again.units[i].key == key;
      UpToDateAgain(files, move, universe, receiptPath, again, i);
    }
  }

  /**
   * And it can always be planned again: after an install or update whose manifest could be
   * inspected, the next inspection with that manifest and the update from it both succeed.
   */
  lemma ReplanIsPossible(files: Files, origin: Files, move: Move, universe: set<UnitKey>, receiptPath: Path,
                         again: Snapshot, path: Path)
    requires Compatible(universe, receiptPath) && Conserved(files, origin, universe, receiptPath)
    requires Legal(files, move, universe, receiptPath) && !move.action.Uninstall?
    requires Inspectable(files, receiptPath, move.manifest)
    ensures Inspectable(Result(files, move), receiptPath, move.manifest)
    ensures IsSnapshot(Result(files, move), receiptPath, move.manifest, again) ==>
              && !Unplannable(again.units, Update, path)
              && (again.pending || Startable(again, Update))
  {
    UnitsFitHere(files, origin, move, universe, receiptPath);
    PlanAchieves(files, move, universe, receiptPath);
    assert CarriedOut(files, move, receiptPath);
    InspectableAgain(files, move, universe, receiptPath);
    if IsSnapshot(Result(files, move), receiptPath, move.manifest, again) {
      forall i | 0 <= i < |again.units|
        ensures var u := again.units[i];
                u.key in universe && u.current.Some? && SoundState(u.key.part, NextState(u, Update))
      {
        UpToDateAgain(files, move, universe, receiptPath, again, i);
        ReadIsSound(Result(files, move), again.units[i].key);
      }
      PresentUnitsArePlannable(Result(files, move), move.manifest, again, Update, universe, receiptPath, path);
    }
  }

  lemma InspectableAgain(files: Files, move: Move, universe: set<UnitKey>, receiptPath: Path)
    requires Legal(files, move, universe, receiptPath) && !move.action.Uninstall?
    requires Inspectable(files, receiptPath, move.manifest) && CarriedOut(files, move, receiptPath)
    ensures Inspectable(Result(files, move), receiptPath, move.manifest)
  {
    var units, assets := move.snapshot.units, AssetsOf(move.manifest);
    forall key | Planner.Listed(units, key) ensures Readable(Result(files, move), key) {
      var j :| 0 <= j < |units| && units[j].key == key;
    }
    forall i | 0 <= i < |assets| ensures Readable(Result(files, move), assets[i].key) {
      FindAssetNone(assets, assets[i].key);
    }
    NextEntriesAt(units, move.action);
  }
}
