/** The journaled installer: a protocol over atomic disk steps, and the code that takes them. */
module Transaction {
  import opened Values
  import opened Files

  datatype Expected = Missing | Matching(checksum: Digest)

  datatype Mutation =
    | WriteFile(path: Path, before: Expected, content: Content, checksum: Digest)
    | RemoveFile(path: Path, before: Expected)

  datatype Entry = Entry(path: Path, before: Option<Content>, after: Expected)

  datatype Status = Active | Committed

  datatype Journal = Journal(status: Status, entries: seq<Entry>)

  // ---------------------------------------------------------------- plans

  predicate Matches(current: Option<Content>, expected: Expected) {
    match expected
    case Missing => current.None?
    case Matching(checksum) => current.Some? && Sha256(current.value) == checksum
  }

  /** A content meets its own digest and no other expectation; an absent file meets only `Missing`. */
  lemma MatchesOne(current: Option<Content>, expected: Expected)
    ensures Matches(current, expected)
            <==> expected == if current.None? then Missing else Matching(Sha256(current.value))
  {
  }

  /** What the path holds once the mutation is done. */
  function Outcome(m: Mutation): Option<Content> {
    if m.WriteFile? then Some(m.content) else None
  }

  function AfterImage(m: Mutation): Expected {
    if m.WriteFile? then Matching(m.checksum) else Missing
  }

  function Perform(files: Files, m: Mutation): Files {
    Put(files, m.path, Outcome(m))
  }

  function After(files: Files, plan: seq<Mutation>): Files {
    if plan == [] then files else Perform(After(files, plan[..|plan| - 1]), plan[|plan| - 1])
  }

  ghost predicate ValidPlan(plan: seq<Mutation>) {
    && (forall i, j :: 0 <= i < j < |plan| ==> plan[i].path != plan[j].path)
    && (forall i :: 0 <= i < |plan| && plan[i].WriteFile? ==> plan[i].checksum == Sha256(plan[i].content))
  }

  ghost predicate Fresh(files: Files, plan: seq<Mutation>) {
    forall i :: 0 <= i < |plan| ==> Matches(Lookup(files, plan[i].path), plan[i].before)
  }

  /** The file is not what the plan was made for: other bytes, gone, or there though expected missing. */
  ghost predicate Stale(files: Files, m: Mutation) {
    if m.path in files then m.before != Matching(Sha256(files[m.path])) else m.before != Missing
  }

  ghost predicate HasStale(files: Files, plan: seq<Mutation>) {
    exists i :: 0 <= i < |plan| && Stale(files, plan[i])
  }

  lemma FreshIff(files: Files, plan: seq<Mutation>)
    ensures Fresh(files, plan) <==> !HasStale(files, plan)
  {
    forall i | 0 <= i < |plan|
      ensures Matches(Lookup(files, plan[i].path), plan[i].before) <==> !Stale(files, plan[i])
    {
      MatchesOne(Lookup(files, plan[i].path), plan[i].before);
    }
  }

  ghost function Entries(files: Files, plan: seq<Mutation>): seq<Entry> {
    seq(|plan|, i requires 0 <= i < |plan| => Entry(plan[i].path, Lookup(files, plan[i].path), AfterImage(plan[i])))
  }

  ghost predicate Touches(plan: seq<Mutation>, path: Path) {
    exists i :: 0 <= i < |plan| && plan[i].path == path
  }

  /** Executing a valid plan leaves each planned path at its outcome and every other path alone. */
  lemma {:induction false} AfterAt(files: Files, plan: seq<Mutation>)
    requires ValidPlan(plan)
    ensures forall i :: 0 <= i < |plan| ==> Lookup(After(files, plan), plan[i].path) == Outcome(plan[i])
    ensures forall p :: !Touches(plan, p) ==> Lookup(After(files, plan), p) == Lookup(files, p)
  {
    if plan != [] {
      var n := |plan| - 1;
      var init := plan[..n];
      AfterAt(files, init);
      forall i | 0 <= i < |plan|
        ensures Lookup(After(files, plan), plan[i].path) == Outcome(plan[i])
      {
        assert i < n ==> init[i] == plan[i];
      }
      forall p | !Touches(plan, p) ensures Lookup(After(files, plan), p) == Lookup(files, p) {
        assert plan[n].path != p;
        assert forall i :: 0 <= i < |init| ==> init[i] == plan[i];
      }
    }
  }

  // ---------------------------------------------------------------- protocol

  method ValidatePlan(plan: seq<Mutation>) returns (valid: bool)
    ensures valid <==> ValidPlan(plan)
  {
    var paths: set<Path> := {};
    for i := 0 to |plan|
      invariant ValidPlan(plan[..i])
      invariant paths == set k | 0 <= k < i :: plan[k].path
    {
      var m := plan[i];
      if m.path in paths || (m.WriteFile? && Sha256(m.content) != m.checksum) {
        return false;
      }
      paths := paths + {m.path};
    }
    assert plan[..|plan|] == plan;
    return true;
  }

  /** What a running installer process is about to do; `Down` when none is running. */
  datatype Phase =
    | Down
    | Applying(plan: seq<Mutation>, entries: seq<Entry>, done: nat)
    | Cleaning(entries: seq<Entry>)
    | Undoing(entries: seq<Entry>, left: nat)

  datatype State = State(files: Files, journal: Option<Journal>, phase: Phase)

  /**
   * `Advance` performs the next disk step. `FailBefore` and `FailAfter` raise an exception
   * just before or just after that step takes effect. `Crash` kills the process.
   */
  datatype Event = Begin(plan: seq<Mutation>) | Recover | Advance | FailBefore | FailAfter | Crash

  /** Restores one before-image, or nothing when the path is already restored. */
  function RestoreEntry(files: Files, entry: Entry): Files {
    Put(files, entry.path, entry.before)
  }

  /** The rollback step refuses a path that holds neither the before-image nor the after-image. */
  predicate Restorable(files: Files, entry: Entry) {
    Lookup(files, entry.path) == entry.before || Matches(Lookup(files, entry.path), entry.after)
  }

  /** The protocol as a state machine over its atomic disk steps. */
  ghost function Next(s: State, e: Event): State {
    match s.phase
    case Down => (
      match e
      case Begin(plan) =>
        if s.journal.None? && ValidPlan(plan) && Fresh(s.files, plan)
        then s.(journal := Some(Journal(Active, Entries(s.files, plan))),
                phase := Applying(plan, Entries(s.files, plan), 0))
        else s
      case Recover =>
        if s.journal.None? then s
        else if s.journal.value.status.Committed? then s.(journal := None)
        else s.(phase := Undoing(s.journal.value.entries, |s.journal.value.entries|))
      case _ => s)
    case Applying(plan, entries, done) => ApplyNext(s, e)
    case Cleaning(entries) => (
      match e
      case Advance => s.(journal := None, phase := Down)
      case FailBefore => s.(phase := Undoing(entries, |entries|))
      case FailAfter => s.(journal := None, phase := Undoing(entries, |entries|))
      case Crash => s.(phase := Down)
      case _ => s)
    case Undoing(entries, left) => UndoNext(s, e)
  }

  ghost function ApplyNext(s: State, e: Event): State
    requires s.phase.Applying?
  {
    var Applying(plan, entries, done) := s.phase;
    var undo := Undoing(entries, |entries|);
    if e.Crash? then s.(phase := Down)
    else if e.Begin? || e.Recover? then s
    else if e.FailBefore? then s.(phase := undo)
    else if done < |plan| then
      if !Matches(Lookup(s.files, plan[done].path), plan[done].before) then s.(phase := undo)
      else s.(files := Perform(s.files, plan[done]),
              phase := if e.Advance? then Applying(plan, entries, done + 1) else undo)
    else s.(journal := Some(Journal(Committed, entries)),
            phase := if e.Advance? then Cleaning(entries) else undo)
  }

  ghost function UndoNext(s: State, e: Event): State
    requires s.phase.Undoing?
  {
    var Undoing(entries, left) := s.phase;
    if e.Crash? || e.FailBefore? then s.(phase := Down)
    else if e.Begin? || e.Recover? then s
    else if 0 < left <= |entries| then
      if !Restorable(s.files, entries[left - 1]) then s.(phase := Down)
      else s.(files := RestoreEntry(s.files, entries[left - 1]),
              phase := if e.Advance? then Undoing(entries, left - 1) else Down)
    else s.(journal := None, phase := Down)
  }

  ghost function Run(s: State, events: seq<Event>): State {
    if events == [] then s else Next(Run(s, events[..|events| - 1]), events[|events| - 1])
  }

  lemma {:induction false} RunConcat(s: State, first: seq<Event>, second: seq<Event>)
    ensures Run(s, first + second) == Run(Run(s, first), second)
  {
    if second == [] {
      assert first + second == first;
    } else {
      var init, e := second[..|second| - 1], second[|second| - 1];
      assert second == init + [e] && first + second == (first + init) + [e];
      RunConcat(s, first, init);
    }
  }

  lemma RunOne(s: State, e: Event)
    ensures Run(s, [e]) == Next(s, e)
  {
    assert [e][..0] == [];
  }

  lemma RunTwo(s: State, events: seq<Event>, e1: Event, e2: Event)
    ensures Run(s, events + [e1, e2]) == Next(Next(Run(s, events), e1), e2)
  {
    assert events + [e1, e2] == (events + [e1]) + [e2];
  }

  ghost predicate Settled(s: State) {
    s.phase.Down? && s.journal.None?
  }

  ghost predicate NoBegin(events: seq<Event>) {
    forall i :: 0 <= i < |events| ==> !events[i].Begin?
  }

  /** An exception raised after the committed journal is already in place. */
  ghost predicate LateFailure(s: State, e: Event) {
    || (s.phase.Applying? && s.phase.done >= |s.phase.plan| && e.FailAfter?)
    || (s.phase.Cleaning? && (e.FailBefore? || e.FailAfter?))
  }

  ghost predicate NoLateFailure(s: State, events: seq<Event>) {
    forall i :: 0 <= i < |events| ==> !LateFailure(Run(s, events[..i]), events[i])
  }

  lemma NoLateFailurePrefix(s: State, events: seq<Event>, e: Event)
    requires NoLateFailure(s, events + [e])
    ensures NoLateFailure(s, events)
  {
    forall i | 0 <= i < |events| ensures !LateFailure(Run(s, events[..i]), events[i]) {
      assert (events + [e])[..i] == events[..i] && (events + [e])[i] == events[i];
    }
  }

  ghost function Started(before: Files, plan: seq<Mutation>): State {
    Next(State(before, None, Down), Begin(plan))
  }

  // ---------------------------------------------------------------- invariants

  /** Each planned path holds its before-image or its after-image; nothing else moved. */
  ghost predicate Between(files: Files, before: Files, plan: seq<Mutation>) {
    && (forall p :: !Touches(plan, p) ==> Lookup(files, p) == Lookup(before, p))
    && (forall i :: 0 <= i < |plan| ==>
          Lookup(files, plan[i].path) == Lookup(before, plan[i].path)
            || Lookup(files, plan[i].path) == Outcome(plan[i]))
  }

  ghost predicate RestoredFrom(files: Files, before: Files, plan: seq<Mutation>, left: nat) {
    forall i :: left <= i < |plan| ==> Lookup(files, plan[i].path) == Lookup(before, plan[i].path)
  }

  ghost predicate AppliedTo(files: Files, before: Files, plan: seq<Mutation>, done: nat) {
    && done <= |plan|
    && (forall i :: 0 <= i < done ==> Lookup(files, plan[i].path) == Outcome(plan[i]))
    && (forall i :: done <= i < |plan| ==> Lookup(files, plan[i].path) == Lookup(before, plan[i].path))
  }

  /** What the running process knows about the disk and remembers of the journal. */
  ghost predicate InPhase(s: State, before: Files, plan: seq<Mutation>) {
    match s.phase
    case Down => true
    case Applying(plan', entries, done) =>
      plan' == plan && entries == Entries(before, plan) && AppliedTo(s.files, before, plan, done)
    case Cleaning(entries) => entries == Entries(before, plan) && AppliedTo(s.files, before, plan, |plan|)
    case Undoing(entries, left) =>
      entries == Entries(before, plan) && left <= |plan| && RestoredFrom(s.files, before, plan, left)
  }

  /** Holds whatever happens, late exceptions included. */
  ghost predicate Loose(s: State, before: Files, plan: seq<Mutation>) {
    && Between(s.files, before, plan)
    && (s.journal.Some? ==> s.journal.value.entries == Entries(before, plan))
    && InPhase(s, before, plan)
  }

  /** What the journal on disk says, as long as no exception follows the commit point. */
  ghost predicate JournalTells(s: State, before: Files, plan: seq<Mutation>) {
    match s.phase
    case Down =>
      if s.journal.None? then AppliedTo(s.files, before, plan, 0) || AppliedTo(s.files, before, plan, |plan|)
      else s.journal.value.status.Committed? ==> AppliedTo(s.files, before, plan, |plan|)
    case Cleaning(_) => s.journal == Some(Journal(Committed, Entries(before, plan)))
    case _ => s.journal == Some(Journal(Active, Entries(before, plan)))
  }

  ghost predicate Tight(s: State, before: Files, plan: seq<Mutation>) {
    Loose(s, before, plan) && JournalTells(s, before, plan)
  }

  lemma AllOrNothing(files: Files, before: Files, plan: seq<Mutation>)
    requires ValidPlan(plan) && Between(files, before, plan)
    ensures AppliedTo(files, before, plan, 0) ==> files == before
    ensures AppliedTo(files, before, plan, |plan|) ==> files == After(before, plan)
  {
    AfterAt(before, plan);
    if AppliedTo(files, before, plan, 0) {
      forall p ensures Lookup(files, p) == Lookup(before, p) {
        if Touches(plan, p) {
          var i :| 0 <= i < |plan| && plan[i].path == p;
        }
      }
      SameLookups(files, before);
    }
    if AppliedTo(files, before, plan, |plan|) {
      forall p ensures Lookup(files, p) == Lookup(After(before, plan), p) {
        if Touches(plan, p) {
          var i :| 0 <= i < |plan| && plan[i].path == p;
        }
      }
      SameLookups(files, After(before, plan));
    }
  }

  /** A disk step moves one path to `content` and leaves every other path alone. */
  lemma PutAt(files: Files, path: Path, content: Option<Content>)
    ensures forall p :: Lookup(Put(files, path, content), p) == if p == path then content else Lookup(files, p)
  {
  }

  lemma LooseStep(s: State, e: Event, before: Files, plan: seq<Mutation>)
    requires ValidPlan(plan) && Loose(s, before, plan) && !e.Begin?
    ensures Loose(Next(s, e), before, plan)
  {
    if s.phase.Applying? && s.phase.done < |plan| {
      ApplyStep(s, e, before, plan);
    } else if s.phase.Undoing? && 0 < s.phase.left {
      UndoStep(s, e, before, plan);
    }
  }

  lemma ApplyStep(s: State, e: Event, before: Files, plan: seq<Mutation>)
    requires ValidPlan(plan) && Loose(s, before, plan)
    requires s.phase.Applying? && s.phase.done < |plan|
    ensures Loose(ApplyNext(s, e), before, plan)
  {
    var k := s.phase.done;
    var files := Perform(s.files, plan[k]);
    PutAt(s.files, plan[k].path, Outcome(plan[k]));
    assert Touches(plan, plan[k].path);
    assert Between(files, before, plan);
    assert AppliedTo(files, before, plan, k + 1);
  }

  lemma UndoStep(s: State, e: Event, before: Files, plan: seq<Mutation>)
    requires ValidPlan(plan) && Loose(s, before, plan)
    requires s.phase.Undoing? && 0 < s.phase.left
    ensures Loose(UndoNext(s, e), before, plan)
  {
    var k := s.phase.left - 1;
    var files := RestoreEntry(s.files, s.phase.entries[k]);
    PutAt(s.files, plan[k].path, Lookup(before, plan[k].path));
    assert Touches(plan, plan[k].path);
    assert Between(files, before, plan);
    assert RestoredFrom(files, before, plan, k);
  }

  lemma JournalStep(s: State, e: Event, before: Files, plan: seq<Mutation>)
    requires InPhase(s, before, plan) && JournalTells(s, before, plan) && !e.Begin? && !LateFailure(s, e)
    requires s.journal.Some? ==> s.journal.value.entries == Entries(before, plan)
    ensures JournalTells(Next(s, e), before, plan)
  {
    if s.phase.Undoing? && s.phase.left == 0 {
      assert AppliedTo(s.files, before, plan, 0);
    }
  }

  lemma {:induction false} LooseRun(before: Files, plan: seq<Mutation>, events: seq<Event>)
    requires ValidPlan(plan) && Fresh(before, plan) && NoBegin(events)
    ensures Loose(Run(Started(before, plan), events), before, plan)
  {
    if events != [] {
      var n := |events| - 1;
      LooseRun(before, plan, events[..n]);
      LooseStep(Run(Started(before, plan), events[..n]), events[n], before, plan);
    }
  }

  lemma {:induction false} TightRun(before: Files, plan: seq<Mutation>, events: seq<Event>)
    requires ValidPlan(plan) && Fresh(before, plan)
    requires NoBegin(events) && NoLateFailure(Started(before, plan), events)
    ensures Tight(Run(Started(before, plan), events), before, plan)
  {
    if events != [] {
      var n := |events| - 1;
      var s := Started(before, plan);
      assert events == events[..n] + [events[n]];
      NoLateFailurePrefix(s, events[..n], events[n]);
      TightRun(before, plan, events[..n]);
      LooseStep(Run(s, events[..n]), events[n], before, plan);
      JournalStep(Run(s, events[..n]), events[n], before, plan);
    }
  }

  // ---------------------------------------------------------------- main results

  /**
   * Crash atomicity: over any run of apply steps, exceptions before the commit point, crashes
   * and repeated, themselves crashing, recoveries, a settled disk holds exactly the state
   * before the plan or exactly the state after it. A recovery about to report "rolled back"
   * stands at the former, one about to report "cleaned up" at the latter.
   */
  lemma Atomicity(before: Files, plan: seq<Mutation>, events: seq<Event>)
    requires ValidPlan(plan) && Fresh(before, plan)
    requires NoBegin(events) && NoLateFailure(Started(before, plan), events)
    ensures var s := Run(Started(before, plan), events);
            && (Settled(s) ==> s.files == before || s.files == After(before, plan))
            && (s.phase.Undoing? && s.phase.left == 0 ==> s.files == before)
            && (s.phase.Down? && s.journal.Some? && s.journal.value.status.Committed? ==>
                s.files == After(before, plan))
  {
    TightRun(before, plan, events);
    AllOrNothing(Run(Started(before, plan), events).files, before, plan);
  }

  /**
   * The guards of the protocol, from any state: a transaction begins exactly with nothing pending, a
   * valid plan and no stale file; a stale file is never written; and a busy process starts nothing else.
   */
  lemma StepsAreGuarded(s: State, e: Event)
    ensures s.phase.Down? && e.Begin? ==>
              if s.journal.None? && ValidPlan(e.plan) && !HasStale(s.files, e.plan)
              then Next(s, e) == State(s.files, Some(Journal(Active, Entries(s.files, e.plan))),
                                       Applying(e.plan, Entries(s.files, e.plan), 0))
              else Next(s, e) == s
    ensures s.phase.Applying? && s.phase.done < |s.phase.plan| && Stale(s.files, s.phase.plan[s.phase.done]) ==>
              Next(s, e).files == s.files && Next(s, e).journal == s.journal
                && (e.Advance? ==> Next(s, e).phase.Undoing?)
    ensures !s.phase.Down? && (e.Begin? || e.Recover?) ==> Next(s, e) == s
  {
    if e.Begin? {
      FreshIff(s.files, e.plan);
    }
    if s.phase.Applying? && s.phase.done < |s.phase.plan| {
      var m := s.phase.plan[s.phase.done];
      MatchesOne(Lookup(s.files, m.path), m.before);
    }
  }

  /** From any disk an interruption can leave, an undisturbed recovery settles. */
  lemma RecoverySettles(before: Files, plan: seq<Mutation>, events: seq<Event>)
    requires ValidPlan(plan) && Fresh(before, plan) && NoBegin(events)
    requires Run(Started(before, plan), events).phase.Down?
    ensures Settled(Run(Run(Started(before, plan), events), [Recover] + Advances(|plan| + 1)))
  {
    var s := Run(Started(before, plan), events);
    LooseRun(before, plan, events);
    LooseStep(s, Recover, before, plan);
    RunConcat(s, [Recover], Advances(|plan| + 1));
    RunOne(s, Recover);
    if Next(s, Recover).phase.Undoing? {
      FinishUndo(Next(s, Recover), before, plan);
    } else {
      StayDown(Next(s, Recover), |plan| + 1);
    }
  }

  lemma FinishUndo(s: State, before: Files, plan: seq<Mutation>)
    requires ValidPlan(plan) && Loose(s, before, plan) && s.phase.Undoing? && s.phase.left == |plan|
    ensures Settled(Run(s, Advances(|plan| + 1)))
  {
    UndoSettles(s, before, plan, |plan|);
    assert Advances(|plan| + 1) == Advances(|plan|) + [Advance];
  }

  ghost function Advances(n: nat): seq<Event> {
    seq(n, i => Advance)
  }

  lemma {:induction false} StayDown(s: State, n: nat)
    requires s.phase.Down?
    ensures Run(s, Advances(n)) == s
  {
    if n > 0 {
      assert Advances(n)[..n - 1] == Advances(n - 1);
      StayDown(s, n - 1);
    }
  }

  ghost predicate UndoingAt(s: State, before: Files, plan: seq<Mutation>, left: nat, journal: Option<Journal>) {
    Loose(s, before, plan) && s.phase == Undoing(Entries(before, plan), left) && s.journal == journal
  }

  lemma UndoAdvances(s: State, before: Files, plan: seq<Mutation>, left: nat, journal: Option<Journal>)
    requires ValidPlan(plan) && 0 < left <= |plan| && UndoingAt(s, before, plan, left, journal)
    ensures UndoingAt(Next(s, Advance), before, plan, left - 1, journal)
    ensures forall i :: 0 <= i < left - 1 ==>
              Lookup(Next(s, Advance).files, plan[i].path) == Lookup(s.files, plan[i].path)
  {
    UndoStep(s, Advance, before, plan);
    PutAt(s.files, plan[left - 1].path, Lookup(before, plan[left - 1].path));
    assert Restorable(s.files, Entries(before, plan)[left - 1]);
  }

  lemma {:induction false} UndoSettles(s: State, before: Files, plan: seq<Mutation>, n: nat)
    requires ValidPlan(plan) && Loose(s, before, plan)
    requires s.phase.Undoing? && n <= s.phase.left
    ensures UndoingAt(Run(s, Advances(n)), before, plan, s.phase.left - n, s.journal)
    ensures forall i :: 0 <= i < s.phase.left - n ==>
              Lookup(Run(s, Advances(n)).files, plan[i].path) == Lookup(s.files, plan[i].path)
  {
    if n > 0 {
      assert Advances(n)[..n - 1] == Advances(n - 1) && Advances(n)[n - 1] == Advance;
      UndoSettles(s, before, plan, n - 1);
      UndoAdvances(Run(s, Advances(n - 1)), before, plan, s.phase.left - (n - 1), s.journal);
    }
  }

  ghost predicate Changes(before: Files, plan: seq<Mutation>, i: int) {
    0 <= i < |plan| && Lookup(before, plan[i].path) != Outcome(plan[i])
  }

  ghost predicate ChangesAtMostOnePath(before: Files, plan: seq<Mutation>) {
    forall i, j :: Changes(before, plan, i) && Changes(before, plan, j) ==> i == j
  }

  ghost predicate AlwaysAtomic(before: Files, plan: seq<Mutation>) {
    forall events :: NoBegin(events) && Settled(Run(Started(before, plan), events)) ==>
      var files := Run(Started(before, plan), events).files;
      files == before || files == After(before, plan)
  }

  /**
   * Without that hypothesis atomicity fails in general: an exception after the commit point
   * starts a rollback while the disk says "committed". It survives exactly for the plans
   * that change at most one path.
   */
  lemma AlwaysAtomicIff(before: Files, plan: seq<Mutation>)
    requires ValidPlan(plan) && Fresh(before, plan)
    ensures AlwaysAtomic(before, plan) <==> ChangesAtMostOnePath(before, plan)
  {
    if ChangesAtMostOnePath(before, plan) {
      forall events | NoBegin(events) && Settled(Run(Started(before, plan), events))
        ensures var files := Run(Started(before, plan), events).files;
                files == before || files == After(before, plan)
      {
        LooseRun(before, plan, events);
        var files := Run(Started(before, plan), events).files;
        AllOrNothing(files, before, plan);
        if i :| Changes(before, plan, i) && Lookup(files, plan[i].path) == Outcome(plan[i]) {
          forall j | 0 <= j < |plan| ensures Lookup(files, plan[j].path) == Outcome(plan[j]) {
            assert j == i || !Changes(before, plan, j);
          }
          assert AppliedTo(files, before, plan, |plan|);
        } else {
          forall j | 0 <= j < |plan| ensures Lookup(files, plan[j].path) == Lookup(before, plan[j].path) {
            assert Changes(before, plan, j) ==> Lookup(files, plan[j].path) != Outcome(plan[j]);
          }
          assert AppliedTo(files, before, plan, 0);
        }
      }
    } else {
      var i, j :| Changes(before, plan, i) && Changes(before, plan, j) && i < j;
      HalfUndone(before, plan, i, j);
    }
  }

  /** The half-undone trace: commit, fail to remove the journal, undo down to `j`, crash, recover. */
  lemma HalfUndone(before: Files, plan: seq<Mutation>, i: nat, j: nat)
    requires ValidPlan(plan) && Fresh(before, plan)
    requires i < j && Changes(before, plan, i) && Changes(before, plan, j)
    ensures !AlwaysAtomic(before, plan)
  {
    var undoing := CommittedThenFails(before, plan);
    var b := Advances(|plan|) + [Advance, FailBefore];
    var c := b + Advances(|plan| - j);
    RunConcat(Started(before, plan), b, Advances(|plan| - j));
    HalfUndoneAt(undoing, before, plan, i, j);
    RunTwo(Started(before, plan), c, Crash, Recover);
    NotAtomic(before, plan, i, j, c + [Crash, Recover]);
  }

  lemma HalfUndoneAt(undoing: State, before: Files, plan: seq<Mutation>, i: nat, j: nat)
    requires ValidPlan(plan) && i < j < |plan|
    requires Loose(undoing, before, plan) && AppliedTo(undoing.files, before, plan, |plan|)
    requires undoing.phase == Undoing(Entries(before, plan), |plan|)
    ensures var half := Run(undoing, Advances(|plan| - j));
            && half.phase == Undoing(Entries(before, plan), j) && half.journal == undoing.journal
            && Lookup(half.files, plan[i].path) == Outcome(plan[i])
            && Lookup(half.files, plan[j].path) == Lookup(before, plan[j].path)
  {
    UndoSettles(undoing, before, plan, |plan| - j);
  }

  lemma NotAtomic(before: Files, plan: seq<Mutation>, i: nat, j: nat, events: seq<Event>)
    requires ValidPlan(plan) && NoBegin(events) && Settled(Run(Started(before, plan), events))
    requires Changes(before, plan, i) && Changes(before, plan, j)
    requires var files := Run(Started(before, plan), events).files;
             Lookup(files, plan[i].path) == Outcome(plan[i])
               && Lookup(files, plan[j].path) == Lookup(before, plan[j].path)
    ensures !AlwaysAtomic(before, plan)
  {
    AfterAt(before, plan);
  }

  lemma CommittedThenFails(before: Files, plan: seq<Mutation>) returns (undoing: State)
    requires ValidPlan(plan) && Fresh(before, plan)
    ensures undoing == Run(Started(before, plan), Advances(|plan|) + [Advance, FailBefore])
    ensures undoing.phase == Undoing(Entries(before, plan), |plan|)
    ensures undoing.journal == Some(Journal(Committed, Entries(before, plan)))
    ensures Loose(undoing, before, plan) && AppliedTo(undoing.files, before, plan, |plan|)
  {
    undoing := Run(Started(before, plan), Advances(|plan|) + [Advance, FailBefore]);
    ApplySucceeds(before, plan, |plan|);
    RunTwo(Started(before, plan), Advances(|plan|), Advance, FailBefore);
  }

  lemma {:induction false} ApplySucceeds(before: Files, plan: seq<Mutation>, n: nat)
    requires ValidPlan(plan) && Fresh(before, plan) && n <= |plan|
    ensures var s := Run(Started(before, plan), Advances(n));
            s.phase == Applying(plan, Entries(before, plan), n) && Loose(s, before, plan)
  {
    if n > 0 {
      assert Advances(n)[..n - 1] == Advances(n - 1);
      ApplySucceeds(before, plan, n - 1);
      LooseStep(Run(Started(before, plan), Advances(n - 1)), Advance, before, plan);
    }
  }

  // ---------------------------------------------------------------- rollback

  /** The disk after a rollback has come down from `high` to `low`, and where it stopped. */
  ghost function Rollback(files: Files, entries: seq<Entry>, left: nat): (Files, nat)
    requires left <= |entries|
    decreases left
  {
    if left == 0 || !Restorable(files, entries[left - 1]) then (files, left)
    else Rollback(RestoreEntry(files, entries[left - 1]), entries, left - 1)
  }

  ghost predicate DistinctEntries(entries: seq<Entry>) {
    forall i, j :: 0 <= i < j < |entries| ==> entries[i].path != entries[j].path
  }

  /**
   * Rollback against arbitrary outside edits: it stops at the highest entry whose path holds
   * neither image, has restored every entry above, and has touched nothing else.
   */
  lemma {:induction false} RollbackIsSafe(files: Files, entries: seq<Entry>, left: nat)
    requires left <= |entries| && DistinctEntries(entries)
    ensures var (result, stop) := Rollback(files, entries, left);
            && stop <= left
            && (stop > 0 ==> !Restorable(files, entries[stop - 1]))
            && (forall i :: stop <= i < left ==>
                  Restorable(files, entries[i]) && Lookup(result, entries[i].path) == entries[i].before)
            && (forall p :: (forall i :: stop <= i < left ==> entries[i].path != p) ==>
                  Lookup(result, p) == Lookup(files, p))
    decreases left
  {
    if left > 0 && Restorable(files, entries[left - 1]) {
      var next := RestoreEntry(files, entries[left - 1]);
      PutAt(files, entries[left - 1].path, entries[left - 1].before);
      RollbackIsSafe(next, entries, left - 1);
      var (result, stop) := Rollback(next, entries, left - 1);
      forall i | stop <= i < left
        ensures Restorable(files, entries[i]) && Lookup(result, entries[i].path) == entries[i].before
      {
        if i < left - 1 {
          assert Lookup(next, entries[i].path) == Lookup(files, entries[i].path);
        }
      }
      if stop > 0 {
        assert Lookup(next, entries[stop - 1].path) == Lookup(files, entries[stop - 1].path);
      }
    }
  }

  /** Re-running a rollback that was cut short at any point gives the result of one uncut rollback. */
  lemma RollbackIsReentrant(files: Files, partial: Files, entries: seq<Entry>, cut: nat)
    requires cut <= |entries| && DistinctEntries(entries)
    requires forall i :: cut <= i < |entries| ==>
               Restorable(files, entries[i]) && Lookup(partial, entries[i].path) == entries[i].before
    requires forall p :: (forall i :: cut <= i < |entries| ==> entries[i].path != p) ==>
               Lookup(partial, p) == Lookup(files, p)
    ensures Rollback(partial, entries, |entries|) == Rollback(files, entries, |entries|)
  {
    var (r1, s1) := Rollback(partial, entries, |entries|);
    var (r2, s2) := Rollback(files, entries, |entries|);
    RollbackIsSafe(files, entries, |entries|);
    RollbackIsSafe(partial, entries, |entries|);
    forall i | 0 <= i < cut ensures Lookup(partial, entries[i].path) == Lookup(files, entries[i].path) {
    }
    forall i | 0 <= i < |entries| ensures Restorable(partial, entries[i]) == Restorable(files, entries[i]) {
    }
    assert s1 == s2 <= cut;
    forall p ensures Lookup(r1, p) == Lookup(r2, p) {
      if forall i :: s1 <= i < |entries| ==> entries[i].path != p {
        assert Lookup(r1, p) == Lookup(partial, p);
      }
    }
    SameLookups(r1, r2);
  }

  // ---------------------------------------------------------------- outside edits

  /** Content that is neither the recorded before-image nor what the after-digest was taken of. */
  ghost predicate Edited(current: Option<Content>, entry: Entry) {
    && current != entry.before
    && match entry.after
       case Missing => current.Some?
       case Matching(checksum) => current.None? || current.value != checksum.preimage
  }

  lemma RestorableIff(files: Files, entry: Entry)
    ensures Restorable(files, entry) <==> !Edited(Lookup(files, entry.path), entry)
  {
    MatchesOne(Lookup(files, entry.path), entry.after);
  }

  /** A path that no entry names, or that holds an edit as far as every entry for it can tell. */
  ghost predicate EditedAt(files: Files, entries: seq<Entry>, path: Path) {
    forall i :: 0 <= i < |entries| && entries[i].path == path ==> Edited(Lookup(files, path), entries[i])
  }

  ghost predicate KeepsEdits(files: Files, later: Files, entries: seq<Entry>) {
    forall path :: EditedAt(files, entries, path) ==> Lookup(later, path) == Lookup(files, path)
  }

  lemma KeepsEditsChain(files: Files, later: Files, last: Files, entries: seq<Entry>)
    requires KeepsEdits(files, later, entries) && KeepsEdits(later, last, entries)
    ensures KeepsEdits(files, last, entries)
  {
    forall path | EditedAt(files, entries, path) ensures Lookup(last, path) == Lookup(files, path) {
      assert EditedAt(later, entries, path);
    }
  }

  lemma RestoreKeepsEdits(files: Files, entries: seq<Entry>, i: nat)
    requires i < |entries| && Restorable(files, entries[i])
    ensures KeepsEdits(files, RestoreEntry(files, entries[i]), entries)
  {
    RestorableIff(files, entries[i]);
    PutAt(files, entries[i].path, entries[i].before);
  }

  /** A process that at most rolls back these entries. */
  ghost predicate RollsBack(s: State, entries: seq<Entry>) {
    && (s.journal.Some? ==> s.journal.value.entries == entries)
    && (s.phase.Down? || (s.phase.Undoing? && s.phase.entries == entries))
  }

  /**
   * Whatever was edited outside since a journal was written, no sequence of recoveries, with
   * exceptions and crashes anywhere in them, overwrites it.
   */
  lemma {:induction false} EditsSurvive(s: State, entries: seq<Entry>, events: seq<Event>)
    requires RollsBack(s, entries) && NoBegin(events)
    ensures RollsBack(Run(s, events), entries) && KeepsEdits(s.files, Run(s, events).files, entries)
  {
    if events != [] {
      var n := |events| - 1;
      var now := Run(s, events[..n]);
      EditsSurvive(s, entries, events[..n]);
      EditsSurviveStep(now, entries, events[n]);
      KeepsEditsChain(s.files, now.files, Next(now, events[n]).files, entries);
    }
  }

  lemma EditsSurviveStep(s: State, entries: seq<Entry>, e: Event)
    requires RollsBack(s, entries) && !e.Begin?
    ensures RollsBack(Next(s, e), entries) && KeepsEdits(s.files, Next(s, e).files, entries)
  {
    if s.phase.Undoing? && 0 < s.phase.left <= |entries| && Restorable(s.files, entries[s.phase.left - 1]) {
      RestoreKeepsEdits(s.files, entries, s.phase.left - 1);
    }
  }

  // ---------------------------------------------------------------- the installer

  /** How one disk step ends: it may take effect or not, and may raise or be cut by a crash. */
  datatype Fate = Done | FailedBefore | FailedAfter | Crashed

  function EventOf(fate: Fate): Event {
    match fate
    case Done => Advance
    case FailedBefore => FailBefore
    case FailedAfter => FailAfter
    case Crashed => Crash
  }

  lemma RestorableByAfter(files: Files, entries: seq<Entry>, left: nat)
    requires 0 < left <= |entries| && Matches(Lookup(files, entries[left - 1].path), entries[left - 1].after)
    requires Lookup(files, entries[left - 1].path) != entries[left - 1].before
    ensures var entry := entries[left - 1];
            var restored := Put(files, entry.path, entry.before);
            && Restorable(files, entry) && RestoreEntry(files, entry) == restored
            && Rollback(files, entries, left) == Rollback(restored, entries, left - 1)
  {
  }

  /** However the write of a before-image ends, the protocol has an event for it. */
  lemma UndoneBy(s: State, files: Files, entries: seq<Entry>, left: nat, fate: Fate)
    requires s.phase == Undoing(entries, left) && 0 < left <= |entries| && Restorable(s.files, entries[left - 1])
    requires files == if fate.Done? || fate.FailedAfter? then RestoreEntry(s.files, entries[left - 1]) else s.files
    ensures Next(s, EventOf(fate)) == State(files, s.journal, if fate.Done? then Undoing(entries, left - 1) else Down)
  {
  }

  /** However a guarded mutation ends, the protocol has an event for it. */
  lemma PerformedBy(s: State, files: Files, plan: seq<Mutation>, entries: seq<Entry>, done: nat, fate: Fate)
    requires s.phase == Applying(plan, entries, done) && done < |plan|
    requires Matches(Lookup(s.files, plan[done].path), plan[done].before)
    requires files == if fate.Done? || fate.FailedAfter? then Perform(s.files, plan[done]) else s.files
    ensures Next(s, EventOf(fate)) == State(files, s.journal,
              if fate.Done? then Applying(plan, entries, done + 1)
              else if fate.Crashed? then Down else Undoing(entries, |entries|))
  {
  }

  lemma CommittedBy(s: State, journal: Option<Journal>, plan: seq<Mutation>, entries: seq<Entry>, fate: Fate)
    requires s.phase == Applying(plan, entries, |plan|)
    requires journal == if fate.Done? || fate.FailedAfter? then Some(Journal(Committed, entries)) else s.journal
    ensures Next(s, EventOf(fate)) == State(s.files, journal,
              if fate.Done? then Cleaning(entries) else if fate.Crashed? then Down else Undoing(entries, |entries|))
  {
  }

  lemma CleanedBy(s: State, journal: Option<Journal>, entries: seq<Entry>, fate: Fate)
    requires s.phase == Cleaning(entries)
    requires journal == if fate.Done? || fate.FailedAfter? then None else s.journal
    ensures Next(s, EventOf(fate)) == State(s.files, journal,
              if fate.Done? || fate.Crashed? then Down else Undoing(entries, |entries|))
  {
  }

  datatype Reply = Refused | Applied | Failed | RolledBack | CleanedUp | Nothing | Interrupted

  /** The code; its ghost trace shows that it takes exactly the steps of the protocol. */
  class Installer {
    var files: Files
    var journal: Option<Journal>
    /** Where the last transaction began, and the protocol events since. */
    ghost var origin: State
    ghost var trace: seq<Event>
    /** The protocol state they lead to. */
    ghost var now: State
    /** How many disk steps have not ended well. */
    ghost var failures: nat

    constructor (disk: Files, pending: Option<Journal>)
      ensures files == disk && journal == pending && At(Down)
      ensures origin == State(disk, pending, Down) && trace == [] && failures == 0
    {
      files, journal, origin, trace := disk, pending, State(disk, pending, Down), [];
      now := State(disk, pending, Down);
      failures := 0;
    }

    /** The disk and the running process are where the recorded events take the protocol. */
    ghost predicate At(phase: Phase)
      reads this
    {
      now == State(files, journal, phase) && Traced()
    }

    ghost predicate Traced()
      reads this
    {
      Run(origin, trace) == now && NoBegin(trace)
    }

    ghost method Record(e: Event)
      requires Traced() && !e.Begin?
      modifies this`trace, this`now
      ensures Traced() && trace == old(trace) + [e] && now == Next(old(now), e)
    {
      trace := trace + [e];
      now := Next(now, e);
      assert trace[..|trace| - 1] == old(trace);
    }

    /** Publishes a whole file, or unlinks it; the environment decides how the step ends. */
    method Store(path: Path, content: Option<Content>) returns (fate: Fate)
      modifies this`files, this`failures
      ensures failures == old(failures) + if fate.Done? then 0 else 1
      ensures fate.Done? || fate.FailedAfter? ==> files == Put(old(files), path, content)
      ensures fate.FailedBefore? || fate.Crashed? ==> files == old(files)
    {
      fate := *;
      failures := failures + if fate.Done? then 0 else 1;
      if fate.Done? || fate.FailedAfter? {
        files := Put(files, path, content);
      }
    }

    /** The same for the journal, which no mutation may target. */
    method StoreJournal(next: Option<Journal>) returns (fate: Fate)
      modifies this`journal, this`failures
      ensures failures == old(failures) + if fate.Done? then 0 else 1
      ensures fate.Done? || fate.FailedAfter? ==> journal == next
      ensures fate.FailedBefore? || fate.Crashed? ==> journal == old(journal)
    {
      fate := *;
      failures := failures + if fate.Done? then 0 else 1;
      if fate.Done? || fate.FailedAfter? {
        journal := next;
      }
    }

    /** Checks every precondition of the plan while collecting before-images. */
    method CreateJournal(plan: seq<Mutation>) returns (result: Option<seq<Entry>>)
      ensures result.Some? <==> ValidPlan(plan) && Fresh(files, plan)
      ensures result.Some? <==> ValidPlan(plan) && !HasStale(files, plan)
      ensures result.Some? ==> result.value == Entries(files, plan)
    {
      FreshIff(files, plan);
      var valid := ValidatePlan(plan);
      if !valid {
        return None;
      }
      var entries: seq<Entry> := [];
      for i := 0 to |plan|
        invariant |entries| == i
        invariant forall k :: 0 <= k < i ==> Matches(Lookup(files, plan[k].path), plan[k].before)
        invariant forall k :: 0 <= k < i ==>
                    entries[k] == Entry(plan[k].path, Lookup(files, plan[k].path), AfterImage(plan[k]))
      {
        var m := plan[i];
        var current := Lookup(files, m.path);
        if !Matches(current, m.before) {
          return None;
        }
        entries := entries + [Entry(m.path, current, AfterImage(m))];
      }
      return Some(entries);
    }

    /** Restores the last entry not yet restored. */
    method UndoOne(entries: seq<Entry>, left: nat) returns (undone: bool)
      requires 0 < left <= |entries| && At(Undoing(entries, left))
      modifies this`files, this`trace, this`now, this`failures
      ensures old(failures) <= failures
      ensures undone ==> At(Undoing(entries, left - 1))
      ensures undone ==> files == RestoreEntry(old(files), entries[left - 1])
      ensures undone ==> Rollback(old(files), entries, left) == Rollback(files, entries, left - 1)
      ensures failures == old(failures) && !undone ==> Rollback(old(files), entries, left).1 > 0
      ensures !undone ==> At(Down)
      ensures KeepsEdits(old(files), files, entries)
    {
      var entry := entries[left - 1];
      if Lookup(files, entry.path) == entry.before {
        assert RestoreEntry(files, entry) == files;
        Record(Advance);
        return true;
      }
      if !Matches(Lookup(files, entry.path), entry.after) {
        Record(Advance);
        return false;
      }
      RestorableByAfter(files, entries, left);
      RestoreKeepsEdits(files, entries, left - 1);
      var fate := Store(entry.path, entry.before);
      UndoneBy(now, files, entries, left, fate);
      Record(EventOf(fate));
      undone := fate.Done?;
    }

    /** Restores before-images, last entry first; stops where the disk holds neither image. */
    method RollbackJournal(entries: seq<Entry>) returns (finished: bool)
      requires At(Undoing(entries, |entries|))
      modifies this`files, this`trace, this`now, this`failures
      ensures old(failures) <= failures
      ensures failures == old(failures) && !finished ==> Rollback(old(files), entries, |entries|).1 > 0
      ensures At(if finished then Undoing(entries, 0) else Down)
      ensures finished ==> (files, 0) == Rollback(old(files), entries, |entries|)
      ensures KeepsEdits(old(files), files, entries)
    {
      var left := |entries|;
      while left > 0
        invariant 0 <= left <= |entries| && old(failures) <= failures
        invariant At(Undoing(entries, left))
        invariant Rollback(files, entries, left) == Rollback(old(files), entries, |entries|)
        invariant KeepsEdits(old(files), files, entries)
      {
        ghost var earlier := files;
        var undone := UndoOne(entries, left);
        KeepsEditsChain(old(files), earlier, files, entries);
        if !undone {
          return false;
        }
        left := left - 1;
      }
      return true;
    }

    /** Rolls back, then drops the journal. */
    method RollbackAndClear(entries: seq<Entry>) returns (cleared: bool)
      requires At(Undoing(entries, |entries|))
      modifies this`files, this`journal, this`trace, this`now, this`failures
      ensures old(failures) <= failures
      ensures failures == old(failures) && !cleared ==> Rollback(old(files), entries, |entries|).1 > 0
      ensures At(Down)
      ensures cleared ==> journal.None? && (files, 0) == Rollback(old(files), entries, |entries|)
      ensures KeepsEdits(old(files), files, entries)
    {
      var finished := RollbackJournal(entries);
      if !finished {
        return false;
      }
      var fate := StoreJournal(None);
      Record(EventOf(fate));
      cleared := fate.Done?;
    }

    /** Performs the mutations in order until one fails its guard, raises, or is cut by a crash. */
    method PerformAll(plan: seq<Mutation>, entries: seq<Entry>) returns (fate: Fate)
      requires At(Applying(plan, entries, 0)) && ValidPlan(plan)
      modifies this`files, this`trace, this`now, this`failures
      ensures old(failures) <= failures
      ensures fate.Done? ==> failures == old(failures)
      ensures failures == old(failures) && !fate.Done? ==> !Fresh(old(files), plan)
      ensures fate.Done? ==> At(Applying(plan, entries, |plan|))
      ensures fate.Crashed? ==> At(Down)
      ensures !fate.Done? && !fate.Crashed? ==> At(Undoing(entries, |entries|))
    {
      for done := 0 to |plan|
        invariant At(Applying(plan, entries, done)) && failures == old(failures)
        invariant forall k :: done <= k < |plan| ==> Lookup(files, plan[k].path) == Lookup(old(files), plan[k].path)
      {
        var m := plan[done];
        if !Matches(Lookup(files, m.path), m.before) {
          Record(FailBefore);
          return FailedBefore;
        }
        fate := Store(m.path, Outcome(m));
        PerformedBy(now, files, plan, entries, done, fate);
        Record(EventOf(fate));
        if !fate.Done? {
          return;
        }
      }
      fate := Done;
    }

    /** The commit point. */
    method MarkCommitted(plan: seq<Mutation>, entries: seq<Entry>) returns (fate: Fate)
      requires At(Applying(plan, entries, |plan|))
      modifies this`journal, this`trace, this`now, this`failures
      ensures failures == old(failures) + if fate.Done? then 0 else 1
      ensures fate.Done? ==> At(Cleaning(entries))
      ensures fate.Crashed? ==> At(Down)
      ensures !fate.Done? && !fate.Crashed? ==> At(Undoing(entries, |entries|))
    {
      fate := StoreJournal(Some(Journal(Committed, entries)));
      CommittedBy(now, journal, plan, entries, fate);
      Record(EventOf(fate));
    }

    method RemoveCommitted(entries: seq<Entry>) returns (fate: Fate)
      requires At(Cleaning(entries))
      modifies this`journal, this`trace, this`now, this`failures
      ensures failures == old(failures) + if fate.Done? then 0 else 1
      ensures fate.Done? ==> At(Down) && journal.None?
      ensures fate.Crashed? ==> At(Down)
      ensures !fate.Done? && !fate.Crashed? ==> At(Undoing(entries, |entries|))
    {
      fate := StoreJournal(None);
      CleanedBy(now, journal, entries, fate);
      Record(EventOf(fate));
    }

    /**
     * Applies one plan under a journal. `Failed` means an exception was raised and the rollback
     * finished; `Interrupted` that the process ended early, which recovery must sort out.
     */
    method Apply(plan: seq<Mutation>) returns (reply: Reply)
      requires At(Down)
      modifies this
      ensures At(Down)
      ensures reply.Refused? <==> !(old(journal).None? && ValidPlan(plan) && Fresh(old(files), plan))
      ensures reply.Refused? <==> old(journal).Some? || !ValidPlan(plan) || HasStale(old(files), plan)
      ensures reply.Refused? ==> files == old(files) && journal == old(journal)
      ensures !reply.Refused? ==>
                origin == Started(old(files), plan) || (files == old(files) && journal.None?)
      ensures reply.Applied? ==> files == After(old(files), plan) && journal.None?
      ensures reply.Failed? ==> files == old(files) && journal.None?
      ensures old(failures) <= failures && (!reply.Refused? ==> (reply.Applied? <==> failures == old(failures)))
      ensures reply in {Refused, Applied, Failed, Interrupted}
    {
      FreshIff(files, plan);
      if journal.Some? {
        return Refused;
      }
      var captured := CreateJournal(plan);
      if captured.None? {
        return Refused;
      }
      var entries := captured.value;
      ghost var before := files;
      var fate := StoreJournal(Some(Journal(Active, entries)));
      if fate.FailedBefore? || fate.Crashed? {
        return Interrupted;
      }
      origin, trace, now := Started(before, plan), [], Started(before, plan);
      if fate.FailedAfter? {
        Record(Crash);
        return Interrupted;
      }
      fate := PerformAll(plan, entries);
      if fate.Done? {
        LooseRun(before, plan, trace);
        AllOrNothing(files, before, plan);
        fate := MarkCommitted(plan, entries);
        if fate.Done? {
          fate := RemoveCommitted(entries);
        }
      }
      if fate.Done? {
        return Applied;
      }
      if fate.Crashed? {
        return Interrupted;
      }
      LooseRun(before, plan, trace);
      RollbackRestores(files, before, plan);
      var cleared := RollbackAndClear(entries);
      reply := if cleared then Failed else Interrupted;
    }

    /**
     * Finishes a committed transaction or rolls an active one back. When the pending journal
     * stems from a transaction that met no late exception, the outcome is all or nothing.
     */
    method Recover() returns (reply: Reply)
      requires At(Down)
      modifies this
      ensures At(Down) && origin == old(origin)
      ensures reply.Nothing? <==> old(journal).None?
      ensures reply.CleanedUp? ==> old(journal).Some? && old(journal).value.status.Committed?
      ensures reply.RolledBack? ==> old(journal).Some? && old(journal).value.status.Active?
      ensures reply.Nothing? || reply.CleanedUp? ==> files == old(files) && journal.None?
      ensures reply.RolledBack? ==> journal.None?
      ensures reply.RolledBack? ==>
                (files, 0) == Rollback(old(files), old(journal).value.entries, |old(journal).value.entries|)
      ensures forall before, plan ::
                origin == Started(before, plan) && ValidPlan(plan) && Fresh(before, plan) &&
                NoLateFailure(origin, trace) ==>
                && (reply.RolledBack? ==> files == before)
                && (reply.CleanedUp? ==> files == After(before, plan))
                && (reply.Nothing? ==> files == before || files == After(before, plan))
      ensures old(failures) <= failures
      ensures failures == old(failures) ==>
                (reply.Interrupted? ==>
                   old(journal).Some?
                     && Rollback(old(files), old(journal).value.entries, |old(journal).value.entries|).1 > 0)
      ensures old(journal).Some? ==> KeepsEdits(old(files), files, old(journal).value.entries)
      ensures reply in {Nothing, CleanedUp, RolledBack, Interrupted}
    {
      ghost var earlier := trace;
      if journal.None? {
        reply := Nothing;
      } else {
        var entries := journal.value.entries;
        if journal.value.status.Committed? {
          var fate := StoreJournal(None);
          if fate.Done? || fate.FailedAfter? {
            Record(Event.Recover);
          }
          reply := if fate.Done? then CleanedUp else Interrupted;
        } else {
          Record(Event.Recover);
          var cleared := RollbackAndClear(entries);
          reply := if cleared then RolledBack else Interrupted;
        }
      }
      forall before, plan |
        origin == Started(before, plan) && ValidPlan(plan) && Fresh(before, plan) && NoLateFailure(origin, trace)
        ensures reply.RolledBack? ==> files == before
        ensures reply.CleanedUp? ==> files == After(before, plan)
        ensures reply.Nothing? ==> files == before || files == After(before, plan)
      {
        LooseRun(before, plan, earlier);
        RollbackRestores(old(files), before, plan);
        if reply.CleanedUp? {
          NoLateFailurePrefix(origin, earlier, Event.Recover);
        }
        if !reply.RolledBack? && !reply.Interrupted? {
          Atomicity(before, plan, earlier);
        }
      }
    }
  }

  /** Rolling back from any disk the protocol can reach gives the state before the plan. */
  lemma RollbackRestores(files: Files, before: Files, plan: seq<Mutation>)
    requires ValidPlan(plan) && Between(files, before, plan)
    ensures Rollback(files, Entries(before, plan), |plan|) == (before, 0)
  {
    var entries := Entries(before, plan);
    RollbackIsSafe(files, entries, |plan|);
    var (result, stop) := Rollback(files, entries, |plan|);
    assert forall i :: 0 <= i < |plan| ==> Restorable(files, entries[i]);
    forall p ensures Lookup(result, p) == Lookup(before, p) {
      if Touches(plan, p) {
        var i :| 0 <= i < |plan| && plan[i].path == p;
        assert entries[i].path == p;
      } else {
        assert forall i :: 0 <= i < |plan| ==> entries[i].path != p;
      }
    }
    SameLookups(result, before);
  }
}
