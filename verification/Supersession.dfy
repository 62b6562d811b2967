/** Supersession among memory records: the search with explicit frames rejects exactly the cyclic ones. */
module Supersession {
  import opened Values
  import opened Graphs

  datatype Record = Record(id: Id, supersedes: seq<Id>, content: string)

  function RecordIds(records: seq<Record>): seq<Id> {
    seq(|records|, i requires 0 <= i < |records| => records[i].id)
  }

  function Superseded(records: seq<Record>): seq<Id> {
    if records == [] then [] else Superseded(records[..|records| - 1]) + records[|records| - 1].supersedes
  }

  /** What each record supersedes; of records with one id the last counts. */
  function EdgesOf(records: seq<Record>): Graph {
    if records == [] then map[]
    else
      var last := records[|records| - 1];
      EdgesOf(records[..|records| - 1])[last.id := last.supersedes]
  }

  ghost predicate Once(ids: seq<Id>) {
    forall id :: multiset(ids)[id] <= 1
  }

  // ---------------------------------------------------------------- sequences

  lemma OnceMore(ids: seq<Id>, id: Id)
    requires Once(ids)
    ensures Once(ids + [id]) <==> id !in ids
  {
    assert multiset(ids + [id])[id] == multiset(ids)[id] + 1;
  }

  lemma OncePart(a: seq<Id>, b: seq<Id>)
    requires multiset(a) <= multiset(b) && Once(b)
    ensures Once(a)
  {
    forall id ensures multiset(a)[id] <= 1 {
      assert multiset(b)[id] <= 1;
    }
  }

  lemma {:induction false} SupersededConcat(a: seq<Record>, b: seq<Record>)
    ensures Superseded(a + b) == Superseded(a) + Superseded(b)
  {
    if b == [] {
      assert a + b == a;
    } else {
      assert (a + b)[..|a + b| - 1] == a + b[..|b| - 1];
      SupersededConcat(a, b[..|b| - 1]);
    }
  }

  lemma {:induction false} SupersededHas(records: seq<Record>, i: nat)
    requires i < |records|
    ensures multiset(records[i].supersedes) <= multiset(Superseded(records))
  {
    if i < |records| - 1 {
      SupersededHas(records[..|records| - 1], i);
    }
  }

  lemma {:induction false} EdgesOfAt(records: seq<Record>)
    ensures forall id :: id in EdgesOf(records) <==> id in RecordIds(records)
  {
    if records != [] {
      EdgesOfAt(records[..|records| - 1]);
      assert RecordIds(records) == RecordIds(records[..|records| - 1]) + [records[|records| - 1].id];
    }
  }

  lemma {:induction false} EdgesOfRecord(records: seq<Record>, i: nat)
    requires Once(RecordIds(records)) && i < |records|
    ensures records[i].id in EdgesOf(records) && EdgesOf(records)[records[i].id] == records[i].supersedes
  {
    var before, last := records[..|records| - 1], records[|records| - 1];
    assert RecordIds(records) == RecordIds(before) + [last.id];
    if i < |records| - 1 {
      OncePart(RecordIds(before), RecordIds(records));
      EdgesOfRecord(before, i);
      assert RecordIds(before)[i] == records[i].id;
      OnceMore(RecordIds(before), last.id);
    }
  }

  // ---------------------------------------------------------------- supersession is acyclic

  /** The search keeps a stack of these instead of recursing: a node and the index of its next target. */
  datatype Frame = Frame(id: Id, nextTarget: nat)

  function TargetsOf(g: Graph, id: Id): seq<Id> {
    if id in g then g[id] else []
  }

  function FrameIds(stack: seq<Frame>): seq<Id> {
    seq(|stack|, i requires 0 <= i < |stack| => stack[i].id)
  }

  /** The targets of a frame that are finished: its latest may still be open above it. */
  function Finished(stack: seq<Frame>, i: nat): int
    requires i < |stack|
  {
    if i + 1 < |stack| then stack[i].nextTarget - 1 else stack[i].nextTarget
  }

  ghost predicate FrameOk(g: Graph, stack: seq<Frame>, visited: set<Id>, i: nat)
    requires i < |stack|
  {
    var targets := TargetsOf(g, stack[i].id);
    && stack[i].nextTarget <= |targets|
    && (i + 1 < |stack| ==> 0 < stack[i].nextTarget && targets[stack[i].nextTarget - 1] == stack[i + 1].id)
    && forall k :: 0 <= k < Finished(stack, i) ==> targets[k] in visited
  }

  /** The open frames form a path, and what is finished is closed under edges and ordered. */
  ghost predicate Searching(g: Graph, stack: seq<Frame>, visiting: set<Id>, visited: set<Id>, order: seq<Id>) {
    && (forall id :: id in visiting <==> id in FrameIds(stack))
    && (forall i, j :: 0 <= i < j < |stack| ==> stack[i].id != stack[j].id)
    && visiting !! visited
    && (forall id :: id in visited <==> id in order)
    && Ordered(g, order)
    && forall i :: 0 <= i < |stack| ==> FrameOk(g, stack, visited, i)
  }

  lemma FrameIdsOfPop(stack: seq<Frame>, id: Id)
    requires stack != [] && forall i, j :: 0 <= i < j < |stack| ==> stack[i].id != stack[j].id
    ensures id in FrameIds(stack[..|stack| - 1]) <==> id in FrameIds(stack) && id != stack[|stack| - 1].id
  {
    var n := |stack| - 1;
    if id in FrameIds(stack) && id != stack[n].id {
      var i :| 0 <= i < |stack| && FrameIds(stack)[i] == id;
      assert FrameIds(stack[..n])[i] == id;
    }
    if id in FrameIds(stack[..n]) {
      var i :| 0 <= i < n && FrameIds(stack[..n])[i] == id;
      assert FrameIds(stack)[i] == id;
    }
  }

  lemma PopFrame(g: Graph, stack: seq<Frame>, visiting: set<Id>, visited: set<Id>, order: seq<Id>)
    requires Searching(g, stack, visiting, visited, order) && stack != []
    requires stack[|stack| - 1].nextTarget == |TargetsOf(g, stack[|stack| - 1].id)|
    ensures var id := stack[|stack| - 1].id;
            Searching(g, stack[..|stack| - 1], visiting - {id}, visited + {id}, order + [id])
  {
    var n := |stack| - 1;
    var id, rest := stack[n].id, stack[..n];
    assert FrameOk(g, stack, visited, n);
    assert forall b :: Edge(g, id, b) ==> b in order;
    OrderedMore(g, order, id);
    forall x ensures x in visiting - {id} <==> x in FrameIds(rest) {
      FrameIdsOfPop(stack, x);
    }
    forall i | 0 <= i < |rest| ensures FrameOk(g, rest, visited + {id}, i) {
      assert FrameOk(g, stack, visited, i);
    }
  }

  function Advanced(stack: seq<Frame>): seq<Frame>
    requires stack != []
  {
    var n := |stack| - 1;
    stack[n := Frame(stack[n].id, stack[n].nextTarget + 1)]
  }

  lemma SkipTarget(g: Graph, stack: seq<Frame>, visiting: set<Id>, visited: set<Id>, order: seq<Id>)
    requires Searching(g, stack, visiting, visited, order) && stack != []
    requires stack[|stack| - 1].nextTarget < |TargetsOf(g, stack[|stack| - 1].id)|
    requires TargetsOf(g, stack[|stack| - 1].id)[stack[|stack| - 1].nextTarget] in visited
    ensures Searching(g, Advanced(stack), visiting, visited, order)
  {
    var next := Advanced(stack);
    assert FrameIds(next) == FrameIds(stack);
    forall i | 0 <= i < |next| ensures FrameOk(g, next, visited, i) {
      assert FrameOk(g, stack, visited, i);
    }
  }

  lemma PushTarget(g: Graph, stack: seq<Frame>, visiting: set<Id>, visited: set<Id>, order: seq<Id>, target: Id)
    requires Searching(g, stack, visiting, visited, order) && stack != []
    requires stack[|stack| - 1].nextTarget < |TargetsOf(g, stack[|stack| - 1].id)|
    requires TargetsOf(g, stack[|stack| - 1].id)[stack[|stack| - 1].nextTarget] == target
    requires target !in visiting && target !in visited
    ensures Searching(g, Advanced(stack) + [Frame(target, 0)], visiting + {target}, visited, order)
  {
    var next := Advanced(stack) + [Frame(target, 0)];
    assert FrameIds(next) == FrameIds(stack) + [target];
    forall i | 0 <= i < |stack| ensures stack[i].id != target {
      assert FrameIds(stack)[i] == stack[i].id;
    }
    forall i | 0 <= i < |next| ensures FrameOk(g, next, visited, i) {
      if i < |stack| {
        assert FrameOk(g, stack, visited, i);
      }
    }
  }

  lemma OpenTargetClosesCycle(g: Graph, stack: seq<Frame>, visiting: set<Id>, visited: set<Id>, order: seq<Id>,
                              target: Id)
    requires Searching(g, stack, visiting, visited, order) && stack != []
    requires stack[|stack| - 1].nextTarget < |TargetsOf(g, stack[|stack| - 1].id)|
    requires TargetsOf(g, stack[|stack| - 1].id)[stack[|stack| - 1].nextTarget] == target
    requires target in visiting
    ensures CycleAt(g, target)
  {
    var path := FrameIds(stack);
    forall i | 0 <= i < |stack| ensures stack[i].id in g {
      assert FrameOk(g, stack, visited, i);
    }
    forall i | 0 <= i < |path| - 1 ensures Edge(g, path[i], path[i + 1]) {
      assert FrameOk(g, stack, visited, i);
    }
    var k :| 0 <= k < |path| && path[k] == target;
    assert stack[k].id in g;
    ClosedPath(g, path, target);
  }

  ghost function Universe(g: Graph): set<Id> {
    g.Keys + set id, t | id in g && t in g[id] :: t
  }

  /** Searches from one record with an explicit stack of frames. */
  method SearchFrom(g: Graph, root: Id, before: set<Id>, ghost ordered: seq<Id>)
    returns (cycle: Option<Id>, visited: set<Id>, ghost order: seq<Id>)
    requires root in g && root !in before && before <= Universe(g) && Searching(g, [], {}, before, ordered)
    ensures cycle.None? ==> Searching(g, [], {}, visited, order) && before <= visited <= Universe(g) && root in visited
    ensures cycle.Some? ==> CycleAt(g, cycle.value)
  {
    var stack, visiting := [Frame(root, 0)], {root};
    visited, order := before, ordered;
    FirstFrame(g, root, before, ordered);
    while |stack| > 0
      invariant Searching(g, stack, visiting, visited, order)
      invariant Covers(g, root, before, visiting, visited)
      decreases Unseen(g, visiting, visited), |stack|, Remaining(g, stack)
    {
      var frame := stack[|stack| - 1];
      var targets := TargetsOf(g, frame.id);
      TopFrame(g, stack, visiting, visited, order);
      if frame.nextTarget >= |targets| {
        PopFrame(g, stack, visiting, visited, order);
        stack, visiting, visited, order := stack[..|stack| - 1], visiting - {frame.id}, visited + {frame.id},
          order + [frame.id];
      } else {
        var target := targets[frame.nextTarget];
        if target in visiting {
          OpenTargetClosesCycle(g, stack, visiting, visited, order, target);
          cycle := Some(target);
          return;
        }
        if target in visited {
          SkipTarget(g, stack, visiting, visited, order);
          stack := Advanced(stack);
        } else {
          PushTarget(g, stack, visiting, visited, order, target);
          Opening(g, root, before, visiting, visited, target);
          stack, visiting := Advanced(stack) + [Frame(target, 0)], visiting + {target};
        }
      }
    }
    cycle := None;
  }

  ghost function Remaining(g: Graph, stack: seq<Frame>): int {
    if stack == [] then 0 else |TargetsOf(g, stack[|stack| - 1].id)| - stack[|stack| - 1].nextTarget
  }

  lemma FirstFrame(g: Graph, root: Id, before: set<Id>, order: seq<Id>)
    requires root in g && root !in before && Searching(g, [], {}, before, order)
    ensures Searching(g, [Frame(root, 0)], {root}, before, order) && root in Universe(g)
  {
    assert FrameIds([Frame(root, 0)]) == [root];
  }

  lemma TopFrame(g: Graph, stack: seq<Frame>, visiting: set<Id>, visited: set<Id>, order: seq<Id>)
    requires Searching(g, stack, visiting, visited, order) && stack != []
    ensures var frame := stack[|stack| - 1]; var targets := TargetsOf(g, frame.id);
            && frame.id in visiting && frame.nextTarget <= |targets|
            && forall t :: t in targets ==> t in Universe(g)
  {
    var n := |stack| - 1;
    assert FrameOk(g, stack, visited, n);
    assert FrameIds(stack)[n] == stack[n].id;
  }

  /** Everything seen is in the graph, and the root has been seen. */
  ghost predicate Covers(g: Graph, root: Id, before: set<Id>, visiting: set<Id>, visited: set<Id>) {
    visiting + visited <= Universe(g) && before <= visited && root in visiting + visited
  }

  ghost function Unseen(g: Graph, visiting: set<Id>, visited: set<Id>): nat {
    |Universe(g) - visiting - visited|
  }

  lemma Opening(g: Graph, root: Id, before: set<Id>, visiting: set<Id>, visited: set<Id>, id: Id)
    requires Covers(g, root, before, visiting, visited)
    requires id in Universe(g) && id !in visiting && id !in visited
    ensures Covers(g, root, before, visiting + {id}, visited)
    ensures Unseen(g, visiting + {id}, visited) < Unseen(g, visiting, visited)
  {
    assert Universe(g) - (visiting + {id}) - visited == Universe(g) - visiting - visited - {id};
  }

  /** Rejects exactly the record lists whose supersession has a cycle, naming a node on one. */
  method AssertAcyclic(records: seq<Record>) returns (cycle: Option<Id>)
    ensures cycle.None? <==> Acyclic(EdgesOf(records))
    ensures cycle.Some? ==> CycleAt(EdgesOf(records), cycle.value)
  {
    var g := EdgesOf(records);
    var visited: set<Id> := {};
    ghost var order: seq<Id> := [];
    EdgesOfAt(records);
    for i := 0 to |records|
      invariant Searching(g, [], {}, visited, order) && visited <= Universe(g)
      invariant forall k :: 0 <= k < i ==> records[k].id in visited
    {
      assert RecordIds(records)[i] == records[i].id;
      if records[i].id !in visited {
        cycle, visited, order := SearchFrom(g, records[i].id, visited, order);
        if cycle.Some? {
          return;
        }
      }
    }
    forall id | id in g ensures id in order {
      var k :| 0 <= k < |records| && RecordIds(records)[k] == id;
      assert records[k].id in visited;
    }
    OrderedHasNoCycle(g, order);
    cycle := None;
  }
}
