/** Name-resolved dependency graphs and their depth-first cycle reports. */
module DependencyGraph {
  datatype Node = Node(name: string, dependencies: seq<string>)

  // ----- Walks over edge lists -----

  type Edges = seq<seq<nat>>

  ghost predicate InRange(edges: Edges) {
    forall u, k :: 0 <= u < |edges| && 0 <= k < |edges[u]| ==> edges[u][k] < |edges|
  }

  /** One stored edge: the `k`-th entry of a node's list. */
  predicate Slot(edges: Edges, slot: (nat, nat)) {
    slot.0 < |edges| && slot.1 < |edges[slot.0]|
  }

  function Target(edges: Edges, slot: (nat, nat)): nat
    requires Slot(edges, slot)
  {
    edges[slot.0][slot.1]
  }

  ghost predicate Step(edges: Edges, u: nat, v: nat) {
    u < |edges| && v in edges[u]
  }

  ghost predicate ClosedWalk(edges: Edges, walk: seq<nat>) {
    && |walk| >= 2 && walk[0] == walk[|walk| - 1]
    && forall i :: 0 <= i < |walk| - 1 ==> Step(edges, walk[i], walk[i + 1])
  }

  ghost predicate Acyclic(edges: Edges) {
    forall walk :: !ClosedWalk(edges, walk)
  }

  predicate Distinct(nodes: seq<nat>) {
    forall i, j :: 0 <= i < j < |nodes| ==> nodes[i] != nodes[j]
  }

  /** A reported cycle ends with the edge `slot` and repeats no node but its first. */
  ghost predicate Report(edges: Edges, cycle: seq<nat>, slot: (nat, nat)) {
    && ClosedWalk(edges, cycle) && Distinct(cycle[..|cycle| - 1])
    && Slot(edges, slot) && cycle[|cycle| - 2] == slot.0 && cycle[|cycle| - 1] == Target(edges, slot)
  }

  /** The walk takes one of the given edges. */
  ghost predicate Takes(edges: Edges, walk: seq<nat>, slots: seq<(nat, nat)>) {
    exists i, j :: 0 <= i < |walk| - 1 && 0 <= j < |slots| && Slot(edges, slots[j]) &&
                   walk[i] == slots[j].0 && walk[i + 1] == Target(edges, slots[j])
  }

  // ----- The state of the search -----

  /** All edges of `u` below `bound` are reported back edges or lead to finished nodes. */
  ghost predicate Read(edges: Edges, marks: seq<nat>, back: seq<(nat, nat)>, u: nat, bound: nat)
    requires u < |edges| && bound <= |edges[u]| && InRange(edges) && |marks| == |edges|
  {
    forall k: nat :: k < bound ==> (u, k) in back || marks[edges[u][k]] == 2
  }

  ghost predicate StackShape(edges: Edges, marks: seq<nat>, stack: seq<(nat, nat)>, path: seq<nat>)
    requires InRange(edges)
  {
    && |marks| == |edges| && Cursors(edges, stack, path) && Distinct(path) && OnPath(marks, path)
    && forall i :: 0 <= i < |stack| - 1 ==> Leads(edges, stack[i], path[i + 1])
  }

  /** Every entry is a node of the path with a cursor into its edges. */
  ghost predicate Cursors(edges: Edges, stack: seq<(nat, nat)>, path: seq<nat>) {
    && |path| == |stack|
    && forall i :: 0 <= i < |stack| ==> path[i] == stack[i].0 && path[i] < |edges| && stack[i].1 <= |edges[path[i]]|
  }

  /** The nodes on the path are those marked as such. */
  ghost predicate OnPath(marks: seq<nat>, path: seq<nat>) {
    forall u :: 0 <= u < |marks| ==> (marks[u] == 1 <==> u in path)
  }

  /** The edge last read by an entry leads to the next node of the path. */
  predicate Leads(edges: Edges, entry: (nat, nat), next: nat) {
    entry.0 < |edges| && 1 <= entry.1 <= |edges[entry.0]| && edges[entry.0][entry.1 - 1] == next
  }

  /** Finished nodes are ranked by finishing time; every edge of a finished node that is not reported
      leads to an earlier rank. */
  ghost predicate Ranked(edges: Edges, marks: seq<nat>, back: seq<(nat, nat)>, rank: seq<nat>, clock: nat)
    requires InRange(edges) && |marks| == |edges|
  {
    && |rank| == |edges|
    && (forall u :: 0 <= u < |marks| && marks[u] == 2 ==> rank[u] < clock)
    && (forall u, k: nat :: 0 <= u < |marks| && marks[u] == 2 && k < |edges[u]| ==>
          (u, k) in back || (marks[edges[u][k]] == 2 && rank[edges[u][k]] < rank[u]))
  }

  /** How much of the list of the `i`-th stack entry has been settled: the edge that led to the next
      entry is still in progress. */
  function Settled(stack: seq<(nat, nat)>, i: nat): nat
    requires i < |stack| && (i < |stack| - 1 ==> stack[i].1 >= 1)
  {
    if i < |stack| - 1 then stack[i].1 - 1 else stack[i].1
  }

  ghost predicate AllRead(edges: Edges, marks: seq<nat>, back: seq<(nat, nat)>, stack: seq<(nat, nat)>, path: seq<nat>)
    requires InRange(edges) && StackShape(edges, marks, stack, path)
  {
    forall i :: 0 <= i < |stack| ==> Read(edges, marks, back, path[i], Settled(stack, i))
  }

  /** Reported edges have been read, so the next edge to read is new. */
  ghost predicate BackRead(edges: Edges, marks: seq<nat>, back: seq<(nat, nat)>, stack: seq<(nat, nat)>)
    requires |marks| == |edges|
  {
    && (forall j :: 0 <= j < |back| ==> Slot(edges, back[j]) && marks[back[j].0] != 0 && Passed(back[j], stack))
    && (forall i, j :: 0 <= i < j < |back| ==> back[i] != back[j])
  }

  /** Every cursor on the edge's node is beyond the edge. */
  ghost predicate Passed(slot: (nat, nat), stack: seq<(nat, nat)>) {
    forall i :: 0 <= i < |stack| && stack[i].0 == slot.0 ==> slot.1 < stack[i].1
  }

  lemma PassedBump(slot: (nat, nat), stack: seq<(nat, nat)>)
    requires Passed(slot, stack)
    ensures Passed(slot, Bump(stack))
  {
    forall i | 0 <= i < |Bump(stack)| && Bump(stack)[i].0 == slot.0
      ensures slot.1 < Bump(stack)[i].1
    {
      assert stack[i].0 == slot.0;
    }
  }

  ghost predicate Reported(edges: Edges, back: seq<(nat, nat)>, reports: seq<seq<nat>>) {
    |reports| == |back| && forall j :: 0 <= j < |back| ==> Report(edges, reports[j], back[j])
  }

  ghost predicate Searching(edges: Edges, marks: seq<nat>, stack: seq<(nat, nat)>, path: seq<nat>, back: seq<(nat, nat)>,
                            reports: seq<seq<nat>>, rank: seq<nat>, clock: nat) {
    && InRange(edges) && StackShape(edges, marks, stack, path)
    && Ranked(edges, marks, back, rank, clock) && AllRead(edges, marks, back, stack, path)
    && BackRead(edges, marks, back, stack) && Reported(edges, back, reports)
    && forall u :: 0 <= u < |marks| ==> marks[u] <= 2
  }

  // ----- One move of the search -----

  function Bump(stack: seq<(nat, nat)>): seq<(nat, nat)> {
    if stack == [] then [] else stack[|stack| - 1 := (stack[|stack| - 1].0, stack[|stack| - 1].1 + 1)]
  }

  /** The edge under the cursor of the top entry. */
  predicate Reading(edges: Edges, stack: seq<(nat, nat)>, next: nat) {
    stack != [] && Slot(edges, stack[|stack| - 1]) && Target(edges, stack[|stack| - 1]) == next
  }

  lemma BumpShape(edges: Edges, marks: seq<nat>, stack: seq<(nat, nat)>, path: seq<nat>, next: nat)
    requires InRange(edges) && StackShape(edges, marks, stack, path) && Reading(edges, stack, next)
    ensures StackShape(edges, marks, Bump(stack), path)
    ensures forall i :: 0 <= i < |stack| - 1 ==> Bump(stack)[i] == stack[i]
    ensures Leads(edges, Bump(stack)[|stack| - 1], next)
  {
    var top := |stack| - 1;
    assert Bump(stack)[top] == (stack[top].0, stack[top].1 + 1);
    forall i | 0 <= i < |stack| - 1
      ensures Leads(edges, Bump(stack)[i], path[i + 1])
    {
      assert Leads(edges, stack[i], path[i + 1]);
    }
  }

  lemma PushShape(edges: Edges, marks: seq<nat>, stack: seq<(nat, nat)>, path: seq<nat>, next: nat)
    requires InRange(edges) && StackShape(edges, marks, stack, path) && next < |edges| && marks[next] == 0
    requires stack == [] || Reading(edges, stack, next)
    ensures StackShape(edges, marks[next := 1], Bump(stack) + [(next, 0)], path + [next])
  {
    if stack != [] {
      BumpShape(edges, marks, stack, path, next);
    }
    PushOnto(edges, marks, Bump(stack), path, next);
  }

  /** Pushing a fresh node behind the edge just read. */
  lemma PushOnto(edges: Edges, marks: seq<nat>, stack: seq<(nat, nat)>, path: seq<nat>, next: nat)
    requires InRange(edges) && StackShape(edges, marks, stack, path) && next < |edges| && marks[next] == 0
    requires stack != [] ==> Leads(edges, stack[|stack| - 1], next)
    ensures StackShape(edges, marks[next := 1], stack + [(next, 0)], path + [next])
  {
    assert next !in path;
    PushDistinct(path, next);
    forall u | 0 <= u < |marks|
      ensures marks[next := 1][u] == 1 <==> u in path + [next]
    {
      assert u in path + [next] <==> u in path || u == next;
    }
  }

  lemma PushDistinct(path: seq<nat>, next: nat)
    requires Distinct(path) && next !in path
    ensures Distinct(path + [next])
  {
  }

  lemma PushSettled(edges: Edges, marks: seq<nat>, stack: seq<(nat, nat)>, path: seq<nat>, next: nat)
    requires InRange(edges) && StackShape(edges, marks, stack, path) && next < |edges|
    requires StackShape(edges, marks[next := 1], Bump(stack) + [(next, 0)], path + [next])
    ensures forall i :: 0 <= i < |stack| ==> Settled(Bump(stack) + [(next, 0)], i) == Settled(stack, i)
  {
  }

  lemma PopShape(edges: Edges, marks: seq<nat>, stack: seq<(nat, nat)>, path: seq<nat>)
    requires InRange(edges) && StackShape(edges, marks, stack, path) && stack != []
    ensures marks[path[|path| - 1]] == 1
    ensures StackShape(edges, marks[path[|path| - 1] := 2], stack[..|stack| - 1], path[..|path| - 1])
  {
    var node, path' := path[|path| - 1], path[..|path| - 1];
    assert path == path' + [node];
    forall u | 0 <= u < |marks|
      ensures marks[node := 2][u] == 1 <==> u in path'
    {
      assert u in path <==> u in path' || u == node;
    }
  }

  lemma ReadMore(edges: Edges, marks: seq<nat>, back: seq<(nat, nat)>, marks': seq<nat>, back': seq<(nat, nat)>, u: nat, bound: nat)
    requires u < |edges| && bound <= |edges[u]| && InRange(edges) && |marks| == |marks'| == |edges|
    requires Read(edges, marks, back, u, bound)
    requires forall v :: 0 <= v < |marks| && marks[v] == 2 ==> marks'[v] == 2
    requires forall slot :: slot in back ==> slot in back'
    ensures Read(edges, marks', back', u, bound)
  {
  }

  lemma PushKeeps(edges: Edges, marks: seq<nat>, stack: seq<(nat, nat)>, path: seq<nat>, back: seq<(nat, nat)>,
                  reports: seq<seq<nat>>, rank: seq<nat>, clock: nat, next: nat)
    requires Searching(edges, marks, stack, path, back, reports, rank, clock)
    requires next < |edges| && marks[next] == 0 && (stack == [] || Reading(edges, stack, next))
    ensures Searching(edges, marks[next := 1], Bump(stack) + [(next, 0)], path + [next], back, reports, rank, clock)
  {
    var marks', stack', path' := marks[next := 1], Bump(stack) + [(next, 0)], path + [next];
    PushShape(edges, marks, stack, path, next);
    PushSettled(edges, marks, stack, path, next);
    forall i | 0 <= i < |stack'|
      ensures Read(edges, marks', back, path'[i], Settled(stack', i))
    {
      PushRead(edges, marks, stack, path, back, next, i);
    }
    PushRest(edges, marks, stack, back, rank, clock, next);
  }

  lemma PushRead(edges: Edges, marks: seq<nat>, stack: seq<(nat, nat)>, path: seq<nat>, back: seq<(nat, nat)>,
                 next: nat, i: nat)
    requires InRange(edges) && StackShape(edges, marks, stack, path) && AllRead(edges, marks, back, stack, path)
    requires next < |edges| && marks[next] == 0 && i <= |stack|
    requires StackShape(edges, marks[next := 1], Bump(stack) + [(next, 0)], path + [next])
    requires forall i :: 0 <= i < |stack| ==> Settled(Bump(stack) + [(next, 0)], i) == Settled(stack, i)
    ensures Read(edges, marks[next := 1], back, (path + [next])[i], Settled(Bump(stack) + [(next, 0)], i))
  {
    if i < |stack| {
      assert Read(edges, marks, back, path[i], Settled(stack, i));
      ReadMore(edges, marks, back, marks[next := 1], back, path[i], Settled(stack, i));
    }
  }

  lemma PushRest(edges: Edges, marks: seq<nat>, stack: seq<(nat, nat)>, back: seq<(nat, nat)>, rank: seq<nat>, clock: nat, next: nat)
    requires InRange(edges) && |marks| == |edges| && Ranked(edges, marks, back, rank, clock)
    requires BackRead(edges, marks, back, stack) && next < |edges| && marks[next] == 0
    ensures Ranked(edges, marks[next := 1], back, rank, clock)
    ensures BackRead(edges, marks[next := 1], back, Bump(stack) + [(next, 0)])
  {
  }

  lemma AdvanceKeeps(edges: Edges, marks: seq<nat>, stack: seq<(nat, nat)>, path: seq<nat>, back: seq<(nat, nat)>,
                     reports: seq<seq<nat>>, rank: seq<nat>, clock: nat, next: nat)
    requires Searching(edges, marks, stack, path, back, reports, rank, clock)
    requires Reading(edges, stack, next) && marks[next] == 2
    ensures Searching(edges, marks, Bump(stack), path, back, reports, rank, clock)
  {
    BumpShape(edges, marks, stack, path, next);
    forall i | 0 <= i < |stack|
      ensures Read(edges, marks, back, path[i], Settled(Bump(stack), i))
    {
      AdvanceRead(edges, marks, stack, path, back, next, i);
    }
    AdvanceBack(edges, marks, back, stack);
  }

  lemma AdvanceRead(edges: Edges, marks: seq<nat>, stack: seq<(nat, nat)>, path: seq<nat>, back: seq<(nat, nat)>,
                    next: nat, i: nat)
    requires InRange(edges) && StackShape(edges, marks, stack, path) && StackShape(edges, marks, Bump(stack), path)
    requires AllRead(edges, marks, back, stack, path) && Reading(edges, stack, next) && marks[next] == 2 && i < |stack|
    ensures Read(edges, marks, back, path[i], Settled(Bump(stack), i))
  {
    assert Read(edges, marks, back, path[i], Settled(stack, i));
    if i == |stack| - 1 {
      ReadFinished(edges, marks, back, path[i], stack[i].1);
    } else {
      assert Bump(stack)[i] == stack[i];
    }
  }

  lemma ReadFinished(edges: Edges, marks: seq<nat>, back: seq<(nat, nat)>, u: nat, k: nat)
    requires u < |edges| && k < |edges[u]| && InRange(edges) && |marks| == |edges|
    requires Read(edges, marks, back, u, k) && marks[edges[u][k]] == 2
    ensures Read(edges, marks, back, u, k + 1)
  {
  }

  lemma AdvanceBack(edges: Edges, marks: seq<nat>, back: seq<(nat, nat)>, stack: seq<(nat, nat)>)
    requires |marks| == |edges| && BackRead(edges, marks, back, stack)
    ensures BackRead(edges, marks, back, Bump(stack))
  {
    forall j | 0 <= j < |back|
      ensures Passed(back[j], Bump(stack))
    {
      PassedBump(back[j], stack);
    }
  }

  lemma ReportKeeps(edges: Edges, marks: seq<nat>, stack: seq<(nat, nat)>, path: seq<nat>, back: seq<(nat, nat)>,
                    reports: seq<seq<nat>>, rank: seq<nat>, clock: nat, next: nat, cycle: seq<nat>)
    requires Searching(edges, marks, stack, path, back, reports, rank, clock)
    requires Reading(edges, stack, next) && Report(edges, cycle, stack[|stack| - 1])
    ensures Searching(edges, marks, Bump(stack), path, back + [stack[|stack| - 1]], reports + [cycle], rank, clock)
  {
    var top := stack[|stack| - 1];
    var back', stack' := back + [top], Bump(stack);
    BumpShape(edges, marks, stack, path, next);
    MoreBack(edges, marks, back, rank, clock, reports, top, cycle);
    forall i | 0 <= i < |stack|
      ensures Read(edges, marks, back', path[i], Settled(stack', i))
    {
      ReadMore(edges, marks, back, marks, back', path[i], Settled(stack, i));
      if i == |stack| - 1 {
        ReadNext(edges, marks, back', path[i], top);
      }
    }
    ReportBack(edges, marks, stack, path, back);
  }

  lemma MoreBack(edges: Edges, marks: seq<nat>, back: seq<(nat, nat)>, rank: seq<nat>, clock: nat, reports: seq<seq<nat>>,
                 slot: (nat, nat), cycle: seq<nat>)
    requires InRange(edges) && |marks| == |edges| && Ranked(edges, marks, back, rank, clock)
    requires Reported(edges, back, reports) && Report(edges, cycle, slot)
    ensures slot in back + [slot] && forall other :: other in back ==> other in back + [slot]
    ensures Ranked(edges, marks, back + [slot], rank, clock) && Reported(edges, back + [slot], reports + [cycle])
  {
    var back' := back + [slot];
    assert back'[|back|] == slot;
    forall other | other in back
      ensures other in back'
    {
      var j :| 0 <= j < |back| && back[j] == other;
      assert back'[j] == other;
    }
  }

  lemma ReadNext(edges: Edges, marks: seq<nat>, back: seq<(nat, nat)>, u: nat, slot: (nat, nat))
    requires InRange(edges) && |marks| == |edges| && Slot(edges, slot) && slot.0 == u && slot in back
    requires Read(edges, marks, back, u, slot.1)
    ensures Read(edges, marks, back, u, slot.1 + 1)
  {
  }

  lemma ReportBack(edges: Edges, marks: seq<nat>, stack: seq<(nat, nat)>, path: seq<nat>, back: seq<(nat, nat)>)
    requires InRange(edges) && StackShape(edges, marks, stack, path) && BackRead(edges, marks, back, stack)
    requires stack != [] && Slot(edges, stack[|stack| - 1])
    ensures BackRead(edges, marks, back + [stack[|stack| - 1]], Bump(stack))
  {
    var top, back' := stack[|stack| - 1], back + [stack[|stack| - 1]];
    TopPasses(edges, marks, stack, path);
    forall j | 0 <= j < |back'|
      ensures Slot(edges, back'[j]) && marks[back'[j].0] != 0 && Passed(back'[j], Bump(stack))
    {
      if j < |back| {
        PassedBump(back[j], stack);
      }
    }
    forall j | 0 <= j < |back|
      ensures back[j] != top
    {
      assert Passed(back[j], stack);
    }
  }

  /** The edge under the top cursor lies behind it once the cursor moves; its node is on the path once. */
  lemma TopPasses(edges: Edges, marks: seq<nat>, stack: seq<(nat, nat)>, path: seq<nat>)
    requires InRange(edges) && StackShape(edges, marks, stack, path) && stack != []
    ensures Passed(stack[|stack| - 1], Bump(stack)) && marks[stack[|stack| - 1].0] == 1
  {
    var last := |stack| - 1;
    assert path[last] in path;
    forall i | 0 <= i < |Bump(stack)| && Bump(stack)[i].0 == stack[last].0
      ensures stack[last].1 < Bump(stack)[i].1
    {
      assert path[i] == path[last];
    }
  }

  lemma PopKeeps(edges: Edges, marks: seq<nat>, stack: seq<(nat, nat)>, path: seq<nat>, back: seq<(nat, nat)>,
                 reports: seq<seq<nat>>, rank: seq<nat>, clock: nat)
    requires Searching(edges, marks, stack, path, back, reports, rank, clock) && stack != []
    requires stack[|stack| - 1].1 == |edges[path[|path| - 1]]|
    ensures var node := path[|path| - 1];
            Searching(edges, marks[node := 2], stack[..|stack| - 1], path[..|path| - 1], back, reports, rank[node := clock], clock + 1)
  {
    var node := path[|path| - 1];
    var marks', stack' := marks[node := 2], stack[..|stack| - 1];
    PopShape(edges, marks, stack, path);
    assert Read(edges, marks, back, node, Settled(stack, |stack| - 1));
    PopRanked(edges, marks, back, rank, clock, node);
    forall i | 0 <= i < |stack'|
      ensures Read(edges, marks', back, path[i], Settled(stack', i))
    {
      PopRead(edges, marks, stack, path, back, i);
    }
  }

  lemma PopRead(edges: Edges, marks: seq<nat>, stack: seq<(nat, nat)>, path: seq<nat>, back: seq<(nat, nat)>, i: nat)
    requires InRange(edges) && StackShape(edges, marks, stack, path) && AllRead(edges, marks, back, stack, path)
    requires i < |stack| - 1
    ensures Read(edges, marks[path[|path| - 1] := 2], back, path[i], Settled(stack[..|stack| - 1], i))
  {
    assert Read(edges, marks, back, path[i], Settled(stack, i));
    assert edges[path[i]][stack[i].1 - 1] == path[i + 1];
  }

  lemma PopRanked(edges: Edges, marks: seq<nat>, back: seq<(nat, nat)>, rank: seq<nat>, clock: nat, node: nat)
    requires InRange(edges) && |marks| == |edges| && Ranked(edges, marks, back, rank, clock)
    requires node < |edges| && marks[node] == 1 && Read(edges, marks, back, node, |edges[node]|)
    ensures Ranked(edges, marks[node := 2], back, rank[node := clock], clock + 1)
  {
  }

  /** An edge back onto the path closes a cycle: the path from its target on. */
  lemma CycleFound(edges: Edges, marks: seq<nat>, stack: seq<(nat, nat)>, path: seq<nat>, start: nat)
    requires InRange(edges) && StackShape(edges, marks, stack, path) && stack != []
    requires var (node, edge) := stack[|stack| - 1];
             edge < |edges[node]| && start < |path| && path[start] == edges[node][edge]
    ensures var (node, edge) := stack[|stack| - 1];
            Report(edges, path[start..] + [edges[node][edge]], (node, edge))
  {
    var (node, edge) := stack[|stack| - 1];
    var cycle := path[start..] + [edges[node][edge]];
    forall i: nat | i < |cycle| - 1
      ensures Step(edges, cycle[i], cycle[i + 1])
    {
      CycleSteps(edges, marks, stack, path, start, cycle, i);
    }
    assert cycle[..|cycle| - 1] == path[start..];
  }

  lemma CycleSteps(edges: Edges, marks: seq<nat>, stack: seq<(nat, nat)>, path: seq<nat>, start: nat, cycle: seq<nat>, i: nat)
    requires InRange(edges) && StackShape(edges, marks, stack, path) && stack != [] && start < |path|
    requires var (node, edge) := stack[|stack| - 1];
             edge < |edges[node]| && cycle == path[start..] + [edges[node][edge]]
    requires i < |cycle| - 1
    ensures Step(edges, cycle[i], cycle[i + 1])
  {
    assert cycle[i] == path[start + i];
    if i < |cycle| - 2 {
      assert cycle[i + 1] == path[start + i + 1];
      PathSteps(edges, marks, stack, path, start + i);
    }
  }

  lemma PathSteps(edges: Edges, marks: seq<nat>, stack: seq<(nat, nat)>, path: seq<nat>, i: nat)
    requires InRange(edges) && StackShape(edges, marks, stack, path) && i + 1 < |path|
    ensures Step(edges, path[i], path[i + 1])
  {
    assert edges[path[i]][stack[i].1 - 1] == path[i + 1];
  }

  // ----- The search -----

  /** How many nodes are still unmarked. */
  function Unmarked(marks: seq<nat>): nat {
    if marks == [] then 0 else (if marks[0] == 0 then 1 else 0) + Unmarked(marks[1..])
  }

  lemma {:induction false} MarkingCounts(marks: seq<nat>, u: nat, mark: nat)
    requires u < |marks| && mark != 0
    ensures Unmarked(marks[u := mark]) == Unmarked(marks) - if marks[u] == 0 then 1 else 0
  {
    if u == 0 {
      assert marks[u := mark][1..] == marks[1..];
    } else {
      assert marks[u := mark][1..] == marks[1..][u - 1 := mark];
      MarkingCounts(marks[1..], u - 1, mark);
    }
  }

  /** What is left to read on the stack: every entry's unread edges, and its own removal. */
  function Unread(edges: Edges, stack: seq<(nat, nat)>): nat
    requires forall i :: 0 <= i < |stack| ==> stack[i].0 < |edges| && stack[i].1 <= |edges[stack[i].0]|
  {
    if stack == [] then 0
    else
      var top := stack[|stack| - 1];
      Unread(edges, stack[..|stack| - 1]) + |edges[top.0]| - top.1 + 1
  }

  lemma BumpUnread(edges: Edges, stack: seq<(nat, nat)>)
    requires forall i :: 0 <= i < |stack| ==> stack[i].0 < |edges| && stack[i].1 <= |edges[stack[i].0]|
    requires stack != [] && Slot(edges, stack[|stack| - 1])
    ensures Unread(edges, Bump(stack)) == Unread(edges, stack) - 1
  {
    assert Bump(stack)[..|stack| - 1] == stack[..|stack| - 1];
  }

  /** Along a walk of unreported edges between finished nodes the finishing rank only falls. */
  lemma RankFalls(edges: Edges, marks: seq<nat>, back: seq<(nat, nat)>, rank: seq<nat>, clock: nat, walk: seq<nat>, i: nat)
    requires InRange(edges) && |marks| == |edges| && Ranked(edges, marks, back, rank, clock)
    requires forall u :: 0 <= u < |marks| ==> marks[u] == 2
    requires forall j :: 0 <= j < |back| ==> Slot(edges, back[j])
    requires ClosedWalk(edges, walk) && !Takes(edges, walk, back) && 0 < i < |walk|
    ensures walk[0] < |edges| && walk[i] < |edges| && rank[walk[i]] < rank[walk[0]]
  {
    assert Step(edges, walk[i - 1], walk[i]);
    var k: nat :| k < |edges[walk[i - 1]]| && edges[walk[i - 1]][k] == walk[i];
    forall j | 0 <= j < |back|
      ensures back[j] != (walk[i - 1], k)
    {
      assert walk[i - 1 + 1] == walk[i] && Slot(edges, back[j]);
    }
    if i > 1 {
      RankFalls(edges, marks, back, rank, clock, walk, i - 1);
    }
  }

  /** When every node is finished, each closed walk takes a reported edge; so nothing is reported
      exactly when the graph is acyclic. */
  lemma SearchDecides(edges: Edges, marks: seq<nat>, back: seq<(nat, nat)>, reports: seq<seq<nat>>, rank: seq<nat>, clock: nat)
    requires Searching(edges, marks, [], [], back, reports, rank, clock)
    requires forall u :: 0 <= u < |marks| ==> marks[u] == 2
    ensures forall walk :: ClosedWalk(edges, walk) ==> Takes(edges, walk, back)
    ensures back == [] <==> Acyclic(edges)
  {
    forall walk | ClosedWalk(edges, walk)
      ensures Takes(edges, walk, back)
    {
      if !Takes(edges, walk, back) {
        RankFalls(edges, marks, back, rank, clock, walk, |walk| - 1);
      }
    }
    if back != [] {
      assert ClosedWalk(edges, reports[0]);
    }
  }

  // ----- The recursive search -----

  /** The marks after part of a search, and what it reports, in order. */
  datatype Found = Found(marks: seq<nat>, reports: seq<seq<nat>>)

  /** The reports, followed by what else is found. */
  function Then(reports: seq<seq<nat>>, found: Found): Found {
    Found(found.marks, reports + found.reports)
  }

  /** The path from the first occurrence of a node on. */
  function PathFrom(path: seq<nat>, node: nat): seq<nat> {
    if path == [] || path[0] == node then path else PathFrom(path[1..], node)
  }

  /** Reads the edges of a node from the k-th on: an edge to an unmarked node is followed at once, one back onto
      the path is reported with the path from there, and a finished node is passed over. */
  function Walk(edges: Edges, marks: seq<nat>, path: seq<nat>, node: nat, k: nat): (found: Found)
    requires InRange(edges) && |marks| == |edges| && node < |edges| && k <= |edges[node]|
    ensures |found.marks| == |edges| && Unmarked(found.marks) <= Unmarked(marks)
    decreases Unmarked(marks), |edges[node]| - k
  {
    MarkingCounts(marks, node, 2);
    if k == |edges[node]| then Found(marks[node := 2], [])
    else
      var next := edges[node][k];
      if marks[next] == 0 then
        MarkingCounts(marks, next, 1);
        var inner := Walk(edges, marks[next := 1], path + [next], next, 0);
        var rest := Walk(edges, inner.marks, path, node, k + 1);
        Found(rest.marks, inner.reports + rest.reports)
      else
        var rest := Walk(edges, marks, path, node, k + 1);
        if marks[next] == 1 then Found(rest.marks, [PathFrom(path, next) + [next]] + rest.reports) else rest
  }

  /** Starts at every node still unmarked, in order. */
  function WalkAll(edges: Edges, marks: seq<nat>, root: nat): Found
    requires InRange(edges) && |marks| == |edges| && root <= |edges|
    decreases |edges| - root
  {
    if root == |edges| then Found(marks, [])
    else if marks[root] != 0 then WalkAll(edges, marks, root + 1)
    else
      var first := Walk(edges, marks[root := 1], [root], root, 0);
      var rest := WalkAll(edges, first.marks, root + 1);
      Found(rest.marks, first.reports + rest.reports)
  }

  ghost predicate Resumable(edges: Edges, marks: seq<nat>, stack: seq<(nat, nat)>) {
    && InRange(edges) && |marks| == |edges|
    && forall i :: 0 <= i < |stack| ==> stack[i].0 < |edges| && stack[i].1 <= |edges[stack[i].0]|
  }

  lemma CanResume(edges: Edges, marks: seq<nat>, stack: seq<(nat, nat)>, path: seq<nat>)
    requires InRange(edges) && StackShape(edges, marks, stack, path)
    ensures Resumable(edges, marks, stack)
  {
  }

  /** What the recursion still owes a stack: its entries finished from the top down. */
  ghost function Unwind(edges: Edges, marks: seq<nat>, stack: seq<(nat, nat)>, path: seq<nat>): Found
    requires Resumable(edges, marks, stack) && |path| == |stack|
    decreases |stack|
  {
    if stack == [] then Found(marks, [])
    else
      var top := |stack| - 1;
      var first := Walk(edges, marks, path, stack[top].0, stack[top].1);
      var rest := Unwind(edges, first.marks, stack[..top], path[..top]);
      Found(rest.marks, first.reports + rest.reports)
  }

  /** The reports so far, with those still owed. */
  ghost function Owed(edges: Edges, marks: seq<nat>, stack: seq<(nat, nat)>, path: seq<nat>, reports: seq<seq<nat>>): Found
    requires Resumable(edges, marks, stack) && |path| == |stack|
  {
    Then(reports, Unwind(edges, marks, stack, path))
  }

  /** What a stack is owed, once its top entry is finished from a cursor on. */
  lemma UnwindFrom(edges: Edges, marks: seq<nat>, rest: seq<(nat, nat)>, below: seq<nat>, node: nat, k: nat)
    requires Resumable(edges, marks, rest + [(node, k)]) && |below| == |rest|
    ensures node < |edges| && k <= |edges[node]| && Resumable(edges, marks, rest)
    ensures var first := Walk(edges, marks, below + [node], node, k);
            && Resumable(edges, first.marks, rest)
            && Unwind(edges, marks, rest + [(node, k)], below + [node])
               == Then(first.reports, Unwind(edges, first.marks, rest, below))
  {
    var stack := rest + [(node, k)];
    assert stack[|rest|] == (node, k) && stack[..|rest|] == rest && (below + [node])[..|rest|] == below;
    assert forall i :: 0 <= i < |rest| ==> rest[i] == stack[i];
  }

  lemma ThenAssociates(a: seq<seq<nat>>, b: seq<seq<nat>>, found: Found)
    ensures Then(a, Then(b, found)) == Then(a + b, found)
  {
  }

  lemma BumpIs(stack: seq<(nat, nat)>, path: seq<nat>)
    requires stack != [] && |path| == |stack|
    ensures var top := |stack| - 1;
            && stack == stack[..top] + [(stack[top].0, stack[top].1)] && path == path[..top] + [path[top]]
            && Bump(stack) == stack[..top] + [(stack[top].0, stack[top].1 + 1)]
  {
  }

  /** Following an edge to a new node, and passing back over one to the path. */
  lemma WalkPush(edges: Edges, marks: seq<nat>, path: seq<nat>, node: nat, k: nat, next: nat)
    requires InRange(edges) && |marks| == |edges| && Slot(edges, (node, k)) && edges[node][k] == next
    requires marks[next] == 0
    ensures var inner := Walk(edges, marks[next := 1], path + [next], next, 0);
            Walk(edges, marks, path, node, k) == Then(inner.reports, Walk(edges, inner.marks, path, node, k + 1))
  {
  }

  lemma WalkReport(edges: Edges, marks: seq<nat>, path: seq<nat>, node: nat, k: nat, next: nat)
    requires InRange(edges) && |marks| == |edges| && Slot(edges, (node, k)) && edges[node][k] == next
    requires marks[next] == 1
    ensures Walk(edges, marks, path, node, k) == Then([PathFrom(path, next) + [next]], Walk(edges, marks, path, node, k + 1))
  {
  }

  lemma ThenOnward(reports: seq<seq<nat>>, first: Found, after: Found, edges: Edges, rest: seq<(nat, nat)>, below: seq<nat>)
    requires first == Then(reports, after) && Resumable(edges, after.marks, rest) && |below| == |rest|
    ensures Then(first.reports, Unwind(edges, first.marks, rest, below))
            == Then(reports, Then(after.reports, Unwind(edges, after.marks, rest, below)))
  {
    ThenAssociates(reports, after.reports, Unwind(edges, after.marks, rest, below));
  }

  lemma UnwindPush(edges: Edges, marks: seq<nat>, rest: seq<(nat, nat)>, below: seq<nat>, node: nat, k: nat, next: nat)
    requires Resumable(edges, marks, rest + [(node, k)]) && |below| == |rest|
    requires Slot(edges, (node, k)) && edges[node][k] == next && marks[next] == 0
    ensures Resumable(edges, marks[next := 1], rest + [(node, k + 1)] + [(next, 0)])
    ensures Unwind(edges, marks[next := 1], rest + [(node, k + 1)] + [(next, 0)], below + [node] + [next])
            == Unwind(edges, marks, rest + [(node, k)], below + [node])
  {
    PushResumes(edges, marks, rest, node, k, next);
    UnwindFrom(edges, marks[next := 1], rest + [(node, k + 1)], below + [node], next, 0);
    var inner := Walk(edges, marks[next := 1], below + [node] + [next], next, 0);
    UnwindBefore(edges, marks, rest, below, node, k, next, inner);
  }

  lemma UnwindBefore(edges: Edges, marks: seq<nat>, rest: seq<(nat, nat)>, below: seq<nat>, node: nat, k: nat, next: nat,
                     inner: Found)
    requires Resumable(edges, marks, rest + [(node, k)]) && |below| == |rest|
    requires Slot(edges, (node, k)) && edges[node][k] == next && marks[next] == 0
    requires inner == Walk(edges, marks[next := 1], below + [node] + [next], next, 0)
    requires Resumable(edges, inner.marks, rest + [(node, k + 1)])
    ensures Unwind(edges, marks, rest + [(node, k)], below + [node])
            == Then(inner.reports, Unwind(edges, inner.marks, rest + [(node, k + 1)], below + [node]))
  {
    UnwindFrom(edges, marks, rest, below, node, k);
    UnwindFrom(edges, inner.marks, rest, below, node, k + 1);
    WalkPush(edges, marks, below + [node], node, k, next);
    ThenOnward(inner.reports, Walk(edges, marks, below + [node], node, k),
               Walk(edges, inner.marks, below + [node], node, k + 1), edges, rest, below);
  }

  lemma PushResumes(edges: Edges, marks: seq<nat>, rest: seq<(nat, nat)>, node: nat, k: nat, next: nat)
    requires Resumable(edges, marks, rest + [(node, k)])
    requires Slot(edges, (node, k)) && edges[node][k] == next
    ensures Resumable(edges, marks, rest + [(node, k + 1)])
    ensures Resumable(edges, marks[next := 1], rest + [(node, k + 1)] + [(next, 0)])
  {
    assert (rest + [(node, k)])[|rest|] == (node, k);
    assert forall i :: 0 <= i < |rest| ==> rest[i] == (rest + [(node, k)])[i];
  }

  lemma UnwindReport(edges: Edges, marks: seq<nat>, rest: seq<(nat, nat)>, below: seq<nat>, node: nat, k: nat, next: nat)
    requires Resumable(edges, marks, rest + [(node, k)]) && |below| == |rest|
    requires Slot(edges, (node, k)) && edges[node][k] == next && marks[next] == 1
    ensures Resumable(edges, marks, rest + [(node, k + 1)])
    ensures Unwind(edges, marks, rest + [(node, k)], below + [node])
            == Then([PathFrom(below + [node], next) + [next]], Unwind(edges, marks, rest + [(node, k + 1)], below + [node]))
  {
    PushResumes(edges, marks, rest, node, k, next);
    UnwindFrom(edges, marks, rest, below, node, k);
    UnwindFrom(edges, marks, rest, below, node, k + 1);
    WalkReport(edges, marks, below + [node], node, k, next);
    ThenOnward([PathFrom(below + [node], next) + [next]], Walk(edges, marks, below + [node], node, k),
               Walk(edges, marks, below + [node], node, k + 1), edges, rest, below);
  }

  lemma OwedOnPush(edges: Edges, marks: seq<nat>, stack: seq<(nat, nat)>, path: seq<nat>, reports: seq<seq<nat>>, next: nat)
    requires Resumable(edges, marks, stack) && |path| == |stack| && Reading(edges, stack, next) && marks[next] == 0
    requires path[|path| - 1] == stack[|stack| - 1].0
    ensures Resumable(edges, marks[next := 1], Bump(stack) + [(next, 0)])
    ensures Owed(edges, marks[next := 1], Bump(stack) + [(next, 0)], path + [next], reports)
            == Owed(edges, marks, stack, path, reports)
  {
    var top := |stack| - 1;
    BumpIs(stack, path);
    UnwindPush(edges, marks, stack[..top], path[..top], stack[top].0, stack[top].1, next);
  }

  lemma OwedOnReport(edges: Edges, marks: seq<nat>, stack: seq<(nat, nat)>, path: seq<nat>, reports: seq<seq<nat>>, next: nat)
    requires Resumable(edges, marks, stack) && |path| == |stack| && Reading(edges, stack, next) && marks[next] == 1
    requires path[|path| - 1] == stack[|stack| - 1].0
    ensures Resumable(edges, marks, Bump(stack))
    ensures Owed(edges, marks, Bump(stack), path, reports + [PathFrom(path, next) + [next]])
            == Owed(edges, marks, stack, path, reports)
  {
    OwedBefore(edges, marks, stack, path, next);
    ThenAssociates(reports, [PathFrom(path, next) + [next]], Unwind(edges, marks, Bump(stack), path));
  }

  lemma OwedBefore(edges: Edges, marks: seq<nat>, stack: seq<(nat, nat)>, path: seq<nat>, next: nat)
    requires Resumable(edges, marks, stack) && |path| == |stack| && Reading(edges, stack, next) && marks[next] == 1
    requires path[|path| - 1] == stack[|stack| - 1].0
    ensures Resumable(edges, marks, Bump(stack))
    ensures Unwind(edges, marks, stack, path)
            == Then([PathFrom(path, next) + [next]], Unwind(edges, marks, Bump(stack), path))
  {
    var top := |stack| - 1;
    BumpIs(stack, path);
    OwedAt(edges, marks, stack[..top], path[..top], stack[top].0, stack[top].1, next, stack, path, Bump(stack));
  }

  lemma OwedAt(edges: Edges, marks: seq<nat>, rest: seq<(nat, nat)>, below: seq<nat>, node: nat, k: nat, next: nat,
               stack: seq<(nat, nat)>, path: seq<nat>, bumped: seq<(nat, nat)>)
    requires stack == rest + [(node, k)] && path == below + [node] && bumped == rest + [(node, k + 1)] && |below| == |rest|
    requires Resumable(edges, marks, stack) && Slot(edges, (node, k)) && edges[node][k] == next && marks[next] == 1
    ensures Resumable(edges, marks, bumped)
    ensures Unwind(edges, marks, stack, path) == Then([PathFrom(path, next) + [next]], Unwind(edges, marks, bumped, path))
  {
    UnwindReport(edges, marks, rest, below, node, k, next);
  }

  lemma OwedOnSkip(edges: Edges, marks: seq<nat>, stack: seq<(nat, nat)>, path: seq<nat>, reports: seq<seq<nat>>, next: nat)
    requires Resumable(edges, marks, stack) && |path| == |stack| && Reading(edges, stack, next) && marks[next] > 1
    ensures Resumable(edges, marks, Bump(stack))
    ensures Owed(edges, marks, Bump(stack), path, reports) == Owed(edges, marks, stack, path, reports)
  {
    assert Bump(stack)[..|stack| - 1] == stack[..|stack| - 1];
  }

  lemma OwedOnPop(edges: Edges, marks: seq<nat>, stack: seq<(nat, nat)>, path: seq<nat>, reports: seq<seq<nat>>)
    requires Resumable(edges, marks, stack) && |path| == |stack| && stack != []
    requires stack[|stack| - 1].1 == |edges[stack[|stack| - 1].0]|
    ensures var top, marks' := |stack| - 1, marks[stack[|stack| - 1].0 := 2];
            && Resumable(edges, marks', stack[..top])
            && Owed(edges, marks', stack[..top], path[..top], reports) == Owed(edges, marks, stack, path, reports)
  {
  }

  lemma {:induction false} PositionIsFrom(path: seq<nat>, node: nat)
    requires node in path
    ensures path[Position(path, node)..] == PathFrom(path, node)
  {
    if path[0] != node {
      PositionIsFrom(path[1..], node);
    }
  }

  function Position(path: seq<nat>, node: nat): (start: nat)
    requires node in path
    ensures start < |path| && path[start] == node
  {
    if path[0] == node then 0 else 1 + Position(path[1..], node)
  }

  /** Finished nodes stay finished and marked nodes stay marked. */
  ghost predicate Monotone(before: seq<nat>, marks: seq<nat>) {
    && |before| == |marks|
    && forall u :: 0 <= u < |marks| ==> (before[u] == 2 ==> marks[u] == 2) && (before[u] != 0 ==> marks[u] != 0)
  }

  /** A move leaves what is reported in the end, and how the nodes are marked then. */
  ghost predicate SameOwed(edges: Edges, marks: seq<nat>, stack: seq<(nat, nat)>, path: seq<nat>, reports: seq<seq<nat>>,
                           marks': seq<nat>, stack': seq<(nat, nat)>, path': seq<nat>, reports': seq<seq<nat>>) {
    && Resumable(edges, marks, stack) && |path| == |stack| && Resumable(edges, marks', stack') && |path'| == |stack'|
    && Owed(edges, marks', stack', path', reports') == Owed(edges, marks, stack, path, reports)
  }

  /** Follows the edge under the cursor: descends, reports a back edge, or skips a finished node. */
  method FollowEdge(edges: Edges, marks: seq<nat>, stack: seq<(nat, nat)>, path: seq<nat>, ghost back: seq<(nat, nat)>,
                    reports: seq<seq<nat>>, ghost rank: seq<nat>, ghost clock: nat)
    returns (marks': seq<nat>, stack': seq<(nat, nat)>, path': seq<nat>, ghost back': seq<(nat, nat)>, reports': seq<seq<nat>>)
    requires Searching(edges, marks, stack, path, back, reports, rank, clock)
    requires stack != [] && Slot(edges, stack[|stack| - 1])
    ensures Searching(edges, marks', stack', path', back', reports', rank, clock) && Monotone(marks, marks')
    ensures SameOwed(edges, marks, stack, path, reports, marks', stack', path', reports')
    ensures Unmarked(marks') < Unmarked(marks) ||
            (Unmarked(marks') == Unmarked(marks) && Unread(edges, stack') < Unread(edges, stack))
  {
    marks', path', back', reports' := marks, path, back, reports;
    var next := Target(edges, stack[|stack| - 1]);
    BumpUnread(edges, stack);
    CanResume(edges, marks, stack, path);
    if marks[next] == 0 {
      PushKeeps(edges, marks, stack, path, back, reports, rank, clock, next);
      TopEntry(edges, marks, stack, path);
      PushMove(edges, marks, stack, path, reports, next);
      MarkMove(marks, next);
      marks', path', stack' := marks[next := 1], path + [next], Bump(stack) + [(next, 0)];
    } else if marks[next] == 1 {
      var cycle := path[Position(path, next)..] + [next];
      CycleFound(edges, marks, stack, path, Position(path, next));
      ReportMove(edges, marks, stack, path, reports, next, cycle);
      ReportKeeps(edges, marks, stack, path, back, reports, rank, clock, next, cycle);
      back', reports', stack' := back + [stack[|stack| - 1]], reports + [cycle], Bump(stack);
    } else {
      AdvanceKeeps(edges, marks, stack, path, back, reports, rank, clock, next);
      OwedOnSkip(edges, marks, stack, path, reports, next);
      stack' := Bump(stack);
    }
  }

  lemma PushMove(edges: Edges, marks: seq<nat>, stack: seq<(nat, nat)>, path: seq<nat>, reports: seq<seq<nat>>, next: nat)
    requires Resumable(edges, marks, stack) && |path| == |stack| && Reading(edges, stack, next) && marks[next] == 0
    requires path[|path| - 1] == stack[|stack| - 1].0
    ensures SameOwed(edges, marks, stack, path, reports, marks[next := 1], Bump(stack) + [(next, 0)], path + [next], reports)
  {
    OwedOnPush(edges, marks, stack, path, reports, next);
    assert |Bump(stack) + [(next, 0)]| == |path + [next]|;
  }

  lemma MarkMove(marks: seq<nat>, next: nat)
    requires next < |marks| && marks[next] == 0
    ensures Monotone(marks, marks[next := 1]) && Unmarked(marks[next := 1]) < Unmarked(marks)
  {
    MarkingCounts(marks, next, 1);
  }

  lemma ReportMove(edges: Edges, marks: seq<nat>, stack: seq<(nat, nat)>, path: seq<nat>, reports: seq<seq<nat>>, next: nat,
                   cycle: seq<nat>)
    requires InRange(edges) && StackShape(edges, marks, stack, path) && Resumable(edges, marks, stack)
    requires Reading(edges, stack, next) && marks[next] == 1 && next in path && cycle == path[Position(path, next)..] + [next]
    ensures SameOwed(edges, marks, stack, path, reports, marks, Bump(stack), path, reports + [cycle])
  {
    PositionIsFrom(path, next);
    OwedOnReport(edges, marks, stack, path, reports, next);
  }

  lemma PopMove(edges: Edges, marks: seq<nat>, stack: seq<(nat, nat)>, path: seq<nat>, back: seq<(nat, nat)>,
                reports: seq<seq<nat>>, rank: seq<nat>, clock: nat)
    requires Searching(edges, marks, stack, path, back, reports, rank, clock) && stack != []
    requires stack[|stack| - 1].1 == |edges[path[|path| - 1]]|
    ensures var node := path[|path| - 1];
            && Searching(edges, marks[node := 2], stack[..|stack| - 1], path[..|path| - 1], back, reports, rank[node := clock], clock + 1)
            && Monotone(marks, marks[node := 2]) && Unmarked(marks[node := 2]) == Unmarked(marks)
            && Unread(edges, stack[..|stack| - 1]) < Unread(edges, stack)
  {
    PopKeeps(edges, marks, stack, path, back, reports, rank, clock);
    MarkingCounts(marks, path[|path| - 1], 2);
    assert path[|path| - 1] in path;
  }

  lemma MonotoneOn(a: seq<nat>, b: seq<nat>, c: seq<nat>, root: nat)
    requires Monotone(a, b) && Monotone(b, c) && root < |b|
    ensures Monotone(a, c) && (b[root] != 0 ==> c[root] != 0)
  {
  }

  /** One iteration: follows the edge under the cursor, or leaves a node whose edges are all read. */
  method Advance(edges: Edges, marks: seq<nat>, stack: seq<(nat, nat)>, path: seq<nat>, ghost back: seq<(nat, nat)>,
                 reports: seq<seq<nat>>, ghost rank: seq<nat>, ghost clock: nat)
    returns (marks': seq<nat>, stack': seq<(nat, nat)>, path': seq<nat>, ghost back': seq<(nat, nat)>,
             reports': seq<seq<nat>>, ghost rank': seq<nat>, ghost clock': nat)
    requires Searching(edges, marks, stack, path, back, reports, rank, clock) && stack != []
    ensures Searching(edges, marks', stack', path', back', reports', rank', clock') && Monotone(marks, marks')
    ensures SameOwed(edges, marks, stack, path, reports, marks', stack', path', reports')
    ensures Unmarked(marks') < Unmarked(marks) ||
            (Unmarked(marks') == Unmarked(marks) && Unread(edges, stack') < Unread(edges, stack))
  {
    TopEntry(edges, marks, stack, path);
    var (node, edge) := stack[|stack| - 1];
    back', reports', rank', clock' := back, reports, rank, clock;
    if edge < |edges[node]| {
      marks', stack', path', back', reports' := FollowEdge(edges, marks, stack, path, back, reports, rank, clock);
    } else {
      marks', stack', path', rank', clock' := Finish(edges, marks, stack, path, back, reports, rank, clock);
    }
  }

  lemma TopEntry(edges: Edges, marks: seq<nat>, stack: seq<(nat, nat)>, path: seq<nat>)
    requires InRange(edges) && StackShape(edges, marks, stack, path) && stack != []
    ensures var top := stack[|stack| - 1];
            path[|path| - 1] == top.0 && top.0 < |edges| && top.1 <= |edges[top.0]|
  {
  }

  /** Leaves a node whose edges are all read. */
  method Finish(edges: Edges, marks: seq<nat>, stack: seq<(nat, nat)>, path: seq<nat>, ghost back: seq<(nat, nat)>,
                ghost reports: seq<seq<nat>>, ghost rank: seq<nat>, ghost clock: nat)
    returns (marks': seq<nat>, stack': seq<(nat, nat)>, path': seq<nat>, ghost rank': seq<nat>, ghost clock': nat)
    requires Searching(edges, marks, stack, path, back, reports, rank, clock) && stack != []
    requires stack[|stack| - 1].1 == |edges[path[|path| - 1]]|
    ensures Searching(edges, marks', stack', path', back, reports, rank', clock') && Monotone(marks, marks')
    ensures SameOwed(edges, marks, stack, path, reports, marks', stack', path', reports)
    ensures Unmarked(marks') == Unmarked(marks) && Unread(edges, stack') < Unread(edges, stack)
  {
    CanResume(edges, marks, stack, path);
    OwedOnPop(edges, marks, stack, path, reports);
    PopMove(edges, marks, stack, path, back, reports, rank, clock);
    var node := path[|path| - 1];
    marks', rank', clock' := marks[node := 2], rank[node := clock], clock + 1;
    stack', path' := stack[..|stack| - 1], path[..|path| - 1];
  }

  lemma VisitStarts(edges: Edges, root: nat, marks: seq<nat>, back: seq<(nat, nat)>, reports: seq<seq<nat>>,
                    rank: seq<nat>, clock: nat)
    requires Searching(edges, marks, [], [], back, reports, rank, clock) && root < |edges| && marks[root] == 0
    ensures Searching(edges, marks[root := 1], [(root, 0)], [root], back, reports, rank, clock)
    ensures Monotone(marks, marks[root := 1])
  {
    PushKeeps(edges, marks, [], [], back, reports, rank, clock, root);
    assert Bump([]) + [(root, 0)] == [(root, 0)] && [] + [root] == [root];
  }

  lemma VisitOwes(edges: Edges, root: nat, marks: seq<nat>, reports: seq<seq<nat>>) returns (goal: Found)
    requires InRange(edges) && |marks| == |edges| && root < |edges| && marks[root] == 1
    ensures Resumable(edges, marks, [(root, 0)]) && goal == Owed(edges, marks, [(root, 0)], [root], reports)
    ensures var found := Walk(edges, marks, [root], root, 0);
            goal == Found(found.marks, reports + found.reports)
  {
    goal := Owed(edges, marks, [(root, 0)], [root], reports);
    var found := Walk(edges, marks, [root], root, 0);
    assert [(root, 0)][..0] == [] && [root][..0] == [];
    assert Unwind(edges, found.marks, [], []) == Found(found.marks, []);
    assert found.reports + [] == found.reports;
  }

  /** Reads everything reachable from `root` with an explicit stack, as the recursive search does. */
  method Visit(edges: Edges, root: nat, marks0: seq<nat>, ghost back0: seq<(nat, nat)>, reports0: seq<seq<nat>>,
               ghost rank0: seq<nat>, ghost clock0: nat)
    returns (marks: seq<nat>, ghost back: seq<(nat, nat)>, reports: seq<seq<nat>>, ghost rank: seq<nat>, ghost clock: nat)
    requires Searching(edges, marks0, [], [], back0, reports0, rank0, clock0)
    requires root < |edges| && marks0[root] == 0
    ensures Searching(edges, marks, [], [], back, reports, rank, clock)
    ensures marks[root] == 2 && Monotone(marks0, marks)
    ensures var found := Walk(edges, marks0[root := 1], [root], root, 0);
            marks == found.marks && reports == reports0 + found.reports
  {
    VisitStarts(edges, root, marks0, back0, reports0, rank0, clock0);
    marks, back, reports, rank, clock := marks0[root := 1], back0, reports0, rank0, clock0;
    var path, stack := [root], [(root, 0)];
    ghost var goal := VisitOwes(edges, root, marks, reports);
    while stack != []
      invariant Resumable(edges, marks, stack) && |path| == |stack| && Owed(edges, marks, stack, path, reports) == goal
      invariant Searching(edges, marks, stack, path, back, reports, rank, clock)
      invariant marks[root] != 0 && Monotone(marks0, marks)
      decreases Unmarked(marks), Unread(edges, stack)
    {
      ghost var before := marks;
      marks, stack, path, back, reports, rank, clock := Advance(edges, marks, stack, path, back, reports, rank, clock);
      MonotoneOn(marks0, before, marks, root);
    }
    assert root !in path;
  }

  /** The depth-first search over all roots in declaration order reports what the recursive search does. Its reports
      are genuine cycles, one for each back edge met; every closed walk of the graph takes one of those edges. */
  method Search(edges: Edges) returns (reports: seq<seq<nat>>, ghost back: seq<(nat, nat)>)
    requires InRange(edges)
    ensures |reports| == |back|
    ensures forall j :: 0 <= j < |back| ==> Report(edges, reports[j], back[j])
    ensures forall i, j :: 0 <= i < j < |back| ==> back[i] != back[j]
    ensures forall walk :: ClosedWalk(edges, walk) ==> Takes(edges, walk, back)
    ensures reports == [] <==> Acyclic(edges)
    ensures reports == WalkAll(edges, seq(|edges|, _ => 0), 0).reports
  {
    var marks;
    ghost var rank, clock;
    marks, back, reports, rank, clock := VisitAll(edges);
    SearchDecides(edges, marks, back, reports, rank, clock);
  }

  /** Visits every root that no earlier one reached. */
  method VisitAll(edges: Edges)
    returns (marks: seq<nat>, ghost back: seq<(nat, nat)>, reports: seq<seq<nat>>, ghost rank: seq<nat>, ghost clock: nat)
    requires InRange(edges)
    ensures Searching(edges, marks, [], [], back, reports, rank, clock)
    ensures forall u :: 0 <= u < |marks| ==> marks[u] == 2
    ensures reports == WalkAll(edges, seq(|edges|, _ => 0), 0).reports
  {
    marks := seq(|edges|, _ => 0);
    ghost var goal := WalkAll(edges, marks, 0).reports;
    rank, clock := seq(|edges|, _ => 0), 0;
    reports, back := [], [];
    for root := 0 to |edges|
      invariant Searching(edges, marks, [], [], back, reports, rank, clock)
      invariant forall u :: 0 <= u < root ==> marks[u] == 2
      invariant reports + WalkAll(edges, marks, root).reports == goal
    {
      if marks[root] != 0 {
        assert marks[root] == 1 ==> root in [];
        continue;
      }
      WalkAllNext(edges, marks, root, reports);
      marks, back, reports, rank, clock := Visit(edges, root, marks, back, reports, rank, clock);
    }
  }

  lemma WalkAllNext(edges: Edges, marks: seq<nat>, root: nat, reports: seq<seq<nat>>)
    requires InRange(edges) && |marks| == |edges| && root < |edges| && marks[root] == 0
    ensures var first := Walk(edges, marks[root := 1], [root], root, 0);
            (reports + first.reports) + WalkAll(edges, first.marks, root + 1).reports
            == reports + WalkAll(edges, marks, root).reports
  {
  }

  // ----- Name resolution -----

  predicate Declared(nodes: seq<Node>, name: string) {
    exists i :: 0 <= i < |nodes| && nodes[i].name == name
  }

  /** The dependencies of a name are those of its last declaration. */
  function LastDependencies(nodes: seq<Node>, name: string): seq<string>
    requires Declared(nodes, name)
  {
    var last := nodes[|nodes| - 1];
    if last.name == name then last.dependencies else LastDependencies(nodes[..|nodes| - 1], name)
  }

  /** The declared dependencies, in order, as node numbers. */
  function Resolve(ids: map<string, nat>, dependencies: seq<string>): (targets: seq<nat>)
    ensures forall v :: v in targets ==> exists d :: d in dependencies && d in ids && ids[d] == v
    ensures forall d :: d in dependencies && d in ids ==> ids[d] in targets
  {
    if dependencies == [] then []
    else
      var last := dependencies[|dependencies| - 1];
      var front := dependencies[..|dependencies| - 1];
      assert dependencies == front + [last];
      Resolve(ids, front) + if last in ids then [ids[last]] else []
  }

  /** One name depends on another: both are declared, and the last declaration says so. */
  ghost predicate DependsOn(nodes: seq<Node>, a: string, b: string) {
    Declared(nodes, a) && Declared(nodes, b) && b in LastDependencies(nodes, a)
  }

  ghost predicate NameCycle(nodes: seq<Node>, walk: seq<string>) {
    && |walk| >= 2 && walk[0] == walk[|walk| - 1]
    && forall i :: 0 <= i < |walk| - 1 ==> DependsOn(nodes, walk[i], walk[i + 1])
  }

  /** Every declared name once, where it is declared first. */
  function FirstNames(nodes: seq<Node>): seq<string> {
    if nodes == [] then []
    else
      var front, name := FirstNames(nodes[..|nodes| - 1]), nodes[|nodes| - 1].name;
      if name in front then front else front + [name]
  }

  /** A name comes where its first declaration stands among the first declarations of all names. */
  lemma {:induction false} FirstNamesLaw(nodes: seq<Node>) returns (places: seq<nat>)
    ensures ListedFirst(nodes, FirstNames(nodes), places)
    ensures forall name :: Declared(nodes, name) <==> name in FirstNames(nodes)
    decreases |nodes|
  {
    places := [];
    if nodes != [] {
      var last := |nodes| - 1;
      var front, name := FirstNames(nodes[..last]), nodes[last].name;
      places := FirstNamesLaw(nodes[..last]);
      DeclaredNext(nodes, last);
      assert nodes == nodes[..last] + [nodes[last]] && nodes[..last + 1] == nodes;
      ListedMore(nodes[..last], nodes[last], front, places);
      if name !in front {
        ListedNext(nodes[..last], nodes[last], front, places);
        places := places + [last];
      }
    }
  }

  /** The names stand in the order of their places, each at its first declaration. */
  predicate ListedFirst(nodes: seq<Node>, names: seq<string>, places: seq<nat>) {
    && |places| == |names|
    && (forall i :: 0 <= i < |places| ==> FirstDeclared(nodes, names[i], places[i]))
    && forall i, j :: 0 <= i < j < |places| ==> places[i] < places[j]
  }

  lemma ListedMore(before: seq<Node>, node: Node, names: seq<string>, places: seq<nat>)
    requires ListedFirst(before, names, places)
    ensures ListedFirst(before + [node], names, places)
  {
    forall i | 0 <= i < |places|
      ensures FirstDeclared(before + [node], names[i], places[i])
    {
      assert FirstDeclared(before, names[i], places[i]);
    }
  }

  lemma ListedNext(before: seq<Node>, node: Node, names: seq<string>, places: seq<nat>)
    requires ListedFirst(before + [node], names, places) && (forall i :: 0 <= i < |places| ==> places[i] < |before|)
    requires !Declared(before, node.name)
    ensures ListedFirst(before + [node], names + [node.name], places + [|before|])
  {
    var all := before + [node];
    assert all[|before|] == node && forall j :: 0 <= j < |before| ==> all[j] == before[j];
    assert FirstDeclared(all, node.name, |before|);
  }

  predicate FirstDeclared(nodes: seq<Node>, name: string, place: nat) {
    place < |nodes| && nodes[place].name == name && forall j :: 0 <= j < place ==> nodes[j].name != name
  }

  /** The dependencies of a name are those of the one declaration of it that no other follows. */
  lemma {:induction false} LastDependenciesLaw(nodes: seq<Node>, name: string) returns (place: nat)
    requires Declared(nodes, name)
    ensures place < |nodes| && nodes[place].name == name && LastDependencies(nodes, name) == nodes[place].dependencies
    ensures forall j :: place < j < |nodes| ==> nodes[j].name != name
    decreases |nodes|
  {
    place := |nodes| - 1;
    if nodes[place].name != name {
      var front := nodes[..place];
      var i :| 0 <= i < |nodes| && nodes[i].name == name;
      assert front[i] == nodes[i];
      place := LastDependenciesLaw(front, name);
      assert forall j :: 0 <= j < |front| ==> nodes[j] == front[j];
    }
  }

  predicate ResolvesTo(ids: map<string, nat>, dependencies: seq<string>, place: nat, id: nat) {
    place < |dependencies| && dependencies[place] in ids && id == ids[dependencies[place]]
  }

  /** The targets are what the declared dependencies resolve to, in their order. */
  predicate ResolvesAlong(ids: map<string, nat>, dependencies: seq<string>, targets: seq<nat>, places: seq<nat>) {
    && |places| == |targets|
    && (forall i :: 0 <= i < |places| ==> ResolvesTo(ids, dependencies, places[i], targets[i]))
    && (forall i, j :: 0 <= i < j < |places| ==> places[i] < places[j])
    && forall k :: 0 <= k < |dependencies| && dependencies[k] in ids ==> k in places
  }

  lemma ResolvesNext(ids: map<string, nat>, dependencies: seq<string>, targets: seq<nat>, places: seq<nat>, next: string)
    requires ResolvesAlong(ids, dependencies, targets, places)
    ensures var more := if next in ids then [ids[next]] else [];
            ResolvesAlong(ids, dependencies + [next], targets + more, places + if next in ids then [|dependencies|] else [])
  {
    var all, last := dependencies + [next], |dependencies|;
    var places' := places + if next in ids then [last] else [];
    assert forall i :: 0 <= i < |places| ==> ResolvesTo(ids, dependencies, places[i], targets[i]);
    forall k | 0 <= k < |all| && all[k] in ids
      ensures k in places'
    {
      if k < last {
        assert dependencies[k] in ids && k in places;
      }
    }
  }

  /** Dependencies resolve in their order, repeated ones as often as they stand there, and unknown ones to nothing. */
  lemma {:induction false} ResolveLaw(ids: map<string, nat>, dependencies: seq<string>) returns (places: seq<nat>)
    ensures ResolvesAlong(ids, dependencies, Resolve(ids, dependencies), places)
    decreases |dependencies|
  {
    places := [];
    if dependencies != [] {
      var last := |dependencies| - 1;
      var front := dependencies[..last];
      places := ResolveLaw(ids, front);
      ResolvesNext(ids, front, Resolve(ids, front), places, dependencies[last]);
      assert dependencies == front + [dependencies[last]];
      places := places + if dependencies[last] in ids then [|front|] else [];
    }
  }

  datatype Graph = Graph(names: seq<string>, ids: map<string, nat>, edges: Edges)

  ghost predicate Numbered(graph: Graph) {
    && (forall name :: name in graph.ids ==> graph.ids[name] < |graph.names| && graph.names[graph.ids[name]] == name)
    && (forall i :: 0 <= i < |graph.names| ==> graph.names[i] in graph.ids && graph.ids[graph.names[i]] == i)
  }

  /** The graph of a declaration list: names are numbered once each, in the order of their first declarations, and the edges are the resolved
      dependencies of their last declarations. */
  ghost predicate Assembled(nodes: seq<Node>, graph: Graph) {
    && Numbered(graph) && |graph.edges| == |graph.names| && graph.names == FirstNames(nodes)
    && (forall name :: name in graph.ids <==> Declared(nodes, name))
    && (forall name :: Declared(nodes, name) ==>
          graph.edges[graph.ids[name]] == Resolve(graph.ids, LastDependencies(nodes, name)))
  }

  method Assemble(nodes: seq<Node>) returns (graph: Graph)
    ensures Assembled(nodes, graph) && InRange(graph.edges)
  {
    var names, ids := NumberNames(nodes);
    var edges: Edges := seq(|names|, _ => []);
    for i := 0 to |nodes|
      invariant |edges| == |names|
      invariant forall name :: Declared(nodes[..i], name) ==>
                  name in ids && edges[ids[name]] == Resolve(ids, LastDependencies(nodes[..i], name))
    {
      DeclaredNext(nodes, i);
      assert nodes[..i + 1][..i] == nodes[..i];
      assert Declared(nodes, nodes[i].name);
      edges := edges[ids[nodes[i].name] := Resolve(ids, nodes[i].dependencies)];
    }
    assert nodes[..|nodes|] == nodes;
    graph := Graph(names, ids, edges);
    AssembledInRange(nodes, graph);
  }

  /** Numbers every name where it is declared first. */
  method NumberNames(nodes: seq<Node>) returns (names: seq<string>, ids: map<string, nat>)
    ensures names == FirstNames(nodes) && Numbered(Graph(names, ids, []))
    ensures forall name :: name in ids <==> Declared(nodes, name)
  {
    ids, names := map[], [];
    for i := 0 to |nodes|
      invariant Numbered(Graph(names, ids, [])) && names == FirstNames(nodes[..i])
      invariant forall name :: name in ids <==> Declared(nodes[..i], name)
    {
      var name := nodes[i].name;
      NumberNext(nodes[..i], nodes[i], names, ids);
      assert nodes[..i + 1] == nodes[..i] + [nodes[i]];
      if name !in ids {
        ids := ids[name := |names|];
        names := names + [name];
      }
    }
    assert nodes[..|nodes|] == nodes;
  }

  lemma NumberNext(before: seq<Node>, node: Node, names: seq<string>, ids: map<string, nat>)
    requires Numbered(Graph(names, ids, [])) && names == FirstNames(before)
    requires forall name :: name in ids <==> Declared(before, name)
    ensures forall name :: Declared(before + [node], name) <==> Declared(before, name) || name == node.name
    ensures FirstNames(before + [node]) == if node.name in ids then names else names + [node.name]
    ensures node.name !in ids ==> Numbered(Graph(names + [node.name], ids[node.name := |names|], []))
  {
    var all := before + [node];
    assert all[..|before|] == before;
    DeclaredNext(all, |before|);
    assert all[..|before| + 1] == all;
    assert node.name in names <==> node.name in ids;
  }

  lemma AssembledInRange(nodes: seq<Node>, graph: Graph)
    requires Assembled(nodes, graph)
    ensures InRange(graph.edges)
  {
    forall u, k | 0 <= u < |graph.edges| && 0 <= k < |graph.edges[u]|
      ensures graph.edges[u][k] < |graph.edges|
    {
      var name := graph.names[u];
      assert graph.edges[u] == Resolve(graph.ids, LastDependencies(nodes, name));
      assert graph.edges[u][k] in graph.edges[u];
    }
  }

  lemma DeclaredNext(nodes: seq<Node>, i: nat)
    requires i < |nodes|
    ensures nodes[..i + 1] == nodes[..i] + [nodes[i]]
    ensures forall name :: Declared(nodes[..i + 1], name) <==> Declared(nodes[..i], name) || name == nodes[i].name
  {
    forall name
      ensures Declared(nodes[..i + 1], name) <==> Declared(nodes[..i], name) || name == nodes[i].name
    {
      if Declared(nodes[..i], name) {
        var k :| 0 <= k < i && nodes[..i][k].name == name;
        assert nodes[..i + 1][k].name == name;
      }
      if name == nodes[i].name {
        assert nodes[..i + 1][i].name == name;
      }
    }
  }

  function Named(graph: Graph, walk: seq<nat>): seq<string>
    requires forall u :: u in walk ==> u < |graph.names|
  {
    seq(|walk|, i requires 0 <= i < |walk| => assert walk[i] in walk; graph.names[walk[i]])
  }

  lemma StepIsDependency(nodes: seq<Node>, graph: Graph, a: string, b: string)
    requires Assembled(nodes, graph)
    ensures DependsOn(nodes, a, b) <==>
            a in graph.ids && b in graph.ids && Step(graph.edges, graph.ids[a], graph.ids[b])
  {
    if a in graph.ids && b in graph.ids && Step(graph.edges, graph.ids[a], graph.ids[b]) {
      var d :| d in LastDependencies(nodes, a) && d in graph.ids && graph.ids[d] == graph.ids[b];
      assert d == graph.names[graph.ids[d]] == b;
    }
  }

  lemma WalkInRange(edges: Edges, walk: seq<nat>)
    requires InRange(edges) && ClosedWalk(edges, walk)
    ensures forall u :: u in walk ==> u < |edges|
  {
    forall i | 0 <= i < |walk|
      ensures walk[i] < |edges|
    {
      if i > 0 {
        assert Step(edges, walk[i - 1], walk[i - 1 + 1]);
        var k :| 0 <= k < |edges[walk[i - 1]]| && edges[walk[i - 1]][k] == walk[i];
      } else {
        assert Step(edges, walk[0], walk[0 + 1]);
      }
    }
  }

  lemma StepNamed(nodes: seq<Node>, graph: Graph, u: nat, v: nat)
    requires Assembled(nodes, graph) && u < |graph.names| && v < |graph.names| && Step(graph.edges, u, v)
    ensures DependsOn(nodes, graph.names[u], graph.names[v])
  {
    StepIsDependency(nodes, graph, graph.names[u], graph.names[v]);
  }

  lemma WalkIsNameCycle(nodes: seq<Node>, graph: Graph, walk: seq<nat>)
    requires Assembled(nodes, graph) && InRange(graph.edges) && ClosedWalk(graph.edges, walk)
    ensures forall u :: u in walk ==> u < |graph.names|
    ensures NameCycle(nodes, Named(graph, walk))
  {
    WalkInRange(graph.edges, walk);
    var named := Named(graph, walk);
    forall i | 0 <= i < |named| - 1
      ensures DependsOn(nodes, named[i], named[i + 1])
    {
      assert walk[i] in walk && walk[i + 1] in walk;
      StepNamed(nodes, graph, walk[i], walk[i + 1]);
    }
  }

  function Numbers(graph: Graph, walk: seq<string>): seq<nat>
    requires forall i :: 0 <= i < |walk| ==> walk[i] in graph.ids
  {
    seq(|walk|, i requires 0 <= i < |walk| => graph.ids[walk[i]])
  }

  lemma NamesAreNumbered(nodes: seq<Node>, graph: Graph, walk: seq<string>)
    requires Assembled(nodes, graph) && NameCycle(nodes, walk)
    ensures forall i :: 0 <= i < |walk| ==> walk[i] in graph.ids
  {
    forall i | 0 <= i < |walk|
      ensures walk[i] in graph.ids
    {
      var j := if i < |walk| - 1 then i else 0;
      assert DependsOn(nodes, walk[j], walk[j + 1]);
    }
  }

  lemma NameCycleIsWalk(nodes: seq<Node>, graph: Graph, walk: seq<string>)
    requires Assembled(nodes, graph) && NameCycle(nodes, walk)
    ensures forall i :: 0 <= i < |walk| ==> walk[i] in graph.ids
    ensures ClosedWalk(graph.edges, Numbers(graph, walk))
  {
    NamesAreNumbered(nodes, graph, walk);
    var numbered := Numbers(graph, walk);
    forall i | 0 <= i < |numbered| - 1
      ensures Step(graph.edges, numbered[i], numbered[i + 1])
    {
      assert DependsOn(nodes, walk[i], walk[i + 1]);
      StepIsDependency(nodes, graph, walk[i], walk[i + 1]);
    }
    NumbersClose(graph, walk);
  }

  lemma NumbersClose(graph: Graph, walk: seq<string>)
    requires |walk| >= 2 && walk[0] == walk[|walk| - 1] && forall i :: 0 <= i < |walk| ==> walk[i] in graph.ids
    ensures var numbered := Numbers(graph, walk);
            |numbered| == |walk| && numbered[0] == numbered[|numbered| - 1]
  {
  }

  /** Names appear once, except that the first closes the cycle. */
  ghost predicate SimpleCycle(cycle: seq<string>) {
    |cycle| >= 2 && cycle[0] == cycle[|cycle| - 1] && forall i, j :: 0 <= i < j < |cycle| - 1 ==> cycle[i] != cycle[j]
  }

  /** Cycle detection over a declaration list is decisive: it reports nothing exactly when no name
      depends on itself through others, and every report is a simple cycle of declared dependencies. The reports
      are those of the recursive search over the names in declaration order. */
  method Cycles(nodes: seq<Node>) returns (cycles: seq<seq<string>>, ghost graph: Graph)
    ensures Assembled(nodes, graph) && InRange(graph.edges)
    ensures ReadsAs(graph, WalkAll(graph.edges, seq(|graph.edges|, _ => 0), 0).reports, cycles)
    ensures cycles == [] <==> forall walk :: !NameCycle(nodes, walk)
    ensures forall c :: 0 <= c < |cycles| ==> NameCycle(nodes, cycles[c]) && SimpleCycle(cycles[c])
  {
    var assembled := Assemble(nodes);
    graph := assembled;
    var reports;
    ghost var back;
    reports, back := Search(assembled.edges);
    cycles := NameReports(nodes, assembled, reports, back);
    assert forall c :: 0 <= c < |cycles| ==> Told(nodes, graph, reports[c], cycles[c]);
    if reports == [] {
      AcyclicNames(nodes, graph);
    } else {
      assert NameCycle(nodes, cycles[0]);
    }
  }

  /** Each report, with the names of its nodes. */
  ghost predicate ReadsAs(graph: Graph, reports: seq<seq<nat>>, cycles: seq<seq<string>>) {
    && |cycles| == |reports|
    && forall c :: 0 <= c < |cycles| ==> SpelledAs(graph, reports[c], cycles[c])
  }

  ghost predicate SpelledAs(graph: Graph, walk: seq<nat>, cycle: seq<string>) {
    |cycle| == |walk| && forall i :: 0 <= i < |walk| ==> walk[i] < |graph.names| && cycle[i] == graph.names[walk[i]]
  }

  ghost predicate Reporting(nodes: seq<Node>, graph: Graph, reports: seq<seq<nat>>, back: seq<(nat, nat)>) {
    && Assembled(nodes, graph) && InRange(graph.edges) && |reports| == |back|
    && forall j :: 0 <= j < |back| ==> Report(graph.edges, reports[j], back[j])
  }

  ghost predicate Told(nodes: seq<Node>, graph: Graph, walk: seq<nat>, cycle: seq<string>) {
    SpelledAs(graph, walk, cycle) && NameCycle(nodes, cycle) && SimpleCycle(cycle)
  }

  method NameReports(ghost nodes: seq<Node>, graph: Graph, reports: seq<seq<nat>>, ghost back: seq<(nat, nat)>)
    returns (cycles: seq<seq<string>>)
    requires Reporting(nodes, graph, reports, back)
    ensures |cycles| == |reports| && ToldFirst(nodes, graph, reports, cycles)
  {
    cycles := [];
    for c := 0 to |reports|
      invariant |cycles| == c && ToldFirst(nodes, graph, reports, cycles)
    {
      var cycle := NameReport(nodes, graph, reports, back, c);
      ToldNext(nodes, graph, reports, cycles, cycle);
      cycles := cycles + [cycle];
    }
  }

  /** The first reports are told by the cycles. */
  ghost predicate ToldFirst(nodes: seq<Node>, graph: Graph, reports: seq<seq<nat>>, cycles: seq<seq<string>>) {
    |cycles| <= |reports| && forall c :: 0 <= c < |cycles| ==> Told(nodes, graph, reports[c], cycles[c])
  }

  lemma ToldNext(nodes: seq<Node>, graph: Graph, reports: seq<seq<nat>>, cycles: seq<seq<string>>, cycle: seq<string>)
    requires ToldFirst(nodes, graph, reports, cycles) && |cycles| < |reports|
    requires Told(nodes, graph, reports[|cycles|], cycle)
    ensures ToldFirst(nodes, graph, reports, cycles + [cycle])
  {
  }

  method NameReport(ghost nodes: seq<Node>, graph: Graph, reports: seq<seq<nat>>, ghost back: seq<(nat, nat)>, c: nat)
    returns (cycle: seq<string>)
    requires Reporting(nodes, graph, reports, back) && c < |reports|
    ensures Told(nodes, graph, reports[c], cycle)
  {
    ReportIsCycle(nodes, graph, reports, back, c);
    cycle := Named(graph, reports[c]);
  }

  lemma ReportIsCycle(nodes: seq<Node>, graph: Graph, reports: seq<seq<nat>>, back: seq<(nat, nat)>, c: nat)
    requires Reporting(nodes, graph, reports, back) && c < |reports|
    ensures forall u :: u in reports[c] ==> u < |graph.names|
    ensures Told(nodes, graph, reports[c], Named(graph, reports[c]))
  {
    var walk := reports[c];
    assert Report(graph.edges, walk, back[c]);
    WalkIsNameCycle(nodes, graph, walk);
    NamedSimple(graph, walk);
    assert forall i :: 0 <= i < |walk| ==> walk[i] in walk;
  }

  lemma AcyclicNames(nodes: seq<Node>, graph: Graph)
    requires Assembled(nodes, graph) && Acyclic(graph.edges)
    ensures forall walk :: !NameCycle(nodes, walk)
  {
    forall walk
      ensures !NameCycle(nodes, walk)
    {
      if NameCycle(nodes, walk) {
        NameCycleIsWalk(nodes, graph, walk);
      }
    }
  }

  lemma NamedSimple(graph: Graph, walk: seq<nat>)
    requires Numbered(graph) && (forall u :: u in walk ==> u < |graph.names|)
    requires |walk| >= 2 && walk[0] == walk[|walk| - 1] && Distinct(walk[..|walk| - 1])
    ensures SimpleCycle(Named(graph, walk))
  {
    var named := Named(graph, walk);
    forall i, j | 0 <= i < j < |named| - 1
      ensures named[i] != named[j]
    {
      assert walk[..|walk| - 1][i] != walk[..|walk| - 1][j];
      assert walk[i] in walk && walk[j] in walk;
      assert graph.ids[named[i]] == walk[i] && graph.ids[named[j]] == walk[j];
    }
  }
}
