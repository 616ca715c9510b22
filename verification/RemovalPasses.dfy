/** The passes of optimizer.go that remove instructions, removeZeroInstructionJumps,
    removeDeadCode and removeRedundantLoads, on top of codeRemoval. */
module RemovalPasses {
  import opened Bpf
  import opened Options
  import opened Validator
  import opened Simulation
  import opened Removal
  import opened RedundantLoads

  // ---------------------------------------------------------------------
  // sort.Ints
  // ---------------------------------------------------------------------

  function Insert(x: nat, s: seq<nat>): seq<nat> {
    if s == [] || x <= s[0] then [x] + s else [s[0]] + Insert(x, s[1..])
  }

  function SortInts(s: seq<nat>): seq<nat> {
    if s == [] then [] else Insert(s[0], SortInts(s[1..]))
  }

  ghost predicate Distinct(s: seq<nat>) {
    forall i, j | 0 <= i < j < |s| :: s[i] != s[j]
  }

  lemma {:induction false} InsertIncreasing(x: nat, s: seq<nat>)
    requires Increasing(s) && x !in s
    ensures Increasing(Insert(x, s))
    ensures forall y :: y in Insert(x, s) <==> y == x || y in s
  {
    if s == [] || x <= s[0] {
      assert Insert(x, s)[0] == x && Insert(x, s)[1..] == s;
    } else {
      assert s == [s[0]] + s[1..];
      InsertIncreasing(x, s[1..]);
      var rest := Insert(x, s[1..]);
      forall i | 0 <= i < |rest|
        ensures s[0] < rest[i]
      {
        assert rest[i] in rest;
      }
    }
  }

  /** Sorting distinct indices gives the increasing list of the same indices. */
  lemma {:induction false} SortIntsIncreasing(s: seq<nat>, n: nat)
    requires Distinct(s) && Below(s, n)
    ensures Increasing(SortInts(s)) && Below(SortInts(s), n)
    ensures forall x :: x in SortInts(s) <==> x in s
  {
    if s != [] {
      assert s == [s[0]] + s[1..];
      SortIntsIncreasing(s[1..], n);
      InsertIncreasing(s[0], SortInts(s[1..]));
      forall i | 0 <= i < |SortInts(s)|
        ensures SortInts(s)[i] < n
      {
        assert SortInts(s)[i] in s;
      }
    }
  }

  lemma {:induction false} SortIntsSorted(s: seq<nat>)
    requires Increasing(s)
    ensures SortInts(s) == s
  {
    if s != [] {
      SortIntsSorted(s[1..]);
      assert s == [s[0]] + s[1..];
    }
  }

  // ---------------------------------------------------------------------
  // codeRemoval
  // ---------------------------------------------------------------------

  /** Takes the instruction at r out of the slice of n instructions. */
  method Delete(insns: array<Instruction>, n: nat, r: nat)
    requires r < n <= insns.Length
    modifies insns
    ensures forall j | 0 <= j < r :: insns[j] == old(insns[j])
    ensures forall j | r <= j < n - 1 :: insns[j] == old(insns[j + 1])
  {
    for j := r to n - 1
      invariant forall k | 0 <= k < r :: insns[k] == old(insns[k])
      invariant forall k | r <= k < j :: insns[k] == old(insns[k + 1])
      invariant forall k | j <= k < n :: insns[k] == old(insns[k])
    {
      insns[j] := insns[j + 1];
    }
  }

  method DecrementJumps(insns: array<Instruction>, target: nat)
    requires target <= insns.Length
    modifies insns
    ensures forall pc | 0 <= pc < target :: insns[pc] == DecrementedJump(old(insns[pc]), pc, target)
    ensures forall pc | target <= pc < insns.Length :: insns[pc] == old(insns[pc])
  {
    for pc := 0 to target
      invariant forall j | 0 <= j < pc :: insns[j] == DecrementedJump(old(insns[j]), j, target)
      invariant forall j | pc <= j < insns.Length :: insns[j] == old(insns[j])
    {
      var ins := insns[pc];
      if IsJump(ins) {
        if IsUnconditionalJump(ins) {
          if pc + ins.k + 1 > target {
            ins := ins.(k := ins.k - 1);
          }
        } else {
          if pc + ins.jt + 1 > target {
            ins := ins.(jt := ins.jt - 1);
          }
          if pc + ins.jf + 1 > target {
            ins := ins.(jf := ins.jf - 1);
          }
        }
        insns[pc] := ins;
      }
    }
  }

  /** One round of Apply's loop. */
  method RemoveInstruction(insns: array<Instruction>, n: nat, pc: nat)
    requires pc < n <= insns.Length
    modifies insns
    ensures insns[..n - 1] == RemoveAt(old(insns[..n]), pc)
  {
    Delete(insns, n, pc);
    DecrementJumps(insns, pc);
  }

  lemma RemoveAllStep(p: seq<Instruction>, rs: seq<nat>)
    requires rs != [] && Increasing(rs) && Below(rs, |p|)
    ensures var r, rest := rs[|rs| - 1], rs[..|rs| - 1];
            && Below(rest, |RemoveAt(p, r)|)
            && RemoveAll(p, rs) == RemoveAll(RemoveAt(p, r), rest)
  {
  }

  lemma DropLast(rs: seq<nat>, n: nat)
    requires rs != [] && Increasing(rs) && Below(rs, n)
    ensures rs[|rs| - 1] < n && Increasing(rs[..|rs| - 1]) && Below(rs[..|rs| - 1], n - 1)
  {
  }

  /** Removing one index after the other, from the last: None is a slice out of
      bounds. */
  ghost function RemoveEach(p: seq<Instruction>, rs: seq<nat>): Option<seq<Instruction>>
    decreases |rs|
  {
    if rs == [] then Some(p)
    else if rs[|rs| - 1] >= |p| then None
    else RemoveEach(RemoveAt(p, rs[|rs| - 1]), rs[..|rs| - 1])
  }

  /** Different indices can always be removed, and then exactly they are. */
  lemma {:induction false} RemoveEachIsAll(p: seq<Instruction>, rs: seq<nat>)
    requires Increasing(rs) && Below(rs, |p|)
    ensures RemoveEach(p, rs) == Some(RemoveAll(p, rs))
    decreases |rs|
  {
    hide RemoveAt;
    if rs != [] {
      DropLast(rs, |p|);
      RemoveAllStep(p, rs);
      RemoveAtLength(p, rs[|rs| - 1]);
      RemoveEachIsAll(RemoveAt(p, rs[|rs| - 1]), rs[..|rs| - 1]);
    }
  }

  /** An index marked twice takes its neighbour with it, and is out of bounds at
      the end of the program. */
  lemma MarkedTwice(p: seq<Instruction>, r: nat)
    requires r < |p|
    ensures RemoveEach(p, [r, r]) ==
              if r + 1 == |p| then None else Some(RemoveAt(RemoveAt(p, r), r))
  {
    RemoveAtLength(p, r);
    hide RemoveAt;
    assert [r, r][..1] == [r] && [r][..0] == [];
    if r + 1 < |p| { assert RemoveEach(RemoveAt(p, r), [r]) == RemoveEach(RemoveAt(RemoveAt(p, r), r), []); }
  }

  /** Apply's loop over the sorted indices. */
  method RemoveDescending(insns: array<Instruction>, n: nat, rs: seq<nat>) returns (n': nat, ok: bool)
    requires n <= insns.Length
    modifies insns
    ensures ok <==> RemoveEach(old(insns[..n]), rs).Some?
    ensures ok ==> n' + |rs| == n && insns[..n'] == RemoveEach(old(insns[..n]), rs).value
  {
    hide RemoveAt;
    ghost var p := insns[..n];
    n' := n;
    var i := |rs| - 1;
    assert rs[..i + 1] == rs;
    while i >= 0
      invariant -1 <= i < |rs| && n' + |rs| == n + i + 1 && n' <= insns.Length
      invariant RemoveEach(p, rs) == RemoveEach(insns[..n'], rs[..i + 1])
    {
      ghost var prefix := rs[..i + 1];
      assert prefix[..i] == rs[..i] && prefix[i] == rs[i];
      if rs[i] >= n' {
        return n', false;
      }
      RemoveInstruction(insns, n', rs[i]);
      n' := n' - 1;
      i := i - 1;
    }
    return n', true;
  }

  class CodeRemoval {
    const insns: array<Instruction>
    var n: nat
    var toRemove: seq<nat>

    ghost predicate Valid()
      reads this
    {
      n <= insns.Length && Below(toRemove, n)
    }

    constructor (insns: array<Instruction>, n: nat)
      requires n <= insns.Length
      ensures Valid() && this.insns == insns && this.n == n && toRemove == []
    {
      this.insns := insns;
      this.n := n;
      toRemove := [];
    }

    method MarkRemoved(index: nat)
      requires Valid() && index < n
      modifies this`toRemove
      ensures Valid() && toRemove == old(toRemove) + [index]
    {
      toRemove := toRemove + [index];
    }

    /** False for ok is a slice out of bounds, which takes an index marked twice. */
    method Apply() returns (changed: bool, ok: bool)
      requires Valid()
      modifies this, insns
      ensures ok ==> changed == (old(toRemove) != []) && n + old(|toRemove|) == old(n)
      ensures ok <==> RemoveEach(old(insns[..n]), SortInts(old(toRemove))).Some?
      ensures ok ==> insns[..n] == RemoveEach(old(insns[..n]), SortInts(old(toRemove))).value
      ensures old(Distinct(toRemove)) ==>
                && ok && Increasing(SortInts(old(toRemove))) && Below(SortInts(old(toRemove)), old(n))
                && insns[..n] == RemoveAll(old(insns[..n]), SortInts(old(toRemove)))
    {
      hide RemoveEach;
      hide RemoveAll;
      if Distinct(toRemove) {
        SortIntsIncreasing(toRemove, n);
        RemoveEachIsAll(insns[..n], SortInts(toRemove));
      }
      SortIntsLength(toRemove);
      if |toRemove| == 0 {
        NothingRemoved(insns[..n]);
        return false, true;
      }
      toRemove := SortInts(toRemove);
      var n';
      n', ok := RemoveDescending(insns, n, toRemove);
      if ok {
        n := n';
      }
      return true, ok;
    }
  }

  lemma NothingRemoved(p: seq<Instruction>)
    ensures RemoveEach(p, []) == Some(p)
  {
  }

  lemma {:induction false} SortIntsLength(s: seq<nat>)
    ensures |SortInts(s)| == |s|
  {
    if s != [] {
      SortIntsLength(s[1..]);
      InsertLength(s[0], SortInts(s[1..]));
    }
  }

  lemma {:induction false} InsertLength(x: nat, s: seq<nat>)
    ensures |Insert(x, s)| == |s| + 1
  {
    if s != [] { InsertLength(x, s[1..]); }
  }

  // ---------------------------------------------------------------------
  // removeZeroInstructionJumps
  // ---------------------------------------------------------------------

  method RemoveZeroInstructionJumps(insns: array<Instruction>, n: nat)
    returns (n': nat, changed: bool, ghost removed: seq<nat>)
    requires n <= insns.Length
    modifies insns
    ensures Increasing(removed) && Below(removed, n)
    ensures forall pc | 0 <= pc < n :: pc in removed <==> IsZeroJump(old(insns[pc]))
    ensures n' == n - |removed| && insns[..n'] == RemoveAll(old(insns[..n]), removed)
    ensures changed <==> removed != []
  {
    var removal := new CodeRemoval(insns, n);
    for pc := 0 to n
      invariant removal.Valid() && removal.insns == insns && removal.n == n && fresh(removal)
      invariant insns[..] == old(insns[..])
      invariant Increasing(removal.toRemove) && Below(removal.toRemove, pc)
      invariant forall j | 0 <= j < pc :: j in removal.toRemove <==> IsZeroJump(old(insns[j]))
    {
      var ins := insns[pc];
      if IsUnconditionalJump(ins) && ins.k == 0 {
        removal.MarkRemoved(pc);
      }
    }
    removed := removal.toRemove;
    SortIntsSorted(removed);
    var ch, _ := removal.Apply();
    changed := ch;
    n' := removal.n;
  }

  // ---------------------------------------------------------------------
  // removeDeadCode
  // ---------------------------------------------------------------------

  lemma StartReachable(p: seq<Instruction>)
    requires |p| > 0
    ensures Reachable(p, 0)
  {
  }

  /** The cursors added after an instruction, in the source's order. */
  function Targets(i: Instruction, pc: nat): seq<nat> {
    if IsReturn(i) then []
    else if IsJump(i) then
      if IsUnconditionalJump(i) then [pc + i.k + 1] else [pc + i.jt + 1, pc + i.jf + 1]
    else [pc + 1]
  }

  lemma TargetsAreSuccessors(i: Instruction, pc: nat)
    ensures forall s :: s in Targets(i, pc) <==> s in Successors(i, pc)
  {
  }

  /** What the worklist keeps: everything marked or queued is reachable, and
      whatever a marked instruction leads to is marked or queued. */
  ghost predicate Explored(p: seq<Instruction>, marked: set<nat>, cursors: seq<nat>) {
    && (forall c | c in cursors :: c < |p| && Reachable(p, c))
    && (forall x | x in marked :: x < |p| && Reachable(p, x))
    && (0 in marked || 0 in cursors)
    && (forall x, s | x in marked && s in Successors(p[x], x) :: s in marked || s in cursors)
  }

  lemma ExploreMarked(p: seq<Instruction>, marked: set<nat>, cursors: seq<nat>)
    requires Explored(p, marked, cursors) && cursors != [] && cursors[0] in marked
    ensures Explored(p, marked, cursors[1..])
  {
    hide Reachable;
    hide Successors;
    assert cursors == [cursors[0]] + cursors[1..];
    assert forall x :: x in cursors <==> x == cursors[0] || x in cursors[1..];
  }

  lemma ExploreNew(p: seq<Instruction>, marked: set<nat>, cursors: seq<nat>)
    requires FlowsInside(p) && Explored(p, marked, cursors) && cursors != []
    ensures cursors[0] < |p|
    ensures Explored(p, marked + {cursors[0]}, cursors[1..] + Targets(p[cursors[0]], cursors[0]))
  {
    hide Reachable;
    hide Successors;
    hide OpValid;
    hide Targets;
    var c := cursors[0];
    assert c in cursors;
    assert cursors == [c] + cursors[1..];
    TargetsAreSuccessors(p[c], c);
    assert TargetsWithin(p[c], c, |p|);
    forall s | s in Successors(p[c], c)
      ensures s < |p| && Reachable(p, s)
    {
      ReachableStep(p, c, s);
    }
  }

  lemma ExploreDone(p: seq<Instruction>, marked: set<nat>, pc: nat)
    requires Explored(p, marked, [])
    ensures pc in marked <==> Reachable(p, pc)
  {
    hide Reachable;
    hide Successors;
    if Reachable(p, pc) {
      assert ClosedSet(p, marked);
      ReachableInClosedSet(p, marked, pc);
    }
  }

  /** The worklist that marks what is reachable. */
  method MarkReachable(insns: array<Instruction>, n: nat) returns (reachable: array<bool>)
    requires n <= insns.Length && FlowsInside(insns[..n])
    ensures fresh(reachable) && reachable.Length == n
    ensures forall pc | 0 <= pc < n :: reachable[pc] <==> Reachable(insns[..n], pc)
  {
    ghost var p := insns[..n];
    StartReachable(p);
    hide FlowsInside;
    hide Reachable;
    hide Successors;
    hide Targets;
    reachable := new bool[n](_ => false);
    var cursors := [0];
    ghost var marked: set<nat>, unmarked := {}, AllPcs(n);
    while |cursors| > 0
      invariant Explored(p, marked, cursors)
      invariant forall pc | 0 <= pc < n :: reachable[pc] <==> pc in marked
      invariant unmarked == AllPcs(n) - marked
      decreases unmarked, |cursors|
    {
      hide Explored;
      ExploreNew(p, marked, cursors);
      var cursor := cursors[0];
      if reachable[cursor] {
        ExploreMarked(p, marked, cursors);
        cursors := cursors[1..];
      } else {
        reachable[cursor] := true;
        marked, unmarked := marked + {cursor}, unmarked - {cursor};
        cursors := cursors[1..] + Targets(insns[cursor], cursor);
      }
    }
    forall pc | 0 <= pc < n ensures pc in marked <==> Reachable(p, pc) {
      ExploreDone(p, marked, pc);
    }
  }

  method RemoveDeadCode(insns: array<Instruction>, n: nat)
    returns (n': nat, changed: bool, ghost removed: seq<nat>)
    requires n <= insns.Length && FlowsInside(insns[..n])
    modifies insns
    ensures Increasing(removed) && Below(removed, n)
    ensures forall pc | 0 <= pc < n :: pc in removed <==> !Reachable(old(insns[..n]), pc)
    ensures n' == n - |removed| && insns[..n'] == RemoveAll(old(insns[..n]), removed)
    ensures changed <==> removed != []
  {
    ghost var p := insns[..n];
    var reachable := MarkReachable(insns, n);
    var removal := new CodeRemoval(insns, n);
    hide Reachable;
    hide FlowsInside;
    for pc := 0 to n
      invariant removal.Valid() && removal.insns == insns && removal.n == n && fresh(removal)
      invariant insns[..] == old(insns[..])
      invariant forall j | 0 <= j < n :: reachable[j] <==> Reachable(p, j)
      invariant Increasing(removal.toRemove) && Below(removal.toRemove, pc)
      invariant forall j | 0 <= j < pc :: j in removal.toRemove <==> !Reachable(p, j)
    {
      if !reachable[pc] {
        removal.MarkRemoved(pc);
      }
    }
    removed := removal.toRemove;
    SortIntsSorted(removed);
    var ch, _ := removal.Apply();
    changed := ch;
    n' := removal.n;
  }

  ghost function ReachableSet(p: seq<Instruction>): set<nat> {
    set pc | 0 <= pc < |p| && Reachable(p, pc)
  }

  lemma ReachableSetValid(p: seq<Instruction>)
    requires FlowsInside(p)
    ensures ValidOn(p, ReachableSet(p))
  {
    hide OpValid;
    forall pc | pc in ReachableSet(p)
      ensures OpValid(p[pc]) && forall s | s in Successors(p[pc], pc) :: s in ReachableSet(p)
    {
      assert TargetsWithin(p[pc], pc, |p|);
      forall s | s in Successors(p[pc], pc)
        ensures s in ReachableSet(p)
      {
        ReachableStep(p, pc, s);
      }
    }
  }

  lemma DeadCodeSound(p: seq<Instruction>, removed: seq<nat>)
    requires FlowsInside(p) && Increasing(removed) && Below(removed, |p|)
    requires forall pc | 0 <= pc < |p| :: pc in removed <==> !Reachable(p, pc)
    ensures FlowsInside(RemoveAll(p, removed))
    ensures Improves(p, RemoveAll(p, removed))
    ensures NoNewPlain(p, RemoveAll(p, removed))
  {
    hide FlowsInside;
    hide Improves;
    hide NoNewPlain;
    hide RemoveAll;
    hide Reachable;
    hide ValidOn;
    ReachableSetValid(p);
    RemoveAllDead(p, removed, ReachableSet(p));
  }

  // ---------------------------------------------------------------------
  // removeRedundantLoads
  // ---------------------------------------------------------------------

  /** The predecessors of t among the first c instructions. */
  function PredecessorsBelow(p: seq<Instruction>, t: nat, c: nat): set<nat> {
    set q: nat | q < |p| && q < c && t in Successors(p[q], q) :: q
  }

  lemma PredecessorsBelowStep(p: seq<Instruction>, t: nat, c: nat)
    requires c < |p|
    ensures PredecessorsBelow(p, t, c + 1)
            == PredecessorsBelow(p, t, c) + (if t in Targets(p[c], c) then {c} else {})
  {
    TargetsAreSuccessors(p[c], c);
  }

  /** Record pc as a predecessor of each of its targets. */
  method AddPredecessor(reverseWalk: array<set<nat>>, targets: seq<nat>, pc: nat)
    requires forall k | 0 <= k < |targets| :: targets[k] < reverseWalk.Length
    modifies reverseWalk
    ensures forall t | 0 <= t < reverseWalk.Length ::
              reverseWalk[t] == old(reverseWalk[t]) + (if t in targets then {pc} else {})
  {
    for k := 0 to |targets|
      invariant forall t | 0 <= t < reverseWalk.Length ::
                  reverseWalk[t] == old(reverseWalk[t]) + (if t in targets[..k] then {pc} else {})
    {
      reverseWalk[targets[k]] := reverseWalk[targets[k]] + {pc};
      assert targets[..k + 1] == targets[..k] + [targets[k]];
    }
    assert targets[..|targets|] == targets;
  }

  method BuildReverseWalk(insns: array<Instruction>, n: nat) returns (reverseWalk: array<set<nat>>)
    requires n <= insns.Length && FlowsInside(insns[..n])
    ensures fresh(reverseWalk) && reverseWalk.Length == n
    ensures forall pc | 0 <= pc < n :: reverseWalk[pc] == Predecessors(insns[..n], pc)
  {
    ghost var p := insns[..n];
    hide OpValid;
    hide Successors;
    hide Targets;
    reverseWalk := new set<nat>[n](_ => {});
    for pc := 0 to n
      invariant forall t | 0 <= t < n :: reverseWalk[t] == PredecessorsBelow(p, t, pc)
    {
      hide PredecessorsBelow;
      var ins := insns[pc];
      assert ins == p[pc] && TargetsWithin(ins, pc, n);
      var targets := Targets(ins, pc);
      TargetsAreSuccessors(ins, pc);
      assert forall k | 0 <= k < |targets| :: targets[k] in Successors(ins, pc);
      AddPredecessor(reverseWalk, targets, pc);
      forall t | 0 <= t < n { PredecessorsBelowStep(p, t, pc); }
    }
    assert forall t | 0 <= t < n :: PredecessorsBelow(p, t, n) == Predecessors(p, t);
  }

  /** The inner loop labelled walk. */
  method WalkBack(insns: array<Instruction>, n: nat, reverseWalk: array<set<nat>>, pc: nat) returns (lastModifiedA: int)
    requires n <= insns.Length && reverseWalk.Length == n && pc < n
    requires forall t | 0 <= t < n :: reverseWalk[t] == Predecessors(insns[..n], t)
    ensures lastModifiedA == LastModifiedA(insns[..n], pc)
  {
    ghost var p, at := insns[..n], pc;
    lastModifiedA := -1;
    var beforePCs := reverseWalk[pc];
    while |beforePCs| == 1
      invariant 0 <= at < n && beforePCs == Predecessors(p, at)
      invariant LastModifiedA(p, at) == LastModifiedA(p, pc)
      decreases at
    {
      var beforePC :| beforePC in beforePCs;
      OnlyIsUnique(beforePCs, beforePC);
      SuccessorIsLater(p[beforePC], beforePC, at);
      if ModifiesRegisterA(insns[beforePC]) {
        return beforePC;
      }
      beforePCs := reverseWalk[beforePC];
      at := beforePC;
    }
  }

  method IsRedundantLoad(insns: array<Instruction>, n: nat, reverseWalk: array<set<nat>>, pc: nat)
    returns (redundant: bool)
    requires n <= insns.Length && reverseWalk.Length == n && pc < n
    requires forall t | 0 <= t < n :: reverseWalk[t] == Predecessors(insns[..n], t)
    ensures redundant <==> RedundantLoad(insns[..n], pc)
  {
    hide Equal;
    hide Predecessors;
    if Class(insns[pc]) != LD {
      return false;
    }
    var lastModifiedA := WalkBack(insns, n, reverseWalk, pc);
    return lastModifiedA != -1 && Equal(insns[pc], insns[lastModifiedA]);
  }

  method RemoveRedundantLoads(insns: array<Instruction>, n: nat)
    returns (n': nat, changed: bool, ghost removed: seq<nat>)
    requires n <= insns.Length && FlowsInside(insns[..n])
    modifies insns
    ensures Increasing(removed) && Below(removed, n)
    ensures forall pc | 0 <= pc < n :: pc in removed <==> RedundantLoad(old(insns[..n]), pc)
    ensures n' == n - |removed| && insns[..n'] == RemoveAll(old(insns[..n]), removed)
    ensures changed <==> removed != []
  {
    ghost var p := insns[..n];
    var reverseWalk := BuildReverseWalk(insns, n);
    var removal := new CodeRemoval(insns, n);
    hide FlowsInside;
    hide Predecessors;
    hide RedundantLoad;
    for pc := 0 to n
      invariant removal.Valid() && removal.insns == insns && removal.n == n && fresh(removal)
      invariant insns[..] == old(insns[..])
      invariant forall j | 0 <= j < n :: reverseWalk[j] == Predecessors(p, j)
      invariant Increasing(removal.toRemove) && Below(removal.toRemove, pc)
      invariant forall j | 0 <= j < pc :: j in removal.toRemove <==> RedundantLoad(p, j)
    {
      assert insns[..n] == p;
      var redundant := IsRedundantLoad(insns, n, reverseWalk, pc);
      if redundant {
        removal.MarkRemoved(pc);
      }
    }
    removed := removal.toRemove;
    SortIntsSorted(removed);
    var ch, _ := removal.Apply();
    changed := ch;
    n' := removal.n;
  }
}
