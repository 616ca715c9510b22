/** The measure by which every pass that reports a change makes progress:
    length, reachable instructions, conditional jumps, jumps, and the total
    distance of jump targets from the end, compared lexicographically. */
module Progress {
  import opened Bpf
  import opened Validator
  import opened Simulation

  ghost function Sum(s: seq<nat>): nat {
    if s == [] then 0 else s[0] + Sum(s[1..])
  }

  ghost predicate PointwiseAtMost(s: seq<nat>, t: seq<nat>) {
    |s| == |t| && forall i | 0 <= i < |s| :: s[i] <= t[i]
  }

  lemma {:induction false} SumMonotone(s: seq<nat>, t: seq<nat>)
    requires PointwiseAtMost(s, t)
    ensures Sum(s) <= Sum(t)
  {
    if s != [] {
      assert s[0] <= t[0];
      assert forall i | 0 <= i < |s[1..]| :: s[1..][i] == s[i + 1] && t[1..][i] == t[i + 1];
      SumMonotone(s[1..], t[1..]);
    }
  }

  lemma {:induction false} SumStrictlyMonotone(s: seq<nat>, t: seq<nat>, k: nat)
    requires PointwiseAtMost(s, t) && k < |s| && s[k] < t[k]
    ensures Sum(s) < Sum(t)
  {
    assert s[0] <= t[0];
    assert forall i | 0 <= i < |s[1..]| :: s[1..][i] == s[i + 1] && t[1..][i] == t[i + 1];
    if k == 0 {
      SumMonotone(s[1..], t[1..]);
    } else {
      SumStrictlyMonotone(s[1..], t[1..], k - 1);
    }
  }

  ghost function ReachableFlags(p: seq<Instruction>): seq<nat> {
    seq(|p|, pc requires 0 <= pc < |p| => if Reachable(p, pc) then 1 else 0)
  }

  function ConditionalFlags(p: seq<Instruction>): seq<nat> {
    seq(|p|, pc requires 0 <= pc < |p| => if IsConditionalJump(p[pc]) then 1 else 0)
  }

  function JumpFlags(p: seq<Instruction>): seq<nat> {
    seq(|p|, pc requires 0 <= pc < |p| => if IsJump(p[pc]) then 1 else 0)
  }

  /** How far t is from the end of n instructions. */
  function FromEnd(t: nat, n: nat): nat {
    if t < n then n - t else 0
  }

  function TargetDistance(i: Instruction, pc: nat, n: nat): nat {
    if IsConditionalJump(i) then FromEnd(pc + 1 + i.jt, n) + FromEnd(pc + 1 + i.jf, n)
    else if IsUnconditionalJump(i) then FromEnd(pc + 1 + i.k, n)
    else 0
  }

  function TargetDistances(p: seq<Instruction>): seq<nat> {
    seq(|p|, pc requires 0 <= pc < |p| => TargetDistance(p[pc], pc, |p|))
  }

  ghost function ReachableCount(p: seq<Instruction>): nat { Sum(ReachableFlags(p)) }
  ghost function ConditionalCount(p: seq<Instruction>): nat { Sum(ConditionalFlags(p)) }
  ghost function JumpCount(p: seq<Instruction>): nat { Sum(JumpFlags(p)) }
  ghost function TotalDistance(p: seq<Instruction>): nat { Sum(TargetDistances(p)) }

  /** p' is strictly below p in the measure. */
  ghost predicate MakesProgress(p: seq<Instruction>, p': seq<Instruction>) {
    || |p'| < |p|
    || (&& |p'| == |p|
        && (|| ReachableCount(p') < ReachableCount(p)
            || (&& ReachableCount(p') == ReachableCount(p)
                && (|| ConditionalCount(p') < ConditionalCount(p)
                    || (&& ConditionalCount(p') == ConditionalCount(p)
                        && (|| JumpCount(p') < JumpCount(p)
                            || (&& JumpCount(p') == JumpCount(p)
                                && TotalDistance(p') < TotalDistance(p))))))))
  }

  // ---------------------------------------------------------------------
  // Threading: every edge of p' follows an edge of p and perhaps the direct
  // jump it leads to
  // ---------------------------------------------------------------------

  ghost predicate FollowsEdge(p: seq<Instruction>, pc: nat, s': nat)
    requires pc < |p|
  {
    || s' in Successors(p[pc], pc)
    || exists s | s in Successors(p[pc], pc) && s < |p| :: IsUnconditionalJump(p[s]) && s' == s + 1 + p[s].k
  }

  ghost predicate Threads(p: seq<Instruction>, p': seq<Instruction>) {
    && |p'| == |p|
    && forall pc | 0 <= pc < |p| :: forall s' | s' in Successors(p'[pc], pc) :: FollowsEdge(p, pc, s')
  }

  lemma {:induction false} ThreadsReachable(p: seq<Instruction>, p': seq<Instruction>, pc: nat)
    requires Threads(p, p') && Reachable(p', pc)
    ensures Reachable(p, pc)
    decreases pc
  {
    hide Successors;
    if pc > 0 {
      var q: nat :| q < pc && q < |p'| && Reachable(p', q) && pc in Successors(p'[q], q);
      ThreadsReachable(p, p', q);
      assert FollowsEdge(p, q, pc);
      if pc !in Successors(p[q], q) {
        var s :| s in Successors(p[q], q) && s < |p| && IsUnconditionalJump(p[s]) && pc == s + 1 + p[s].k;
        SuccessorIsLater(p[q], q, s);
        ReachableStep(p, q, s);
        JumpSuccessor(p[s], s);
        ReachableStep(p, s, pc);
      } else {
        ReachableStep(p, q, pc);
      }
    }
  }

  lemma JumpSuccessor(i: Instruction, pc: nat)
    requires IsUnconditionalJump(i)
    ensures pc + 1 + i.k in Successors(i, pc)
  {
  }

  lemma ThreadsReachableCount(p: seq<Instruction>, p': seq<Instruction>)
    requires Threads(p, p')
    ensures ReachableCount(p') <= ReachableCount(p)
  {
    hide Reachable;
    forall pc | 0 <= pc < |p|
      ensures ReachableFlags(p')[pc] <= ReachableFlags(p)[pc]
    {
      if Reachable(p', pc) { ThreadsReachable(p, p', pc); }
    }
    SumMonotone(ReachableFlags(p'), ReachableFlags(p));
  }

  /** When everything is reachable in p and not in p', there is progress. */
  lemma LosesReachable(p: seq<Instruction>, p': seq<Instruction>, x: nat)
    requires |p'| == |p| && x < |p|
    requires forall pc | 0 <= pc < |p| :: Reachable(p, pc)
    requires !Reachable(p', x)
    ensures MakesProgress(p, p')
  {
    hide Reachable;
    assert forall pc | 0 <= pc < |p| :: ReachableFlags(p')[pc] <= ReachableFlags(p)[pc];
    SumStrictlyMonotone(ReachableFlags(p'), ReachableFlags(p), x);
  }
}
