/** The program builder of program_builder.go: jumps to labels that are placed
    later, and the outcomes of a fragment before its labels are resolved. */
module Builder {
  import opened Bpf
  import opened Validator

  datatype Source = Source(line: nat, jt: JumpType)

  /** Where a label is used, and where it is, once that is known. */
  datatype Label = Label(sources: seq<Source>, target: Place)
  datatype Place = Unset | At(pc: nat)

  /** The builder's maps and code. */
  datatype Build = Build(labels: map<string, Label>, sources: map<Source, string>, unusable: set<string>,
                         code: seq<Instruction>)

  // ---------------------------------------------------------------------
  // Jump slots
  // ---------------------------------------------------------------------

  function Slot(i: Instruction, jt: JumpType): nat {
    match jt
    case JumpDirect => i.k
    case JumpTrue => i.jt
    case JumpFalse => i.jf
  }

  /** The largest offset, which also stands for a label not yet resolved. */
  function Largest(jt: JumpType): nat {
    if jt == JumpDirect then MAX_U32 else MAX_U8
  }

  function WithSlot(i: Instruction, jt: JumpType, v: nat): Instruction
    requires v <= Largest(jt)
  {
    match jt
    case JumpDirect => i.(k := v)
    case JumpTrue => i.(jt := v)
    case JumpFalse => i.(jf := v)
  }

  // ---------------------------------------------------------------------
  // The invariant of a builder
  // ---------------------------------------------------------------------

  ghost predicate NoRepeats(s: seq<Source>) {
    forall i, j | 0 <= i < j < |s| :: s[i] != s[j]
  }

  ghost predicate LabelFits(b: Build, name: string)
    requires name in b.labels
  {
    var l := b.labels[name];
    && NoRepeats(l.sources)
    && (forall s <- l.sources :: s in b.sources && b.sources[s] == name)
    && (l.target.At? ==> l.target.pc <= |b.code|)
  }

  /** Each use of a label is recorded once and belongs to an instruction. */
  ghost predicate Sound(b: Build) {
    && (forall name <- b.labels :: LabelFits(b, name))
    && forall s <- b.sources :: s.line < |b.code| && (s.jt == JumpDirect ==> b.code[s.line].op == JMP | JA)
  }

  /** No label has been resolved and dropped yet. */
  ghost predicate Pending(b: Build) {
    forall s <- b.sources :: b.sources[s] in b.labels && s in b.labels[b.sources[s]].sources
  }

  /** What stays as it is while a program grows: the code so far, which label
      each of its jumps uses, and the labels placed so far. Labels not yet
      placed can only be placed at the end or later. */
  ghost predicate Extends(b: Build, b': Build) {
    && b.code <= b'.code
    && (forall s: Source | s.line < |b.code| ::
          (s in b'.sources <==> s in b.sources) && (s in b.sources ==> b'.sources[s] == b.sources[s]))
    && (forall name <- b.labels ::
          && name in b'.labels
          && (if b.labels[name].target.At? then b'.labels[name].target == b.labels[name].target
              else b'.labels[name].target.At? ==> b'.labels[name].target.pc >= |b.code|))
  }

  lemma ExtendsTransitive(a: Build, b: Build, c: Build)
    requires Extends(a, b) && Extends(b, c)
    ensures Extends(a, c)
  {
  }

  // ---------------------------------------------------------------------
  // Resolution
  // ---------------------------------------------------------------------

  /** The label that a source uses is placed, ahead of it and close enough, and
      the jump still waits for it. */
  predicate SourceResolves(b: Build, target: nat, s: Source) {
    && s.line < |b.code| && s.line < target && target - s.line - 1 <= Largest(s.jt)
    && Slot(b.code[s.line], s.jt) == Largest(s.jt)
  }

  ghost predicate LabelResolves(b: Build, name: string)
    requires name in b.labels
  {
    var l := b.labels[name];
    && name !in b.unusable && l.target.At? && l.target.pc < |b.code|
    && forall s <- l.sources :: SourceResolves(b, l.target.pc, s)
  }

  ghost predicate Resolvable(b: Build) {
    forall name <- b.labels :: LabelResolves(b, name)
  }

  /** A source that some label lists, and where that label is. */
  ghost function Destination(b: Build, s: Source): Place {
    if s in b.sources && b.sources[s] in b.labels && s in b.labels[b.sources[s]].sources
    then b.labels[b.sources[s]].target else Unset
  }

  /** The instruction with each of its done slots pointing to its label. */
  ghost function Patched(b: Build, done: set<Source>, line: nat, i: Instruction): Instruction {
    var d, t, f := Source(line, JumpDirect), Source(line, JumpTrue), Source(line, JumpFalse);
    Instruction(i.op,
                if t in done then SmallOffset(b, t) else i.jt,
                if f in done then SmallOffset(b, f) else i.jf,
                if d in done then LargeOffset(b, d) else i.k)
  }

  ghost function Offset(b: Build, s: Source): int {
    var p := Destination(b, s);
    if p.At? then p.pc - s.line - 1 else 0
  }

  ghost function SmallOffset(b: Build, s: Source): u8 {
    if 0 <= Offset(b, s) <= MAX_U8 then Offset(b, s) else 0
  }

  ghost function LargeOffset(b: Build, s: Source): u32 {
    if 0 <= Offset(b, s) <= MAX_U32 then Offset(b, s) else 0
  }

  /** The sources that labels list. */
  ghost function Uses(b: Build): set<Source> {
    set s <- b.sources | b.sources[s] in b.labels && s in b.labels[b.sources[s]].sources
  }

  /** All labels resolved: this does not depend on any order. */
  ghost function Resolved(b: Build): seq<Instruction> {
    seq(|b.code|, line requires 0 <= line < |b.code| => Patched(b, Uses(b), line, b.code[line]))
  }

  ghost predicate PatchedSoFar(b: Build, done: set<Source>, code: seq<Instruction>) {
    |code| == |b.code| && forall line | 0 <= line < |code| :: code[line] == Patched(b, done, line, b.code[line])
  }

  /** Patching changes offsets only. */
  lemma PatchedSound(b: Build, done: set<Source>, code: seq<Instruction>)
    requires Sound(b) && PatchedSoFar(b, done, code)
    ensures Sound(b.(code := code)) && Sound(b.(labels := map[], code := code))
  {
    var b' := b.(code := code);
    forall name <- b'.labels
      ensures LabelFits(b', name)
    {
      assert LabelFits(b, name);
    }
  }

  /** A resolution that failed after patching a jump cannot be repeated: the jump no
      longer waits for its label, unless its offset happens to be the mark. */
  lemma FailureSticks(b: Build, done: set<Source>, code: seq<Instruction>, s: Source)
    requires Sound(b) && done <= Uses(b) && PatchedSoFar(b, done, code) && s in done
    requires 0 <= Offset(b, s) < Largest(s.jt)
    ensures !Resolvable(b.(code := code))
  {
    var b' := b.(code := code);
    var name := b.sources[s];
    assert code[s.line] == Patched(b, done, s.line, b.code[s.line]);
    assert Slot(code[s.line], s.jt) == Offset(b, s);
    assert s in b'.labels[name].sources && forall target: nat :: !SourceResolves(b', target, s);
    assert !LabelResolves(b', name);
  }

  /** One more source: its slot is still as it was, and gets the offset. */
  lemma PatchOne(b: Build, done: set<Source>, code: seq<Instruction>, s: Source, target: nat)
    requires PatchedSoFar(b, done, code) && s !in done && SourceResolves(b, target, s)
      && Destination(b, s) == At(target)
    ensures Slot(code[s.line], s.jt) == Slot(b.code[s.line], s.jt)
    ensures PatchedSoFar(b, done + {s}, code[s.line := WithSlot(code[s.line], s.jt, target - s.line - 1)])
  {
    var code' := code[s.line := WithSlot(code[s.line], s.jt, target - s.line - 1)];
    forall line | 0 <= line < |code'|
      ensures code'[line] == Patched(b, done + {s}, line, b.code[line])
    {
    }
  }

  lemma NothingPatched(b: Build)
    ensures PatchedSoFar(b, {}, b.code)
  {
  }

  ghost function SourceSet(s: seq<Source>): set<Source> {
    set x | x in s
  }

  /** A labelled jump leads to its label, and every other slot stays as it was. */
  lemma ResolvedSlot(b: Build, s: Source)
    requires Sound(b) && Resolvable(b) && s.line < |b.code|
    ensures var slot := Slot(Resolved(b)[s.line], s.jt);
            if s in Uses(b) then Destination(b, s) == At(s.line + 1 + slot) && s.line + 1 + slot < |b.code|
            else slot == Slot(b.code[s.line], s.jt)
    ensures Resolved(b)[s.line].op == b.code[s.line].op
  {
    if s in Uses(b) {
      assert LabelResolves(b, b.sources[s]);
      assert SourceResolves(b, b.labels[b.sources[s]].target.pc, s);
    }
  }

  // ---------------------------------------------------------------------
  // Outcomes of a fragment
  // ---------------------------------------------------------------------

  datatype Outcomes = Outcomes(
    fallThrough: bool, jumpBeyond: bool, labels: set<string>, immediates: set<u32>, returnA: bool)

  const NO_OUTCOMES := Outcomes(false, false, {}, {}, false)

  function Union(a: Outcomes, b: Outcomes): Outcomes {
    Outcomes(a.fallThrough || b.fallThrough, a.jumpBeyond || b.jumpBeyond, a.labels + b.labels,
             a.immediates + b.immediates, a.returnA || b.returnA)
  }

  predicate Includes(a: Outcomes, b: Outcomes) {
    && (b.fallThrough ==> a.fallThrough) && (b.jumpBeyond ==> a.jumpBeyond) && b.labels <= a.labels
    && b.immediates <= a.immediates && (b.returnA ==> a.returnA)
  }

  /** The label of a jump slot, if it has one, has not been cleared away. */
  predicate SlotKnown(b: Build, pc: nat, jt: JumpType) {
    Source(pc, jt) in b.sources ==> b.sources[Source(pc, jt)] in b.labels
  }

  predicate OffsetsKnown(b: Build, pc: nat, offsets: seq<JumpOffset>) {
    forall k | 0 <= k < |offsets| :: SlotKnown(b, pc, offsets[k].jumpType)
  }

  predicate KnownAt(b: Build, pc: nat) {
    pc < |b.code| && (Class(b.code[pc]) == JMP ==> OffsetsKnown(b, pc, JumpOffsets(b.code[pc])))
  }

  predicate KnownIn(b: Build, from: nat, to: nat) {
    forall pc | from <= pc < to :: KnownAt(b, pc)
  }

  /** Where one jump slot may lead, in a fragment that ends at to. */
  function JumpOutcome(b: Build, to: nat, pc: nat, o: JumpOffset): Outcomes
    requires SlotKnown(b, pc, o.jumpType)
  {
    var s := Source(pc, o.jumpType);
    if s in b.sources && b.labels[b.sources[s]].target.Unset? then NO_OUTCOMES.(labels := {b.sources[s]})
    else
      var target := if s in b.sources then b.labels[b.sources[s]].target.pc else pc + o.offset + 1;
      if target == to then NO_OUTCOMES.(fallThrough := true)
      else if target > to then NO_OUTCOMES.(jumpBeyond := true)
      else NO_OUTCOMES
  }

  function JumpOutcomes(b: Build, to: nat, pc: nat, offsets: seq<JumpOffset>): Outcomes
    requires OffsetsKnown(b, pc, offsets)
  {
    if offsets == [] then NO_OUTCOMES
    else Union(JumpOutcomes(b, to, pc, offsets[..|offsets| - 1]), JumpOutcome(b, to, pc, offsets[|offsets| - 1]))
  }

  lemma NoOffsets(b: Build, to: nat, pc: nat)
    ensures OffsetsKnown(b, pc, []) && JumpOutcomes(b, to, pc, []) == NO_OUTCOMES
  {
  }

  lemma OneMoreOffset(b: Build, to: nat, pc: nat, offsets: seq<JumpOffset>, k: nat)
    requires k < |offsets| && OffsetsKnown(b, pc, offsets[..k])
    ensures OffsetsKnown(b, pc, offsets[..k + 1]) <==> SlotKnown(b, pc, offsets[k].jumpType)
    ensures OffsetsKnown(b, pc, offsets) ==> SlotKnown(b, pc, offsets[k].jumpType)
    ensures SlotKnown(b, pc, offsets[k].jumpType) ==>
              JumpOutcomes(b, to, pc, offsets[..k + 1]) ==
              Union(JumpOutcomes(b, to, pc, offsets[..k]), JumpOutcome(b, to, pc, offsets[k]))
  {
    hide JumpOutcome;
    hide SlotKnown;
    hide Union;
    assert offsets[..k + 1][..k] == offsets[..k];
    assert offsets[..k + 1][k] == offsets[k];
    assert forall j | 0 <= j < k :: offsets[..k + 1][j] == offsets[..k][j];
  }

  function OutcomesAt(b: Build, to: nat, pc: nat): Outcomes
    requires KnownAt(b, pc)
  {
    var i := b.code[pc];
    if Class(i) == RET then
      if i.op == RET | SRC_K then NO_OUTCOMES.(immediates := {i.k})
      else if i.op == RET | SRC_A then NO_OUTCOMES.(returnA := true)
      else NO_OUTCOMES
    else if Class(i) == JMP then JumpOutcomes(b, to, pc, JumpOffsets(i))
    else NO_OUTCOMES.(fallThrough := pc == to - 1)
  }

  /** The outcomes of the instructions from pc from up to upTo, in a fragment
      that ends at to. */
  function OutcomesOf(b: Build, from: nat, upTo: nat, to: nat): Outcomes
    requires KnownIn(b, from, upTo)
    decreases upTo
  {
    if upTo <= from then NO_OUTCOMES else Union(OutcomesOf(b, from, upTo - 1, to), OutcomesAt(b, to, upTo - 1))
  }

  lemma {:induction false} OutcomesInclude(b: Build, from: nat, upTo: nat, to: nat, pc: nat)
    requires KnownIn(b, from, upTo) && from <= pc < upTo
    ensures Includes(OutcomesOf(b, from, upTo, to), OutcomesAt(b, to, pc))
    decreases upTo
  {
    if pc < upTo - 1 { OutcomesInclude(b, from, upTo - 1, to, pc); }
  }

  lemma {:induction false} JumpOutcomesInclude(b: Build, to: nat, pc: nat, offsets: seq<JumpOffset>, k: nat)
    requires OffsetsKnown(b, pc, offsets) && k < |offsets|
    ensures Includes(JumpOutcomes(b, to, pc, offsets), JumpOutcome(b, to, pc, offsets[k]))
    decreases |offsets|
  {
    if k < |offsets| - 1 { JumpOutcomesInclude(b, to, pc, offsets[..|offsets| - 1], k); }
  }

  /** Control leaves the fragment from pc for s in the finished program b'. */
  ghost predicate Covered(o: Outcomes, to: nat, b': Build, s: nat) {
    || (s == to && o.fallThrough)
    || (s > to && o.jumpBeyond)
    || exists name <- o.labels :: name in b'.labels && b'.labels[name].target == At(s)
  }

  lemma JumpCovered(b: Build, b': Build, to: nat, pc: nat, o: JumpOffset)
    requires Sound(b) && Pending(b) && Sound(b') && Pending(b') && Resolvable(b') && Extends(b, b')
    requires pc < |b.code| && to <= |b.code| && o.offset == Slot(b.code[pc], o.jumpType)
    ensures pc < |Resolved(b')|
    ensures var s := pc + 1 + Slot(Resolved(b')[pc], o.jumpType);
            s >= to ==> Covered(JumpOutcome(b, to, pc, o), to, b', s)
  {
    var src := Source(pc, o.jumpType);
    ResolvedSlot(b', src);
    assert src in b.sources <==> src in Uses(b');
  }

  lemma JumpSuccessor(i: Instruction, i': Instruction, pc: nat, s: nat) returns (k: nat)
    requires i.op == i'.op && IsJump(i) && s in Successors(i', pc)
    ensures k < |JumpOffsets(i)| && s == pc + 1 + Slot(i', JumpOffsets(i)[k].jumpType)
    ensures JumpOffsets(i)[k].offset == Slot(i, JumpOffsets(i)[k].jumpType)
  {
    k := if IsConditionalJump(i) && s != pc + 1 + i'.jt then 1 else 0;
  }

  lemma IncludedCovers(a: Outcomes, o: Outcomes, to: nat, b': Build, s: nat)
    requires Includes(a, o) && Covered(o, to, b', s)
    ensures Covered(a, to, b', s)
  {
  }

  lemma LeavingCovered(b: Build, b': Build, to: nat, pc: nat, s: nat)
    requires Sound(b) && Pending(b) && Sound(b') && Pending(b') && Resolvable(b') && Extends(b, b')
    requires pc < to <= |b.code| && pc < |Resolved(b')| && s in Successors(Resolved(b')[pc], pc) && s >= to
    ensures Covered(OutcomesAt(b, to, pc), to, b', s)
  {
    hide Resolved;
    hide Sound;
    hide JumpOutcome;
    var i, i' := b.code[pc], Resolved(b')[pc];
    ResolvedOp(b', pc);
    if IsJump(i) {
      var k := JumpSuccessor(i, i', pc, s);
      JumpCovered(b, b', to, pc, JumpOffsets(i)[k]);
      JumpOutcomesInclude(b, to, pc, JumpOffsets(i), k);
      IncludedCovers(JumpOutcomes(b, to, pc, JumpOffsets(i)), JumpOutcome(b, to, pc, JumpOffsets(i)[k]), to, b', s);
    }
  }

  lemma ResolvedOp(b: Build, pc: nat)
    requires pc < |b.code|
    ensures |Resolved(b)| == |b.code| && Resolved(b)[pc].op == b.code[pc].op
    ensures Sound(b) && b.code[pc].op != JMP | JA ==> Resolved(b)[pc].k == b.code[pc].k
  {
  }

  /** The outcomes computed before resolution cover every way in which control
      can leave the fragment once the program is finished, however it goes on. */
  lemma OutcomesCover(b: Build, b': Build, from: nat, to: nat, pc: nat, s: nat)
    requires Sound(b) && Pending(b) && Sound(b') && Pending(b') && Resolvable(b') && Extends(b, b')
    requires from <= pc < to <= |b.code|
    ensures pc < |Resolved(b')|
    ensures s in Successors(Resolved(b')[pc], pc) && s >= to ==> Covered(OutcomesOf(b, from, to, to), to, b', s)
    ensures Resolved(b')[pc].op == RET | SRC_K ==> Resolved(b')[pc].k in OutcomesOf(b, from, to, to).immediates
    ensures Resolved(b')[pc].op == RET | SRC_A ==> OutcomesOf(b, from, to, to).returnA
  {
    hide Resolved;
    hide Sound;
    hide Resolvable;
    hide Covered;
    OutcomesInclude(b, from, to, to, pc);
    ResolvedOp(b', pc);
    if s in Successors(Resolved(b')[pc], pc) && s >= to {
      LeavingCovered(b, b', to, pc, s);
      IncludedCovers(OutcomesOf(b, from, to, to), OutcomesAt(b, to, pc), to, b', s);
    }
  }

  // ---------------------------------------------------------------------
  // No outcome is made up
  // ---------------------------------------------------------------------

  /** In the finished program the instruction at pc may be followed by the one at s. */
  ghost predicate Goes(b': Build, pc: nat, s: nat) {
    pc < |Resolved(b')| && s in Successors(Resolved(b')[pc], pc)
  }

  ghost predicate GoesBeyond(b': Build, pc: nat, to: nat) {
    exists s: nat :: s > to && Goes(b', pc, s)
  }

  ghost predicate GoesToLabel(b': Build, pc: nat, name: string) {
    name in b'.labels && b'.labels[name].target.At? && Goes(b', pc, b'.labels[name].target.pc)
  }

  ghost predicate GivesK(b': Build, pc: nat, k: u32) {
    pc < |Resolved(b')| && Resolved(b')[pc].op == RET | SRC_K && Resolved(b')[pc].k == k
  }

  ghost predicate GivesA(b': Build, pc: nat) {
    pc < |Resolved(b')| && Resolved(b')[pc].op == RET | SRC_A
  }

  /** Each of the outcomes is one of some instruction from pc from up to upTo. */
  ghost predicate RealIn(o: Outcomes, from: nat, upTo: nat, to: nat, b': Build) {
    && (o.fallThrough ==> exists pc | from <= pc < upTo :: Goes(b', pc, to))
    && (o.jumpBeyond ==> exists pc | from <= pc < upTo :: GoesBeyond(b', pc, to))
    && (forall name <- o.labels :: exists pc | from <= pc < upTo :: GoesToLabel(b', pc, name))
    && (forall k <- o.immediates :: exists pc | from <= pc < upTo :: GivesK(b', pc, k))
    && (o.returnA ==> exists pc | from <= pc < upTo :: GivesA(b', pc))
  }

  lemma RealUnion(a: Outcomes, o: Outcomes, from: nat, mid: nat, upTo: nat, to: nat, b': Build)
    requires RealIn(a, from, mid, to, b') && RealIn(o, mid, upTo, to, b') && from <= mid <= upTo
    ensures RealIn(Union(a, o), from, upTo, to, b')
  {
    hide Goes;
    hide GoesBeyond;
    hide GoesToLabel;
    hide GivesK;
    hide GivesA;
    hide Resolved;
  }

  lemma RealTogether(a: Outcomes, o: Outcomes, from: nat, upTo: nat, to: nat, b': Build)
    requires RealIn(a, from, upTo, to, b') && RealIn(o, from, upTo, to, b')
    ensures RealIn(Union(a, o), from, upTo, to, b')
  {
    hide Goes;
    hide GoesBeyond;
    hide GoesToLabel;
    hide GivesK;
    hide GivesA;
    hide Resolved;
  }

  lemma SlotGoes(i: Instruction, i': Instruction, pc: nat, k: nat)
    requires i.op == i'.op && IsJump(i) && k < |JumpOffsets(i)|
    ensures pc + 1 + Slot(i', JumpOffsets(i)[k].jumpType) in Successors(i', pc)
    ensures JumpOffsets(i)[k].offset == Slot(i, JumpOffsets(i)[k].jumpType)
  {
  }

  /** An offset leads where the slot of the finished jump leads: to its label, or
      where it pointed from the start. */
  lemma SlotLeads(b: Build, b': Build, pc: nat, k: nat) returns (s: nat)
    requires Sound(b) && Pending(b) && Sound(b') && Pending(b') && Resolvable(b') && Extends(b, b')
    requires pc < |b.code| && IsJump(b.code[pc]) && k < |JumpOffsets(b.code[pc])|
    ensures Goes(b', pc, s)
    ensures var o := JumpOffsets(b.code[pc])[k];
            var src := Source(pc, o.jumpType);
            if src in b.sources then
              var name := b.sources[src];
              && name in b.labels && name in b'.labels && b'.labels[name].target == At(s)
              && (b.labels[name].target.At? ==> b.labels[name].target == At(s))
            else s == pc + o.offset + 1
  {
    var o := JumpOffsets(b.code[pc])[k];
    var src := Source(pc, o.jumpType);
    ResolvedSlot(b', src);
    ResolvedOp(b', pc);
    SlotGoes(b.code[pc], Resolved(b')[pc], pc, k);
    hide Resolved;
    hide Resolvable;
    hide Sound;
    hide JumpOffsets;
    hide Slot;
    s := pc + 1 + Slot(Resolved(b')[pc], o.jumpType);
  }

  lemma JumpIsReal(b: Build, b': Build, to: nat, pc: nat, k: nat)
    requires Sound(b) && Pending(b) && Sound(b') && Pending(b') && Resolvable(b') && Extends(b, b')
    requires pc < |b.code| && IsJump(b.code[pc]) && k < |JumpOffsets(b.code[pc])|
    ensures SlotKnown(b, pc, JumpOffsets(b.code[pc])[k].jumpType)
    ensures RealIn(JumpOutcome(b, to, pc, JumpOffsets(b.code[pc])[k]), pc, pc + 1, to, b')
  {
    hide Sound;
    hide Pending;
    hide Resolvable;
    hide Extends;
    hide JumpOffsets;
    hide Goes;
    hide GivesK;
    hide GivesA;
    var s := SlotLeads(b, b', pc, k);
    assert s > to ==> GoesBeyond(b', pc, to);
    var src := Source(pc, JumpOffsets(b.code[pc])[k].jumpType);
    if src in b.sources {
      assert GoesToLabel(b', pc, b.sources[src]);
    }
  }

  lemma {:induction false} JumpsAreReal(b: Build, b': Build, to: nat, pc: nat, k: nat)
    requires Sound(b) && Pending(b) && Sound(b') && Pending(b') && Resolvable(b') && Extends(b, b')
    requires pc < |b.code| && IsJump(b.code[pc]) && k <= |JumpOffsets(b.code[pc])|
    ensures OffsetsKnown(b, pc, JumpOffsets(b.code[pc])[..k])
    ensures RealIn(JumpOutcomes(b, to, pc, JumpOffsets(b.code[pc])[..k]), pc, pc + 1, to, b')
  {
    var offsets := JumpOffsets(b.code[pc]);
    hide JumpOutcome;
    hide Sound;
    hide Resolvable;
    hide Extends;
    hide JumpOffsets;
    hide Union;
    if k == 0 {
      NoOffsets(b, to, pc);
    } else {
      JumpsAreReal(b, b', to, pc, k - 1);
      JumpIsReal(b, b', to, pc, k - 1);
      hide Pending;
      hide RealIn;
      OneMoreOffset(b, to, pc, offsets, k - 1);
      var before, one := JumpOutcomes(b, to, pc, offsets[..k - 1]), JumpOutcome(b, to, pc, offsets[k - 1]);
      RealTogether(before, one, pc, pc + 1, to, b');
    }
  }

  lemma OutcomeIsReal(b: Build, b': Build, to: nat, pc: nat)
    requires Sound(b) && Pending(b) && Sound(b') && Pending(b') && Resolvable(b') && Extends(b, b')
    requires pc < to <= |b.code|
    ensures KnownAt(b, pc) && RealIn(OutcomesAt(b, to, pc), pc, pc + 1, to, b')
  {
    var i := b.code[pc];
    ResolvedOp(b', pc);
    hide Resolved;
    hide Resolvable;
    hide JumpOutcomes;
    if IsJump(i) {
      JumpsAreReal(b, b', to, pc, |JumpOffsets(i)|);
      assert JumpOffsets(i)[..|JumpOffsets(i)|] == JumpOffsets(i);
    } else {
      assert Goes(b', pc, pc + 1) || IsReturn(i);
      assert i.op == RET | SRC_K ==> GivesK(b', pc, i.k);
      assert i.op == RET | SRC_A ==> GivesA(b', pc);
    }
  }

  /** The other direction of OutcomesCover: nothing is among the outcomes that no
      instruction of the fragment does in the finished program. */
  lemma {:induction false} OutcomesAreReal(b: Build, b': Build, from: nat, upTo: nat, to: nat)
    requires Sound(b) && Pending(b) && Sound(b') && Pending(b') && Resolvable(b') && Extends(b, b')
    requires from <= upTo <= to <= |b.code|
    ensures KnownIn(b, from, upTo) && RealIn(OutcomesOf(b, from, upTo, to), from, upTo, to, b')
    decreases upTo
  {
    hide OutcomesAt;
    hide Sound;
    hide Resolvable;
    hide Extends;
    hide Pending;
    hide Union;
    hide KnownAt;
    if upTo > from {
      OutcomesAreReal(b, b', from, upTo - 1, to);
      OutcomeIsReal(b, b', to, upTo - 1);
      RealUnion(OutcomesOf(b, from, upTo - 1, to), OutcomesAt(b, to, upTo - 1), from, upTo - 1, upTo, to, b');
    }
  }

  // ---------------------------------------------------------------------
  // The builder
  // ---------------------------------------------------------------------

  function WithCode(b: Build, i: Instruction): Build {
    b.(code := b.code + [i])
  }

  /** One more use of a label, on the line that comes next. */
  function WithSource(b: Build, name: string, jt: JumpType): Build {
    var l := if name in b.labels then b.labels[name] else Label([], Unset);
    var s := Source(|b.code|, jt);
    b.(labels := b.labels[name := l.(sources := l.sources + [s])], sources := b.sources[s := name])
  }

  /** The invariant while the instruction for the latest uses is still to come. */
  ghost predicate Almost(b: Build) {
    && (forall name <- b.labels :: LabelFits(b, name))
    && forall s <- b.sources :: s.line < |b.code| ==> (s.jt == JumpDirect ==> b.code[s.line].op == JMP | JA)
  }

  lemma NoRepeatsSnoc(l: seq<Source>, s: Source)
    requires NoRepeats(l) && s !in l
    ensures NoRepeats(l + [s])
  {
    forall i, j | 0 <= i < j < |l + [s]|
      ensures (l + [s])[i] != (l + [s])[j]
    {
      assert l[i] in l;
    }
  }

  lemma WithSourceFits(b: Build, name: string, jt: JumpType, n: string)
    requires Source(|b.code|, jt) !in b.sources && n in WithSource(b, name, jt).labels
    requires n in b.labels ==> LabelFits(b, n)
    ensures LabelFits(WithSource(b, name, jt), n)
  {
    hide NoRepeats;
    var s := Source(|b.code|, jt);
    var l := if name in b.labels then b.labels[name] else Label([], Unset);
    NoRepeatsNone();
    if n == name {
      assert s !in l.sources;
      NoRepeatsSnoc(l.sources, s);
    }
  }

  lemma NoRepeatsNone()
    ensures NoRepeats([])
  {
  }

  lemma WithSourceExtends(b: Build, name: string, jt: JumpType)
    ensures Extends(b, WithSource(b, name, jt))
    ensures Source(|b.code|, jt) !in b.sources && Pending(b) ==> Pending(WithSource(b, name, jt))
  {
  }

  lemma WithSourceKeeps(b: Build, name: string, jt: JumpType)
    requires Almost(b) && Source(|b.code|, jt) !in b.sources
    ensures Almost(WithSource(b, name, jt))
    ensures Pending(b) ==> Pending(WithSource(b, name, jt))
    ensures Extends(b, WithSource(b, name, jt))
  {
    hide LabelFits;
    hide Pending;
    hide Extends;
    WithSourceExtends(b, name, jt);
    forall n <- WithSource(b, name, jt).labels
      ensures LabelFits(WithSource(b, name, jt), n)
    {
      WithSourceFits(b, name, jt, n);
    }
  }

  lemma WithCodeKeeps(b: Build, i: Instruction)
    requires Almost(b) && (forall s <- b.sources :: s.line <= |b.code|)
    requires Source(|b.code|, JumpDirect) in b.sources ==> i.op == JMP | JA
    ensures Sound(WithCode(b, i)) && (Pending(b) ==> Pending(WithCode(b, i)))
    ensures (forall s <- b.sources :: s.line < |b.code|) ==> Extends(b, WithCode(b, i))
  {
    var b' := WithCode(b, i);
    forall n <- b'.labels
      ensures LabelFits(b', n)
    {
      assert LabelFits(b, n);
    }
  }

  lemma SoundIsAlmost(b: Build)
    requires Sound(b)
    ensures Almost(b) && forall s <- b.sources :: s.line < |b.code|
  {
  }

  class ProgramBuilder {
    var labels: map<string, Label>
    var jumpSourceToLabel: map<Source, string>
    var unusableLabels: set<string>
    var instructions: seq<Instruction>

    ghost function B(): Build
      reads this
    {
      Build(labels, jumpSourceToLabel, unusableLabels, instructions)
    }

    constructor ()
      ensures Sound(B()) && Pending(B()) && B() == Build(map[], map[], {}, [])
    {
      labels, jumpSourceToLabel, unusableLabels, instructions := map[], map[], {}, [];
    }

    method AddJump(code: bv16, k: u32, jt: u8, jf: u8)
      requires Sound(B())
      modifies this`instructions
      ensures Sound(B()) && (old(Pending(B())) ==> Pending(B())) && Extends(old(B()), B())
      ensures B() == WithCode(old(B()), Jump(code, k, jt, jf))
    {
      hide Sound;
      hide Almost;
      SoundIsAlmost(B());
      WithCodeKeeps(B(), Jump(code, k, jt, jf));
      instructions := instructions + [Jump(code, k, jt, jf)];
    }

    method AddStmt(code: bv16, k: u32)
      requires Sound(B())
      modifies this`instructions
      ensures Sound(B()) && (old(Pending(B())) ==> Pending(B())) && Extends(old(B()), B())
      ensures B() == WithCode(old(B()), Stmt(code, k))
    {
      hide Sound;
      hide Almost;
      SoundIsAlmost(B());
      WithCodeKeeps(B(), Stmt(code, k));
      instructions := instructions + [Stmt(code, k)];
    }

    /** The source is new, so the panic in the original is never reached. */
    method AddLabelSource(name: string, jt: JumpType)
      requires Almost(B()) && Source(|instructions|, jt) !in jumpSourceToLabel
      modifies this`labels, this`jumpSourceToLabel
      ensures B() == WithSource(old(B()), name, jt) && Almost(B())
      ensures (old(Pending(B())) ==> Pending(B())) && Extends(old(B()), B())
    {
      hide Almost;
      WithSourceKeeps(B(), name, jt);
      var l := if name in labels then labels[name] else Label([], Unset);
      var s := Source(|instructions|, jt);
      labels := labels[name := l.(sources := l.sources + [s])];
      jumpSourceToLabel := jumpSourceToLabel[s := name];
    }

    method AddDirectJumpLabel(name: string)
      requires Sound(B())
      modifies this
      ensures Sound(B()) && (old(Pending(B())) ==> Pending(B())) && Extends(old(B()), B())
      ensures B() == WithCode(WithSource(old(B()), name, JumpDirect), Jump(JMP | JA, MAX_U32, 0, 0))
    {
      hide Sound;
      hide Almost;
      SoundIsAlmost(B());
      AddLabelSource(name, JumpDirect);
      FinishJump(old(B()), B(), Jump(JMP | JA, MAX_U32, 0, 0));
      instructions := instructions + [Jump(JMP | JA, MAX_U32, 0, 0)];
    }

    method AddJumpTrueLabel(code: bv16, k: u32, jtLabel: string, jf: u8)
      requires Sound(B())
      modifies this
      ensures Sound(B()) && (old(Pending(B())) ==> Pending(B())) && Extends(old(B()), B())
      ensures B() == WithCode(WithSource(old(B()), jtLabel, JumpTrue), Jump(code, k, MAX_U8, jf))
    {
      hide Sound;
      hide Almost;
      SoundIsAlmost(B());
      AddLabelSource(jtLabel, JumpTrue);
      FinishJump(old(B()), B(), Jump(code, k, MAX_U8, jf));
      instructions := instructions + [Jump(code, k, MAX_U8, jf)];
    }

    method AddJumpFalseLabel(code: bv16, k: u32, jt: u8, jfLabel: string)
      requires Sound(B())
      modifies this
      ensures Sound(B()) && (old(Pending(B())) ==> Pending(B())) && Extends(old(B()), B())
      ensures B() == WithCode(WithSource(old(B()), jfLabel, JumpFalse), Jump(code, k, jt, MAX_U8))
    {
      hide Sound;
      hide Almost;
      SoundIsAlmost(B());
      AddLabelSource(jfLabel, JumpFalse);
      FinishJump(old(B()), B(), Jump(code, k, jt, MAX_U8));
      instructions := instructions + [Jump(code, k, jt, MAX_U8)];
    }

    method AddJumpLabels(code: bv16, k: u32, jtLabel: string, jfLabel: string)
      requires Sound(B())
      modifies this
      ensures Sound(B()) && (old(Pending(B())) ==> Pending(B())) && Extends(old(B()), B())
      ensures B() == WithCode(WithSource(WithSource(old(B()), jtLabel, JumpTrue), jfLabel, JumpFalse),
                              Jump(code, k, MAX_U8, MAX_U8))
    {
      hide Sound;
      hide Almost;
      SoundIsAlmost(B());
      AddLabelSource(jtLabel, JumpTrue);
      ghost var b := B();
      AddLabelSource(jfLabel, JumpFalse);
      ExtendsTransitive(old(B()), b, B());
      FinishJump(old(B()), B(), Jump(code, k, MAX_U8, MAX_U8));
      instructions := instructions + [Jump(code, k, MAX_U8, MAX_U8)];
    }

    /** A label not yet used may no longer be used, as that would be a jump
        backwards; a label in use is placed here, once. */
    method AddLabel(name: string) returns (ok: bool)
      requires Sound(B())
      modifies this`labels, this`unusableLabels
      ensures Sound(B()) && (old(Pending(B())) ==> Pending(B())) && Extends(old(B()), B())
      ensures ok <==> if name in old(labels) then old(labels)[name].target.Unset? else name !in old(unusableLabels)
      ensures ok && name in old(labels) ==>
                B() == old(B()).(labels := old(labels)[name := old(labels)[name].(target := At(|instructions|))])
      ensures ok && name !in old(labels) ==> B() == old(B()).(unusable := old(unusableLabels) + {name})
      ensures !ok ==> B() == old(B())
    {
      if name !in labels {
        if name in unusableLabels {
          return false;
        }
        unusableLabels := unusableLabels + {name};
        ghost var b, b' := old(B()), B();
        forall n <- b'.labels
          ensures LabelFits(b', n)
        {
          assert LabelFits(b, n);
        }
        return true;
      }
      var l := labels[name];
      if l.target.At? {
        return false;
      }
      labels := labels[name := l.(target := At(|instructions|))];
      ghost var b, b' := old(B()), B();
      forall n <- b'.labels
        ensures LabelFits(b', n)
      {
        assert LabelFits(b, n);
      }
      return true;
    }

    /** One label: every jump that uses it gets its offset, unless something is
        wrong with it. */
    method ResolveLabel(name: string, ghost b: Build, ghost done: set<Source>)
      returns (ok: bool, ghost now: set<Source>)
      requires Sound(b) && name in b.labels && B() == b.(code := instructions) && PatchedSoFar(b, done, instructions)
      requires forall s <- b.labels[name].sources :: s !in done
      modifies this`instructions
      ensures ok <==> LabelResolves(b, name)
      ensures PatchedSoFar(b, now, instructions)
      ensures if ok then now == done + SourceSet(b.labels[name].sources)
              else done <= now <= done + SourceSet(b.labels[name].sources)
    {
      hide Patched;
      now := done;
      var l := labels[name];
      if name in unusableLabels {
        return false, now;
      }
      if l.target.Unset? {
        return false, now;
      }
      if l.target.pc >= |instructions| {
        return false, now;
      }
      assert LabelFits(b, name);
      var target := l.target.pc;
      var k := 0;
      while k < |l.sources|
        invariant done <= now <= done + SourceSet(l.sources)
        invariant 0 <= k <= |l.sources| && now == done + SourceSet(l.sources[..k])
        invariant PatchedSoFar(b, now, instructions) && B() == b.(code := instructions)
        invariant forall s <- l.sources[..k] :: SourceResolves(b, target, s)
      {
        var s := l.sources[k];
        assert l.sources[..k + 1] == l.sources[..k] + [s];
        assert s in b.labels[name].sources && s !in now;
        if s.line >= target {
          return false, now;
        }
        var inst := instructions[s.line];
        var offset := target - s.line - 1;
        if offset > Largest(s.jt) {
          return false, now;
        }
        SlotUntouched(b, now, instructions, s);
        if Slot(inst, s.jt) != Largest(s.jt) {
          return false, now;
        }
        PatchOne(b, now, instructions, s, target);
        now := now + {s};
        instructions := instructions[s.line := WithSlot(inst, s.jt, offset)];
        k := k + 1;
      }
      assert l.sources[..k] == l.sources;
      return true, now;
    }

    /** Resolution succeeds exactly when every label resolves, and then gives
        the same code whatever the order of the labels. */
    method Instructions() returns (code: seq<Instruction>, ok: bool, ghost done: set<Source>)
      requires Sound(B())
      modifies this`instructions, this`labels
      ensures ok <==> Resolvable(old(B()))
      ensures ok ==> code == Resolved(old(B())) && B() == old(B()).(labels := map[], code := code)
      ensures !ok ==> B() == old(B()).(code := code) && done <= Uses(old(B())) && PatchedSoFar(old(B()), done, code)
      ensures Sound(B())
    {
      hide PatchedSoFar;
      hide LabelResolves;
      hide Sound;
      hide Resolved;
      hide Uses;
      ghost var b := B();
      done := {};
      var todo := labels.Keys;
      NothingPatched(b);
      while todo != {}
        invariant todo <= b.labels.Keys && B() == b.(code := instructions) && PatchedSoFar(b, done, instructions)
        invariant forall name <- b.labels ::
          name in todo || (LabelResolves(b, name) && SourceSet(b.labels[name].sources) <= done)
        invariant forall s <- done :: s in Uses(b) && s in b.sources && b.sources[s] !in todo
        decreases |todo|
      {
        var name :| name in todo;
        LabelUses(b, name);
        ghost var now;
        ok, now := ResolveLabel(name, b, done);
        done := now;
        if !ok {
          PatchedSound(b, done, instructions);
          return instructions, false, done;
        }
        todo := todo - {name};
      }
      AllPatched(b, done, instructions);
      PatchedSound(b, done, instructions);
      labels := map[];
      return instructions, true, done;
    }

    /** False is the nil dereference at a label that resolution cleared away. */
    method OffsetOutcomes(pc: nat, toPC: nat, offsets: seq<JumpOffset>) returns (at: Outcomes, ok: bool)
      ensures ok <==> OffsetsKnown(B(), pc, offsets)
      ensures ok ==> at == JumpOutcomes(B(), toPC, pc, offsets)
    {
      hide JumpOutcomes;
      hide OffsetsKnown;
      NoOffsets(B(), toPC, pc);
      at := NO_OUTCOMES;
      var k := 0;
      while k < |offsets|
        invariant 0 <= k <= |offsets| && OffsetsKnown(B(), pc, offsets[..k])
        invariant at == JumpOutcomes(B(), toPC, pc, offsets[..k])
      {
        OneMoreOffset(B(), toPC, pc, offsets, k);
        var s := Source(pc, offsets[k].jumpType);
        if s in jumpSourceToLabel && jumpSourceToLabel[s] !in labels {
          return at, false;
        }
        if s in jumpSourceToLabel && labels[jumpSourceToLabel[s]].target.Unset? {
          at := at.(labels := at.labels + {jumpSourceToLabel[s]});
        } else {
          var labelled := s in jumpSourceToLabel;
          var target := if labelled then labels[jumpSourceToLabel[s]].target.pc else pc + offsets[k].offset + 1;
          if target == toPC {
            at := at.(fallThrough := true);
          } else if target > toPC {
            at := at.(jumpBeyond := true);
          }
        }
        k := k + 1;
      }
      assert offsets[..k] == offsets;
      return at, true;
    }

    /** The outcomes of the fragment [fromPC, toPC). It panics exactly if a jump of
        the fragment has a label and resolution has cleared the labels. */
    method FragmentOutcomes(fromPC: nat, toPC: nat) returns (o: Outcomes, ok: bool)
      requires fromPC <= toPC <= |instructions|
      ensures ok <==> KnownIn(B(), fromPC, toPC)
      ensures ok ==>
                o == if fromPC == toPC then NO_OUTCOMES.(fallThrough := true) else OutcomesOf(B(), fromPC, toPC, toPC)
    {
      if fromPC == toPC {
        return NO_OUTCOMES.(fallThrough := true), true;
      }
      o := NO_OUTCOMES;
      var pc := fromPC;
      while pc < toPC
        invariant fromPC <= pc <= toPC && KnownIn(B(), fromPC, pc) && o == OutcomesOf(B(), fromPC, pc, toPC)
      {
        var i := instructions[pc];
        var at := NO_OUTCOMES;
        if Class(i) == RET {
          if i.op == RET | SRC_K {
            at := at.(immediates := {i.k});
          } else if i.op == RET | SRC_A {
            at := at.(returnA := true);
          }
        } else if Class(i) == JMP {
          at, ok := OffsetOutcomes(pc, toPC, JumpOffsets(i));
          if !ok {
            assert !KnownAt(B(), pc);
            return o, false;
          }
        } else if pc == toPC - 1 {
          at := at.(fallThrough := true);
        }
        assert KnownAt(B(), pc);
        o := Union(o, at);
        pc := pc + 1;
      }
      return o, true;
    }
  }

  /** Before resolution nothing is cleared away, and after it every labelled jump
      is. */
  lemma KnownUntilResolved(b: Build, from: nat, to: nat)
    requires to <= |b.code|
    ensures Pending(b) ==> KnownIn(b, from, to)
    ensures b.labels == map[] && KnownIn(b, from, to) ==>
              forall pc | from <= pc < to && Class(b.code[pc]) == JMP :: Unlabelled(b, pc)
  {
    forall pc | from <= pc < to && Class(b.code[pc]) == JMP && b.labels == map[] && KnownIn(b, from, to)
      ensures Unlabelled(b, pc)
    {
      assert KnownAt(b, pc);
      var offsets := JumpOffsets(b.code[pc]);
      forall k | 0 <= k < |offsets|
        ensures Source(pc, offsets[k].jumpType) !in b.sources
      {
        assert SlotKnown(b, pc, offsets[k].jumpType);
      }
    }
  }

  ghost predicate Unlabelled(b: Build, pc: nat)
    requires pc < |b.code|
  {
    var offsets := JumpOffsets(b.code[pc]);
    forall k | 0 <= k < |offsets| :: Source(pc, offsets[k].jumpType) !in b.sources
  }

  lemma LabelGone(b: Build)
    requires b.code != [] && b.code[0].op == JMP | JA && Source(0, JumpDirect) in b.sources && b.labels == map[]
    ensures !KnownIn(b, 0, 1)
  {
    assert JumpOffsets(b.code[0])[0].jumpType == JumpDirect;
    assert !SlotKnown(b, 0, JumpOffsets(b.code[0])[0].jumpType);
    assert !KnownAt(b, 0);
  }

  lemma OneJumpResolves(b: Build)
    requires b.labels == map["end" := Label([Source(0, JumpDirect)], At(1))] && b.unusable == {}
    requires |b.code| == 2 && b.code[0].k == MAX_U32
    ensures Resolvable(b)
  {
    assert LabelResolves(b, "end");
  }

  /** A jump to a label, and a return there. */
  method LabelledJump() returns (b: ProgramBuilder)
    ensures fresh(b) && Sound(b.B()) && b.B().labels == map["end" := Label([Source(0, JumpDirect)], At(1))]
    ensures b.B().unusable == {} && Source(0, JumpDirect) in b.B().sources
    ensures |b.B().code| == 2 && b.B().code[0].k == MAX_U32 && b.B().code[0].op == JMP | JA
  {
    hide Sound;
    hide Pending;
    hide Extends;
    b := new ProgramBuilder();
    var s := Source(0, JumpDirect);
    b.AddDirectJumpLabel("end");
    assert [] + [s] == [s];
    assert b.B().labels == map["end" := Label([s], Unset)];
    var _ := b.AddLabel("end");
    b.AddStmt(RET | SRC_K, 0);
  }

  /** A labelled jump, resolved, and then asked for its outcomes. */
  method OutcomesAfterResolution() returns (resolved: bool, ok: bool)
    ensures resolved && !ok
  {
    hide Resolvable;
    hide Sound;
    hide KnownIn;
    var b := LabelledJump();
    OneJumpResolves(b.B());
    ResolvedOp(b.B(), 0);
    hide Resolved;
    var _, r, _ := b.Instructions();
    LabelGone(b.B());
    var _, o := b.FragmentOutcomes(0, 1);
    return r, o;
  }

  lemma LabelUses(b: Build, name: string)
    requires Sound(b) && name in b.labels
    ensures forall s <- b.labels[name].sources :: s in Uses(b) && s in b.sources && b.sources[s] == name
  {
    assert LabelFits(b, name);
  }

  lemma SlotUntouched(b: Build, done: set<Source>, code: seq<Instruction>, s: Source)
    requires PatchedSoFar(b, done, code) && s !in done && s.line < |code|
    ensures Slot(code[s.line], s.jt) == Slot(b.code[s.line], s.jt)
  {
  }

  lemma AllPatched(b: Build, done: set<Source>, code: seq<Instruction>)
    requires PatchedSoFar(b, done, code) && (forall s <- done :: s in Uses(b))
    requires forall name <- b.labels :: SourceSet(b.labels[name].sources) <= done
    ensures code == Resolved(b)
  {
    hide Patched;
    assert done == Uses(b) by {
      forall s <- Uses(b)
        ensures s in done
      {
        assert s in SourceSet(b.labels[b.sources[s]].sources);
      }
    }
  }

  lemma FinishJump(b0: Build, b: Build, i: Instruction)
    requires Almost(b) && Extends(b0, b) && b.code == b0.code
    requires forall s <- b.sources :: s.line <= |b.code|
    requires Source(|b.code|, JumpDirect) in b.sources ==> i.op == JMP | JA
    ensures Sound(WithCode(b, i)) && (Pending(b) ==> Pending(WithCode(b, i))) && Extends(b0, WithCode(b, i))
  {
    WithCodeKeeps(b, i);
  }
}
