/** Exactly when dropping a repeated load is safe.

    removeRedundantLoads follows writes to A only, so it also drops a load
    whose operands changed in between. The missing test is the only one: between
    two equal loads, an instruction that keeps A makes the second load droppable
    in every program if and only if it does not interfere with the load. */
module LoadExactness {
  import opened Options
  import opened Bpf
  import opened Interpreter
  import opened Validator
  import opened Simulation
  import opened Removal
  import opened RedundantLoads

  /** A load, one instruction, the same load, in a context. */
  function InContext(pre: seq<Instruction>, l: Instruction, w: Instruction, post: seq<Instruction>): seq<Instruction> {
    pre + [l, w, l] + post
  }

  /** In every well-formed program where the pass would drop the second of two
      equal loads around w, dropping it is an improvement. */
  ghost predicate DropsSafely(l: Instruction, w: Instruction) {
    forall pre, post ::
      var p := InContext(pre, l, w, post);
      FlowsInside(p) && RedundantLoad(p, |pre| + 2) ==> Improves(p, RemoveAt(p, |pre| + 2))
  }

  predicate KeepsAPlain(w: Instruction) {
    OpValid(w) && Plain(w) && !ModifiesRegisterA(w)
  }

  // ---------------------------------------------------------------------
  // Without interference the load may go
  // ---------------------------------------------------------------------

  lemma WindowChain(p: seq<Instruction>, r: nat)
    requires 2 <= r < |p| && RedundantLoad(p, r)
    requires Plain(p[r - 1]) && !ModifiesRegisterA(p[r - 1]) && Class(p[r - 2]) == LD
    ensures Chain(p, r) == {r, r - 1}
  {
    hide Equal;
    assert r - 1 in Predecessors(p, r) by { assert r in Successors(p[r - 1], r - 1); }
    OnlyIsUnique(Predecessors(p, r), r - 1);
    assert LastModifiedA(p, r - 1) == LastModifiedA(p, r) != -1;
    assert r - 2 in Predecessors(p, r - 1) by { assert r - 1 in Successors(p[r - 2], r - 2); }
    OnlyIsUnique(Predecessors(p, r - 1), r - 2);
  }

  lemma NoInterferenceDrops(l: Instruction, w: Instruction)
    requires OpValid(l) && Class(l) == LD && KeepsAPlain(w) && !Interferes(w, l)
    ensures DropsSafely(l, w)
  {
    forall pre, post
      ensures var p := InContext(pre, l, w, post);
              FlowsInside(p) && RedundantLoad(p, |pre| + 2) ==> Improves(p, RemoveAt(p, |pre| + 2))
    {
      var p, r := InContext(pre, l, w, post), |pre| + 2;
      if FlowsInside(p) && RedundantLoad(p, r) {
        assert p[r] == l && p[r - 1] == w && p[r - 2] == l;
        WindowChain(p, r);
        assert ChainUndisturbed(p, r);
        RemoveLoadAt(p, r);
      }
    }
  }

  // ---------------------------------------------------------------------
  // Straight-line programs
  // ---------------------------------------------------------------------

  ghost predicate StraightLine(p: seq<Instruction>) {
    && |p| > 0
    && (forall pc | 0 <= pc < |p| :: OpValid(p[pc]))
    && (forall pc | 0 <= pc < |p| - 1 :: Plain(p[pc]))
    && IsReturn(p[|p| - 1])
  }

  lemma StraightLineFlows(p: seq<Instruction>)
    requires StraightLine(p)
    ensures FlowsInside(p)
    ensures forall pc | 0 < pc < |p| :: Predecessors(p, pc) == {pc - 1}
  {
    hide OpValid;
    forall pc | 0 < pc < |p|
      ensures Predecessors(p, pc) == {pc - 1}
    {
      assert pc in Successors(p[pc - 1], pc - 1);
    }
  }

  // ---------------------------------------------------------------------
  // With interference some program is broken
  // ---------------------------------------------------------------------

  /** X gets c, then the window, then A is returned. */
  function Probe(c: u32, l: Instruction, w: Instruction): seq<Instruction> {
    InContext([Stmt(LDX | IMM | W, c)], l, w, [Stmt(RET | SRC_A, 0)])
  }

  lemma ProbeIsRedundant(c: u32, l: Instruction, w: Instruction)
    requires OpValid(l) && Class(l) == LD && KeepsAPlain(w)
    ensures FlowsInside(Probe(c, l, w)) && RedundantLoad(Probe(c, l, w), 3)
    ensures RemoveAt(Probe(c, l, w), 3) == [Stmt(LDX | IMM | W, c), l, w, Stmt(RET | SRC_A, 0)]
  {
    var p := Probe(c, l, w);
    assert p == [Stmt(LDX | IMM | W, c), l, w, l, Stmt(RET | SRC_A, 0)];
    assert StraightLine(p);
    StraightLineFlows(p);
    OnlyIsUnique(Predecessors(p, 3), 2);
    OnlyIsUnique(Predecessors(p, 2), 1);
    assert LastModifiedA(p, 2) == 1;
    assert LastModifiedA(p, 3) == 1;
    assert Equal(l, l);
  }

  /** The states the probe goes through. */
  lemma ProbeRuns(c: u32, l: Instruction, w: Instruction, input: Input, m1: Machine, m2: Machine, m3: Machine)
    requires Step(l, ZeroMachine().(x := c), input) == Continue(m1, 0)
    requires Step(w, m1, input) == Continue(m2, 0)
    requires Step(l, m2, input) == Continue(m3, 0)
    ensures Start(Probe(c, l, w), input).outcome == Returned(m3.a)
    ensures Start([Stmt(LDX | IMM | W, c), l, w, Stmt(RET | SRC_A, 0)], input).outcome == Returned(m2.a)
  {
    var p, q := Probe(c, l, w), [Stmt(LDX | IMM | W, c), l, w, Stmt(RET | SRC_A, 0)];
    assert p == [Stmt(LDX | IMM | W, c), l, w, l, Stmt(RET | SRC_A, 0)];
    var m0 := ZeroMachine().(x := c);
    LoadXRuns(c, input);
    ReturnARuns(m3, input);
    ReturnARuns(m2, input);
    hide Step;
    RunContinues(p, 0, ZeroMachine(), input, m0, 0);
    RunContinues(p, 1, m0, input, m1, 0);
    RunContinues(p, 2, m1, input, m2, 0);
    RunContinues(p, 3, m2, input, m3, 0);
    RunContinues(q, 0, ZeroMachine(), input, m0, 0);
    RunContinues(q, 1, m0, input, m1, 0);
    RunContinues(q, 2, m1, input, m2, 0);
  }

  lemma LoadXRuns(c: u32, input: Input)
    ensures Step(Stmt(LDX | IMM | W, c), ZeroMachine(), input) == Continue(ZeroMachine().(x := c), 0)
  {
  }

  lemma ReturnARuns(m: Machine, input: Input)
    ensures Step(Stmt(RET | SRC_A, 0), m, input) == Return(m.a)
  {
  }

  /** If A differs after the second load, the probe is a counterexample. */
  lemma ProbeBreaks(c: u32, l: Instruction, w: Instruction, input: Input, m1: Machine, m2: Machine, m3: Machine)
    requires OpValid(l) && Class(l) == LD && KeepsAPlain(w)
    requires Step(l, ZeroMachine().(x := c), input) == Continue(m1, 0)
    requires Step(w, m1, input) == Continue(m2, 0)
    requires Step(l, m2, input) == Continue(m3, 0)
    requires m3.a != m2.a
    ensures !DropsSafely(l, w)
  {
    hide Step;
    hide OpValid;
    hide FlowsInside;
    hide Run;
    hide RemoveAt;
    hide RedundantLoad;
    ProbeIsRedundant(c, l, w);
    ProbeRuns(c, l, w, input, m1, m2, m3);
    var pre, post := [Stmt(LDX | IMM | W, c)], [Stmt(RET | SRC_A, 0)];
    var p := InContext(pre, l, w, post);
    assert !NoWorse(Start(p, input), Start(RemoveAt(p, |pre| + 2), input));
  }

  /** An input of the given length that is zero but for a 16 at t. The low
      nibble of every byte is zero. */
  function Marked(length: nat, t: nat): Input {
    Input(seq(length, k => if k == t then 16 else 0), BigEndian)
  }

  /** An address at which four zero bytes stand before or after the mark. */
  function QuietAddress(t: nat): u32 {
    if t >= 4 then 0 else 8
  }

  lemma MarkedBytes(length: nat, t: u32)
    requires t + 16 <= length
    ensures var b, q := Marked(length, t).bytes, QuietAddress(t);
            && |b| == length && q + 4 <= length && Marked(length, t).order == BigEndian
            && b[q] == b[q + 1] == b[q + 2] == b[q + 3] == 0
            && b[t] == 16 && b[t + 1] == b[t + 2] == b[t + 3] == 0
  {
  }

  /** A word that starts with v and is otherwise zero is zero only if v is. */
  lemma LoadsOfOneByte(input: Input, off: u32, v: u8)
    requires input.order == BigEndian && off + 4 <= |input.bytes|
    requires input.bytes[off] == v && input.bytes[off + 1] == input.bytes[off + 2] == input.bytes[off + 3] == 0
    ensures Load32(input, off).Some? && (Load32(input, off).value == 0 <==> v == 0)
    ensures Load16(input, off).Some? && (Load16(input, off).value == 0 <==> v == 0)
    ensures Load8(input, off) == Some(v)
  {
  }

  lemma IndirectLoads(l: Instruction, m: Machine, length: nat, t: u32)
    requires OpValid(l) && IsIndirectLoad(l) && t + 16 <= length
    ensures var s := Step(l, m, Marked(length, t));
            && (Wrap(m.x + l.k) == QuietAddress(t) ==> s == Continue(m.(a := 0), 0))
            && (Wrap(m.x + l.k) == t ==> s.Continue? && s.off == 0 && s.machine.a != 0)
  {
    hide Wrap;
    hide Load8;
    hide Load16;
    hide Load32;
    hide Marked;
    hide QuietAddress;
    MarkedBytes(length, t);
    LoadsOfOneByte(Marked(length, t), QuietAddress(t), 0);
    LoadsOfOneByte(Marked(length, t), t, 16);
    assert l.op == LD | IND | W || l.op == LD | IND | H || l.op == LD | IND | B;
  }

  lemma WrapInverse(a: u32, k: u32)
    ensures Wrap(Wrap(a - k) + k) == a
  {
  }

  /** For an indirect load: put the mark where w sends the second load. */
  lemma IndirectBreaks(l: Instruction, w: Instruction, length: nat, t: u32, m2: Machine)
    requires OpValid(l) && IsIndirectLoad(l) && KeepsAPlain(w)
    requires t + 16 <= length
    requires var m1 := ZeroMachine().(x := Wrap(QuietAddress(t) - l.k));
             Step(w, m1, Marked(length, t)) == Continue(m2, 0) && Wrap(m2.x + l.k) == t
    ensures !DropsSafely(l, w)
  {
    hide Step;
    hide OpValid;
    hide Wrap;
    hide QuietAddress;
    hide Marked;
    hide DropsSafely;
    var c := Wrap(QuietAddress(t) - l.k);
    var input := Marked(length, t);
    var m1 := ZeroMachine().(x := c);
    WrapInverse(QuietAddress(t), l.k);
    IndirectLoads(l, m1, length, t);
    IndirectLoads(l, m2, length, t);
    assert m1.(a := 0) == m1;
    KeepsA(w, m1, input);
    ProbeBreaks(c, l, w, input, m1, m2, Step(l, m2, input).machine);
  }

  /** Whatever writes X, some length and mark expose it. */
  lemma WriterOfXBreaks(l: Instruction, w: Instruction)
    requires OpValid(l) && IsIndirectLoad(l) && KeepsAPlain(w) && WritesX(w)
    ensures !DropsSafely(l, w)
  {
    hide DropsSafely;
    if w.op == LDX | IMM | W {
      var t := Wrap(w.k + l.k);
      var length: nat := t as int + 16;
      IndirectBreaks(l, w, length, t, ZeroMachine().(x := w.k));
    } else if w.op == LDX | LEN | W {
      var length := 0x1_0000_0010;
      var t := Wrap(Wrap(length) + l.k);
      IndirectBreaks(l, w, length, t, ZeroMachine().(x := Wrap(length)));
    } else {
      assert w.op == LDX | MEM | W || w.op == LDX | MSH | B || w.op == MISC | TXA;
      var length, t := w.k + l.k + 16, l.k;
      assert Wrap(0 + l.k) == t;
      IndirectBreaks(l, w, length, t, ZeroMachine());
    }
  }

  lemma StoreOfXBreaks(l: Instruction, w: Instruction)
    requires OpValid(l) && IsMemoryLoad(l) && KeepsAPlain(w) && Class(w) == STX && w.k == l.k
    ensures !DropsSafely(l, w)
  {
    hide DropsSafely;
    assert l.op == LD | MEM | W && w.op == STX;
    var input := Input([], BigEndian);
    var m1: Machine := ZeroMachine().(x := 1);
    var m2: Machine := m1.(mem := m1.mem[w.k := 1]);
    var m3: Machine := m2.(a := 1);
    assert m1.(a := 0) == m1;
    ProbeBreaks(1, l, w, input, m1, m2, m3);
  }

  /** The exact condition: between two equal loads, an instruction that keeps
      A lets the second load be dropped in every program if and only if it
      does not interfere with the load. */
  lemma DropsSafelyIffNoInterference(l: Instruction, w: Instruction)
    requires OpValid(l) && Class(l) == LD && KeepsAPlain(w)
    ensures DropsSafely(l, w) <==> !Interferes(w, l)
  {
    hide DropsSafely;
    hide OpValid;
    hide KeepsAPlain;
    if !Interferes(w, l) {
      NoInterferenceDrops(l, w);
    } else if IsIndirectLoad(l) && WritesX(w) {
      WriterOfXBreaks(l, w);
    } else {
      StoreOfXBreaks(l, w);
    }
  }
}
