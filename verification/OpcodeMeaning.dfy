/** What the opcodes of interpreter.go mean, said without the interpreter's own
    arithmetic. Each result is about the run of a short program whose opcodes are
    written as numbers: the registers are loaded with arbitrary words, one
    instruction is executed, and what the program returns is described by
    integer arithmetic or bit by bit. */
module OpcodeMeaning {
  import opened Options
  import opened Bpf
  import opened Interpreter

  const TWO_TO_32 := 0x1_0000_0000

  // ---------------------------------------------------------------------
  // Bits of a word
  // ---------------------------------------------------------------------

  /** Bit j of w, counted from the least significant. */
  predicate Bit(w: nat, j: nat) {
    if j == 0 then w % 2 == 1 else Bit(w / 2, j - 1)
  }

  /** A number of n bits is determined by its bits. */
  lemma {:induction false} SameBits(n: nat, w: nat, w': nat)
    requires w < Power2(n) && w' < Power2(n)
    requires forall j: nat | j < n :: Bit(w, j) == Bit(w', j)
    ensures w == w'
  {
    if n > 0 {
      assert Bit(w, 0) == Bit(w', 0);
      forall j: nat | j < n - 1
        ensures Bit(w / 2, j) == Bit(w' / 2, j)
      {
        assert Bit(w, j + 1) == Bit(w', j + 1);
      }
      SameBits(n - 1, w / 2, w' / 2);
    }
  }

  lemma {:induction false} SomeBit(n: nat, w: nat) returns (j: nat)
    requires 0 < w < Power2(n)
    ensures j < n && Bit(w, j)
  {
    if w % 2 == 1 {
      j := 0;
    } else {
      var i := SomeBit(n - 1, w / 2);
      j := i + 1;
    }
  }

  lemma {:induction false} ZeroHasNoBits(j: nat)
    ensures !Bit(0, j)
  {
    if j > 0 {
      ZeroHasNoBits(j - 1);
    }
  }

  predicate Combine(o: BitOp, b: bool, c: bool) {
    match o
    case BitAnd => b && c
    case BitOr => b || c
    case BitXor => b != c
  }

  lemma {:induction false} BitwiseBit(o: BitOp, n: nat, a: nat, b: nat, j: nat)
    requires j < n
    ensures Bit(OnBits(o, n, a, b), j) == Combine(o, Bit(a, j), Bit(b, j))
  {
    var rest := OnBits(o, n - 1, a / 2, b / 2);
    assert OnBits(o, n, a, b) == OnBit(o, a, b) + 2 * rest;
    if j > 0 {
      BitwiseBit(o, n - 1, a / 2, b / 2, j - 1);
      assert OnBits(o, n, a, b) / 2 == rest;
    }
  }

  lemma RemainderUnique(w: int, m: nat, q: int, r: nat)
    requires m > 0 && w == m * q + r && r < m
    ensures w % m == r && w / m == q
  {
    var d := w / m - q;
    assert w == m * (w / m) + w % m;
    assert m * (w / m) == m * q + m * d;
    assert d >= 1 ==> m * (d - 1) >= 0;
    assert d <= -1 ==> m * (-1 - d) >= 0;
  }

  lemma DoubledProduct(m: int, q: int)
    ensures 2 * m * q == 2 * (m * q)
  {
  }

  lemma HalfOfSum(w: int, product: int, r: int)
    requires w == 2 * product + r
    ensures w / 2 == product + r / 2 && w % 2 == r % 2
  {
  }

  /** Dividing by 2m is dividing by m after halving. */
  lemma HalvedDivision(w: nat, m: nat)
    requires m > 0
    ensures w / (2 * m) == (w / 2) / m
    ensures (w % (2 * m)) / 2 == (w / 2) % m && (w % (2 * m)) % 2 == w % 2
  {
    var d := 2 * m;
    var q, r := w / d, w % d;
    DoubledProduct(m, q);
    HalfOfSum(w, m * q, r);
    RemainderUnique(w / 2, m, q, r / 2);
  }

  lemma {:induction false} TruncatedBit(w: nat, n: nat, j: nat)
    requires j < n
    ensures Bit(w % Power2(n), j) == Bit(w, j)
  {
    HalvedDivision(w, Power2(n - 1));
    if j > 0 {
      TruncatedBit(w / 2, n - 1, j - 1);
    }
  }

  lemma {:induction false} ShiftedUpBit(a: nat, s: nat, j: nat)
    ensures Bit(a * Power2(s), j) == (s <= j && Bit(a, j - s))
    decreases s
  {
    if s == 0 {
      assert a * Power2(0) == a;
    } else {
      var w := a * Power2(s - 1);
      assert a * Power2(s) == 2 * w;
      if j > 0 {
        ShiftedUpBit(a, s - 1, j - 1);
      }
    }
  }

  function Halved(a: nat, s: nat): nat {
    if s == 0 then a else Halved(a / 2, s - 1)
  }

  lemma {:induction false} HalvedIsQuotient(a: u32, s: nat)
    ensures Halved(a, s) == Quotient(a, Power2(s))
    decreases s
  {
    if s > 0 {
      HalvedDivision(a, Power2(s - 1));
      HalvedIsQuotient(a / 2, s - 1);
    }
  }

  lemma {:induction false} HalvedBit(a: nat, s: nat, j: nat)
    ensures Bit(Halved(a, s), j) == Bit(a, j + s)
    decreases s
  {
    if s > 0 {
      HalvedBit(a / 2, s - 1, j);
    }
  }

  lemma {:induction false} HighBitsZero(n: nat, a: nat, j: nat)
    requires a < Power2(n) && n <= j
    ensures !Bit(a, j)
  {
    if n == 0 {
      ZeroHasNoBits(j);
    } else {
      HighBitsZero(n - 1, a / 2, j - 1);
    }
  }

  lemma WordBits()
    ensures Power2(32) == TWO_TO_32
  {
    assert Power2(8) == 0x100;
    assert Power2(16) == 0x1_0000;
    assert Power2(24) == 0x100_0000;
  }

  // ---------------------------------------------------------------------
  // Runs of short programs
  // ---------------------------------------------------------------------

  /** ldx #x; ld #a */
  function Setup(x: u32, a: u32): seq<Instruction> {
    [Instruction(0x01, 0, 0, x), Instruction(0x00, 0, 0, a)]
  }

  const RETURN_A := Instruction(0x16, 0, 0, 0)

  function ReturnK(k: u32): Instruction {
    Instruction(0x06, 0, 0, k)
  }

  function Loaded(x: u32, a: u32): Machine {
    ZeroMachine().(a := a, x := x)
  }

  lemma RunStep(p: seq<Instruction>, input: Input, pc: nat, m: Machine, m': Machine, off: nat)
    requires pc < |p| && Step(p[pc], m, input) == Continue(m', off)
    ensures Run(p, input, pc, m).outcome == Run(p, input, pc + 1 + off, m').outcome
  {
    hide Step;
  }

  /** The program goes on after Setup with the registers loaded. */
  lemma AfterSetup(x: u32, a: u32, rest: seq<Instruction>, input: Input)
    ensures Start(Setup(x, a) + rest, input).outcome == Run(Setup(x, a) + rest, input, 2, Loaded(x, a)).outcome
  {
    var p := Setup(x, a) + rest;
    hide Run;
    RunStep(p, input, 0, ZeroMachine(), ZeroMachine().(x := x), 0);
    RunStep(p, input, 1, ZeroMachine().(x := x), Loaded(x, a), 0);
  }

  lemma ReturnsA(p: seq<Instruction>, input: Input, pc: nat, m: Machine)
    requires pc < |p| && p[pc] == RETURN_A
    ensures Run(p, input, pc, m).outcome == Returned(m.a)
  {
  }

  lemma ReturnsK(p: seq<Instruction>, input: Input, pc: nat, m: Machine, k: u32)
    requires pc < |p| && p[pc] == ReturnK(k)
    ensures Run(p, input, pc, m).outcome == Returned(k)
  {
  }

  // ---------------------------------------------------------------------
  // Conditional jumps
  // ---------------------------------------------------------------------

  datatype Comparison = IsEqual | IsGreater | IsAtLeast | SharesABit

  function JumpCode(c: Comparison, byX: bool): bv16 {
    match c
    case IsEqual => if byX then 0x1d else 0x15
    case IsGreater => if byX then 0x2d else 0x25
    case IsAtLeast => if byX then 0x3d else 0x35
    case SharesABit => if byX then 0x4d else 0x45
  }

  predicate Holds(c: Comparison, a: u32, b: u32) {
    match c
    case IsEqual => a == b
    case IsGreater => a > b
    case IsAtLeast => a >= b
    case SharesABit => exists j: nat | j < 32 :: Bit(a, j) && Bit(b, j)
  }

  function TestProgram(c: Comparison, byX: bool, x: u32, a: u32, k: u32): seq<Instruction> {
    Setup(x, a) + [Instruction(JumpCode(c, byX), 0, 1, k), ReturnK(1), ReturnK(0)]
  }

  lemma SharedBit(a: u32, b: u32)
    ensures Bitwise(BitAnd, a, b) != 0 <==> Holds(SharesABit, a, b)
  {
    WordBits();
    var w := OnBits(BitAnd, 32, a, b);
    if w != 0 {
      var j := SomeBit(32, w);
      BitwiseBit(BitAnd, 32, a, b, j);
    }
    if j: nat :| j < 32 && Bit(a, j) && Bit(b, j) {
      BitwiseBit(BitAnd, 32, a, b, j);
      ZeroHasNoBits(j);
    }
  }

  lemma TestOutcome(c: Comparison, byX: bool, x: u32, a: u32, k: u32)
    ensures Test(JumpCode(c, byX), k, Loaded(x, a)) == Some(Holds(c, a, if byX then x else k))
  {
    SharedBit(a, if byX then x else k);
    hide Bitwise;
  }

  /** A conditional jump compares A with K or with X and takes jt exactly when
      the comparison holds. */
  lemma TestMeaning(c: Comparison, byX: bool, x: u32, a: u32, k: u32, input: Input)
    ensures Start(TestProgram(c, byX, x, a, k), input).outcome
            == Returned(if Holds(c, a, if byX then x else k) then 1 else 0)
  {
    var p := TestProgram(c, byX, x, a, k);
    var taken := Holds(c, a, if byX then x else k);
    AfterSetup(x, a, p[2..], input);
    assert Setup(x, a) + p[2..] == p;
    TestOutcome(c, byX, x, a, k);
    hide Test;
    hide Holds;
    var m := Loaded(x, a);
    assert Step(p[2], m, input) == Continue(m, if taken then 0 else 1);
    hide Step;
    hide Run;
    hide Start;
    RunStep(p, input, 2, m, m, if taken then 0 else 1);
    if taken {
      ReturnsK(p, input, 3, m, 1);
    } else {
      ReturnsK(p, input, 4, m, 0);
    }
  }

  /** A direct jump skips k instructions, whatever its other fields. */
  lemma DirectJumpMeaning(p: seq<Instruction>, input: Input, pc: nat, m: Machine)
    requires pc < |p| && p[pc].op == 0x05
    ensures Run(p, input, pc, m).outcome == Run(p, input, pc + 1 + p[pc].k, m).outcome
  {
    RunStep(p, input, pc, m, m, p[pc].k);
  }

  // ---------------------------------------------------------------------
  // Arithmetic
  // ---------------------------------------------------------------------

  datatype Arithmetic = Plus | Minus | Times | Over | Modulo | Union | Intersection | Difference | Up | Down

  function AluCode(o: Arithmetic, byX: bool): bv16 {
    match o
    case Plus => if byX then 0x0c else 0x04
    case Minus => if byX then 0x1c else 0x14
    case Times => if byX then 0x2c else 0x24
    case Over => if byX then 0x3c else 0x34
    case Union => if byX then 0x4c else 0x44
    case Intersection => if byX then 0x5c else 0x54
    case Up => if byX then 0x6c else 0x64
    case Down => if byX then 0x7c else 0x74
    case Modulo => if byX then 0x9c else 0x94
    case Difference => if byX then 0xac else 0xa4
  }

  predicate Divides(o: Arithmetic) {
    o == Over || o == Modulo
  }

  /** r is the 32-bit result of the operation on a and b. */
  ghost predicate Computes(o: Arithmetic, a: u32, b: u32, r: u32)
    requires Divides(o) ==> b != 0
  {
    match o
    case Plus => r == (a + b) % TWO_TO_32
    case Minus => (r + b) % TWO_TO_32 == a
    case Times => r == (a * b) % TWO_TO_32
    case Over => b * r <= a < b * r + b
    case Modulo => r < b && exists q: nat :: Total(b, q, r) == a
    case Union => forall j: nat | j < 32 :: Bit(r, j) == (Bit(a, j) || Bit(b, j))
    case Intersection => forall j: nat | j < 32 :: Bit(r, j) == (Bit(a, j) && Bit(b, j))
    case Difference => forall j: nat | j < 32 :: Bit(r, j) == (Bit(a, j) != Bit(b, j))
    case Up => forall j: nat | j < 32 :: Bit(r, j) == (b <= j && Bit(a, j - b))
    case Down => forall j: nat | j < 32 :: Bit(r, j) == (j + b < 32 && Bit(a, j + b))
  }

  function Total(b: nat, q: nat, r: nat): nat {
    b * q + r
  }

  lemma OneDivision(o: Arithmetic, a: u32, b: u32, r: u32)
    requires Divides(o) && b != 0 && Computes(o, a, b, r)
    ensures r == if o == Over then a / b else a % b
  {
    if o == Over {
      RemainderUnique(a, b, r, a - b * r);
    } else {
      var q: nat :| Total(b, q, r) == a;
      RemainderUnique(a, b, q, r);
    }
  }

  /** Nothing but one word is the result. */
  lemma ComputesOneWord(o: Arithmetic, a: u32, b: u32, r: u32, r': u32)
    requires Divides(o) ==> b != 0
    requires Computes(o, a, b, r) && Computes(o, a, b, r')
    ensures r == r'
  {
    match o {
      case Plus | Times =>
      case Minus => assert (r - r') % TWO_TO_32 == 0;
      case Over | Modulo =>
        OneDivision(o, a, b, r);
        OneDivision(o, a, b, r');
        hide Computes;
      case Union | Intersection | Difference | Up | Down =>
        WordBits();
        forall j: nat | j < 32
          ensures Bit(r, j) == Bit(r', j)
        {
        }
        SameBits(32, r, r');
    }
  }

  lemma BitwiseComputes(o: BitOp, a: u32, b: u32, j: nat)
    requires j < 32
    ensures Bit(Bitwise(o, a, b), j) == Combine(o, Bit(a, j), Bit(b, j))
  {
    BitwiseBit(o, 32, a, b, j);
  }

  lemma ShiftLeftComputes(a: u32, s: u32, j: nat)
    requires j < 32
    ensures Bit(ShiftLeft(a, s), j) == (s <= j && Bit(a, j - s))
  {
    WordBits();
    if s >= 32 {
      ZeroHasNoBits(j);
    } else {
      TruncatedBit(a * Power2(s), 32, j);
      ShiftedUpBit(a, s, j);
    }
  }

  lemma ShiftRightComputes(a: u32, s: u32, j: nat)
    requires j < 32
    ensures Bit(ShiftRight(a, s), j) == (j + s < 32 && Bit(a, j + s))
  {
    WordBits();
    if s >= 32 {
      ZeroHasNoBits(j);
    } else {
      HalvedIsQuotient(a, s);
      HalvedBit(a, s, j);
      if j + s >= 32 {
        HighBitsZero(32, a, j + s);
      }
    }
  }

  lemma DivisionComputes(a: u32, b: u32)
    requires b != 0
    ensures Computes(Over, a, b, Quotient(a, b)) && Computes(Modulo, a, b, Remainder(a, b))
  {
    assert a == b * (a / b) + a % b;
    assert Total(b, a / b, a % b) == a;
  }

  lemma AluComputes(o: Arithmetic, byX: bool, a: u32, b: u32)
    requires Divides(o) ==> b != 0
    ensures var r := Alu(AluCode(o, byX) & 0xf0, a, b, byX);
            r.Word? && Computes(o, a, b, r.word)
  {
    match o {
      case Plus | Minus | Times =>
      case Over | Modulo =>
        DivisionComputes(a, b);
      case Union =>
        forall j: nat | j < 32 { BitwiseComputes(BitOr, a, b, j); }
      case Intersection =>
        forall j: nat | j < 32 { BitwiseComputes(BitAnd, a, b, j); }
      case Difference =>
        forall j: nat | j < 32 { BitwiseComputes(BitXor, a, b, j); }
      case Up =>
        forall j: nat | j < 32 { ShiftLeftComputes(a, b, j); }
      case Down =>
        forall j: nat | j < 32 { ShiftRightComputes(a, b, j); }
    }
  }

  /** Setup, one instruction, then rest. */
  function Program(x: u32, a: u32, i: Instruction, rest: seq<Instruction>): seq<Instruction> {
    Setup(x, a) + [i] + rest
  }

  lemma Executes(x: u32, a: u32, i: Instruction, rest: seq<Instruction>, input: Input)
    ensures var p := Program(x, a, i, rest);
            match Step(i, Loaded(x, a), input)
            case Continue(m', off) => Start(p, input).outcome == Run(p, input, 3 + off, m').outcome
            case Return(v) => Start(p, input).outcome == Returned(v)
            case Fail(code) => Start(p, input).outcome == Failed(code, 2)
            case Panic(_) => Start(p, input).outcome == Panicked
  {
    var p := Program(x, a, i, rest);
    assert p == Setup(x, a) + ([i] + rest);
    AfterSetup(x, a, [i] + rest, input);
    assert p[2] == i;
    hide Step;
    hide Start;
  }

  lemma ReturnsAfter(x: u32, a: u32, i: Instruction, input: Input, m': Machine)
    requires Step(i, Loaded(x, a), input) == Continue(m', 0)
    ensures Start(Program(x, a, i, [RETURN_A]), input).outcome == Returned(m'.a)
  {
    hide Step;
    hide Start;
    Executes(x, a, i, [RETURN_A], input);
    ReturnsA(Program(x, a, i, [RETURN_A]), input, 3, m');
    hide Run;
  }

  /** An arithmetic instruction leaves in A the one word that is the result of
      the operation on A and K or X. */
  lemma AluMeaning(o: Arithmetic, byX: bool, x: u32, a: u32, k: u32, input: Input)
    requires Divides(o) ==> (if byX then x else k) != 0
    ensures var r := Start(Program(x, a, Instruction(AluCode(o, byX), 0, 0, k), [RETURN_A]), input).outcome;
            r.Returned? && Computes(o, a, if byX then x else k, r.value)
  {
    var i := Instruction(AluCode(o, byX), 0, 0, k);
    var b := if byX then x else k;
    AluComputes(o, byX, a, b);
    hide Computes;
    hide Alu;
    var m := Loaded(x, a);
    var w := Alu(i.op & 0xf0, a, b, byX).word;
    assert Step(i, m, input) == Continue(m.(a := w), 0);
    hide Step;
    hide Start;
    ReturnsAfter(x, a, i, input, m.(a := w));
  }

  /** Dividing by zero: an error with X, a crash with a constant. */
  lemma ZeroDivisorMeaning(o: Arithmetic, byX: bool, x: u32, a: u32, k: u32, input: Input)
    requires Divides(o) && (if byX then x else k) == 0
    ensures Start(Program(x, a, Instruction(AluCode(o, byX), 0, 0, k), [RETURN_A]), input).outcome
            == if byX then Failed(DivisionByZero, 2) else Panicked
  {
    hide Start;
    Executes(x, a, Instruction(AluCode(o, byX), 0, 0, k), [RETURN_A], input);
    hide Run;
  }

  lemma NegationMeaning(x: u32, a: u32, k: u32, input: Input)
    ensures var r := Start(Program(x, a, Instruction(0x84, 0, 0, k), [RETURN_A]), input).outcome;
            r.Returned? && (r.value + a) % TWO_TO_32 == 0
  {
    hide Start;
    var m := Loaded(x, a);
    ReturnsAfter(x, a, Instruction(0x84, 0, 0, k), input, m.(a := Wrap(0 - a)));
    hide Step;
  }

  // ---------------------------------------------------------------------
  // Loads from the input
  // ---------------------------------------------------------------------

  /** The j-th base-256 digit of w. */
  function Digit(w: nat, j: nat): (r: nat)
    ensures r < 0x100
  {
    if j == 0 then w % 0x100 else Digit(w / 0x100, j - 1)
  }

  /** The bytes at off are w's, in the input's order. */
  predicate Stored(input: Input, off: nat, size: nat, w: nat) {
    && off + size <= |input.bytes|
    && var bytes := input.bytes[off..off + size];
       forall j | 0 <= j < size :: bytes[j] == Digit(w, if input.order == BigEndian then size - 1 - j else j)
  }

  datatype Width = Four | Two | One {
    function Bytes(): nat {
      match this
      case Four => 4
      case Two => 2
      case One => 1
    }

    function Limit(): nat {
      match this
      case Four => TWO_TO_32
      case Two => 0x1_0000
      case One => 0x100
    }
  }

  function LoadCode(width: Width, indirect: bool): bv16 {
    match width
    case Four => if indirect then 0x40 else 0x20
    case Two => if indirect then 0x48 else 0x28
    case One => if indirect then 0x50 else 0x30
  }

  lemma FourDigits(w: u32)
    ensures w == Word32(Digit(w, 3), Digit(w, 2), Digit(w, 1), Digit(w, 0))
  {
    var w1 := w / 0x100;
    var w2 := w1 / 0x100;
    var w3 := w2 / 0x100;
    assert Digit(w, 1) == Digit(w1, 0) == w1 % 0x100;
    assert Digit(w, 2) == Digit(w1, 1) == Digit(w2, 0) == w2 % 0x100;
    assert Digit(w, 3) == Digit(w1, 2) == Digit(w2, 1) == Digit(w3, 0) == w3;
    hide Digit;
  }

  lemma StoredIsLoaded(width: Width, input: Input, off: u32, w: nat)
    requires w < width.Limit() && Stored(input, off, width.Bytes(), w)
    ensures (match width
             case Four => Load32(input, off)
             case Two => Load16(input, off)
             case One => Load8(input, off)) == Some(w)
  {
    var b := input.bytes[off..off + width.Bytes()];
    match width {
      case Four =>
        FourDigits(w);
        assert b[0] == Digit(w, if input.order == BigEndian then 3 else 0);
        assert b[1] == Digit(w, if input.order == BigEndian then 2 else 1);
        assert b[2] == Digit(w, if input.order == BigEndian then 1 else 2);
        assert b[3] == Digit(w, if input.order == BigEndian then 0 else 3);
        hide Digit;
      case Two =>
        assert b[0] == Digit(w, if input.order == BigEndian then 1 else 0);
        assert b[1] == Digit(w, if input.order == BigEndian then 0 else 1);
        assert Digit(w, 1) == w / 0x100;
      case One =>
        assert b[0] == Digit(w, 0);
    }
  }

  /** A load of the input finds the number whose bytes are stored at K or at
      X + K, and fails exactly when the bytes are not all there. */
  lemma LoadMeaning(width: Width, indirect: bool, x: u32, a: u32, k: u32, input: Input, w: nat)
    requires w < width.Limit()
    ensures var off := if indirect then (x + k) % TWO_TO_32 else k;
            var r := Start(Program(x, a, Instruction(LoadCode(width, indirect), 0, 0, k), [RETURN_A]), input).outcome;
            && (Stored(input, off, width.Bytes(), w) ==> r == Returned(w))
            && (off + width.Bytes() > |input.bytes| <==> r == Failed(InvalidLoad, 2))
  {
    var i := Instruction(LoadCode(width, indirect), 0, 0, k);
    var off := if indirect then (x + k) % TWO_TO_32 else k;
    var m := Loaded(x, a);
    hide Start;
    if off + width.Bytes() > |input.bytes| {
      assert Step(i, m, input) == Fail(InvalidLoad);
      Executes(x, a, i, [RETURN_A], input);
    } else {
      var v := match width
        case Four => Load32(input, off)
        case Two => Load16(input, off)
        case One => Load8(input, off);
      assert v.Some? && Step(i, m, input) == Continue(m.(a := v.value), 0);
      ReturnsAfter(x, a, i, input, m.(a := v.value));
      if Stored(input, off, width.Bytes(), w) {
        StoredIsLoaded(width, input, off, w);
      }
    }
    hide Step;
  }

  // ---------------------------------------------------------------------
  // Registers and scratch memory
  // ---------------------------------------------------------------------

  /** Copies X to A, so that RETURN_A shows X. */
  const SHOW_X := Instruction(0x07, 0, 0, 0)

  lemma ShowsX(p: seq<Instruction>, input: Input, pc: nat, m: Machine)
    requires pc + 1 < |p| && p[pc] == SHOW_X && p[pc + 1] == RETURN_A
    ensures Run(p, input, pc, m).outcome == Returned(m.x)
  {
    RunStep(p, input, pc, m, m.(a := m.x), 0);
    hide Run;
    ReturnsA(p, input, pc + 1, m.(a := m.x));
  }

  lemma ShowsXAfter(x: u32, a: u32, i: Instruction, input: Input, m': Machine)
    requires Step(i, Loaded(x, a), input) == Continue(m', 0)
    ensures Start(Program(x, a, i, [SHOW_X, RETURN_A]), input).outcome == Returned(m'.x)
  {
    hide Step;
    hide Start;
    Executes(x, a, i, [SHOW_X, RETURN_A], input);
    ShowsX(Program(x, a, i, [SHOW_X, RETURN_A]), input, 3, m');
    hide Run;
  }

  /** The two moves, and the two loads of the input's length. */
  lemma MovesMeaning(x: u32, a: u32, k: u32, input: Input)
    ensures Start(Program(x, a, Instruction(0x07, 0, 0, k), [RETURN_A]), input).outcome == Returned(x)
    ensures Start(Program(x, a, Instruction(0x87, 0, 0, k), [SHOW_X, RETURN_A]), input).outcome == Returned(a)
    ensures Start(Program(x, a, Instruction(0x80, 0, 0, k), [RETURN_A]), input).outcome
            == Returned(|input.bytes| % TWO_TO_32)
    ensures Start(Program(x, a, Instruction(0x81, 0, 0, k), [SHOW_X, RETURN_A]), input).outcome
            == Returned(|input.bytes| % TWO_TO_32)
  {
    hide Start;
    var m := Loaded(x, a);
    var n := |input.bytes| % TWO_TO_32;
    ReturnsAfter(x, a, Instruction(0x07, 0, 0, k), input, m.(a := x));
    ShowsXAfter(x, a, Instruction(0x87, 0, 0, k), input, m.(x := a));
    ReturnsAfter(x, a, Instruction(0x80, 0, 0, k), input, m.(a := n));
    ShowsXAfter(x, a, Instruction(0x81, 0, 0, k), input, m.(x := n));
  }

  /** Four times the low nibble of the byte at K goes to X. */
  lemma HeaderLengthMeaning(x: u32, a: u32, k: u32, input: Input)
    ensures Start(Program(x, a, Instruction(0xb1, 0, 0, k), [SHOW_X, RETURN_A]), input).outcome
            == if k < |input.bytes| then Returned(4 * (input.bytes[k] % 0x10)) else Failed(InvalidLoad, 2)
  {
    hide Start;
    var i := Instruction(0xb1, 0, 0, k);
    if k < |input.bytes| {
      ShowsXAfter(x, a, i, input, Loaded(x, a).(x := 4 * (input.bytes[k] % 0x10)));
    } else {
      Executes(x, a, i, [SHOW_X, RETURN_A], input);
    }
  }

  /** Store A or X in register k, overwrite A and X with c, load register k'. */
  function MemoryProgram(x: u32, a: u32, storeX: bool, loadX: bool, k: u32, k': u32, c: u32): seq<Instruction> {
    Program(x, a, Instruction(if storeX then 0x03 else 0x02, 0, 0, k),
            Setup(c, c) + [Instruction(if loadX then 0x61 else 0x60, 0, 0, k')]
            + if loadX then [SHOW_X, RETURN_A] else [RETURN_A])
  }

  /** A stored word is found in its register and in no other, and a register that
      does not exist is a crash. */
  lemma MemoryMeaning(x: u32, a: u32, storeX: bool, loadX: bool, k: u32, k': u32, c: u32, input: Input)
    ensures Start(MemoryProgram(x, a, storeX, loadX, k, k', c), input).outcome
            == if k >= 16 || k' >= 16 then Panicked
               else Returned(if k' != k then 0 else if storeX then x else a)
  {
    hide Start;
    var p := MemoryProgram(x, a, storeX, loadX, k, k', c);
    var i := Instruction(if storeX then 0x03 else 0x02, 0, 0, k);
    var m := Loaded(x, a);
    Executes(x, a, i, p[3..], input);
    assert Program(x, a, i, p[3..]) == p;
    if k < 16 {
      var m1: Machine := m.(mem := m.mem[k := if storeX then x else a]);
      assert Step(i, m, input) == Continue(m1, 0);
      LoadsAfterStore(p, input, m1, loadX, k', c);
    }
  }

  lemma LoadsAfterStore(p: seq<Instruction>, input: Input, m: Machine, loadX: bool, k': u32, c: u32)
    requires |p| >= 7 && p[3..5] == Setup(c, c) && p[5] == Instruction(if loadX then 0x61 else 0x60, 0, 0, k')
    requires if loadX then |p| == 8 && p[6] == SHOW_X && p[7] == RETURN_A else p[6] == RETURN_A
    ensures Run(p, input, 3, m).outcome == if k' < 16 then Returned(m.mem[k']) else Panicked
  {
    assert p[3] == p[3..5][0] && p[4] == p[3..5][1];
    RunStep(p, input, 3, m, m.(x := c), 0);
    RunStep(p, input, 4, m.(x := c), m.(x := c, a := c), 0);
    var m1: Machine := m.(x := c, a := c);
    if k' < 16 {
      var m2: Machine := if loadX then m1.(x := m.mem[k']) else m1.(a := m.mem[k']);
      RunStep(p, input, 5, m1, m2, 0);
      hide Step;
      hide Run;
      if loadX {
        ShowsX(p, input, 6, m2);
      } else {
        ReturnsA(p, input, 6, m2);
      }
    }
  }
}
