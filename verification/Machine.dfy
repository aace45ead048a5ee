/** The register machine that the back end emits for: abstract x86-64 mnemonics over
    full-width registers and rbp-relative memory words, one code cell per instruction. */
module Machine {
  import opened Words
  import opened Syntax

  datatype Register = RAX | RCX | RDX | RBX | R12 | R13 | R14 | R15 | R10 | R11

  /** A register, or the word at a displacement from rbp. */
  datatype Loc = R(reg: Register) | M(disp: int)

  datatype Operand = Imm(v: Word) | At(loc: Loc)

  datatype Jump = Always | IfZero | IfNotZero

  datatype Instr =
    | Mov(dst: Loc, src: Operand)
    | Alu(op: BinOp, dst: Loc, src: Operand)
    | Cmp(a: Operand, b: Operand)
    | Set(cond: BinOp, dst: Loc)
    | Neg(dst: Loc)
    | Not(arg: Operand)
    | SignExtend
    | MulWide(src: Operand)
    | DivWide(src: Operand)
    | Go(jump: Jump, rel: int)
    | Epilogue

  /** flagA and flagB are the operands of the last comparison. */
  datatype Store = Store(locs: map<Loc, Word>, flagA: Word, flagB: Word)

  /** A machine that leaves the code is stuck. */
  datatype State = Running(pc: int, s: Store) | Faulting | Exited(rax: Word, s: Store) | Stuck

  function Get(s: Store, l: Loc): Word {
    if l in s.locs then s.locs[l] else 0
  }

  function Put(s: Store, l: Loc, w: Word): Store {
    s.(locs := s.locs[l := w])
  }

  function Read(s: Store, o: Operand): Word {
    match o
    case Imm(v) => v
    case At(l) => Get(s, l)
  }

  /** Legalisation: a two-operand instruction with an immediate or with two memory operands
      first loads its source operand into rax. */
  function ThroughRax(s: Store, dst: Loc, src: Operand): Store {
    if src.Imm? || (src.loc.M? && dst.M?) then Put(s, R(RAX), Read(s, src)) else s
  }

  function Holds(cond: BinOp, a: Word, b: Word): bool {
    match cond
    case Ne => a != b
    case Lt => a < b
    case Le => a <= b
    case Gt => a > b
    case Ge => a >= b
    case _ => a == b
  }

  function Dividend(hi: Word, lo: Word): int {
    hi * FULL + Unsigned(lo)
  }

  /** The effect of a non-jump instruction; None is the divide error. */
  function Effect(i: Instr, s: Store): Option<Store> {
    match i
    case Mov(d, o) => Some(Put(ThroughRax(s, d, o), d, Read(s, o)))
    case Alu(op, d, o) =>
      if Faults(op, Get(s, d), Read(s, o)) then None
      else Some(Put(ThroughRax(s, d, o), d, Compute(op, Get(s, d), Read(s, o))))
    case Cmp(a, b) =>
      var s' := if a.At? then ThroughRax(s, a.loc, b) else Put(s, R(RCX), a.v);
      Some(s'.(flagA := Read(s, a), flagB := Read(s, b)))
    case Set(c, d) => Some(Put(s, d, Truth(Holds(c, s.flagA, s.flagB))))
    case Neg(d) => Some(Put(s, d, Negate(Get(s, d))))
    case Not(o) =>
      var d := if o.At? then o.loc else R(RAX);
      Some(Put(s, d, Complement(Read(s, o))))
    case SignExtend => Some(Put(s, R(RDX), if Get(s, R(RAX)) < 0 then -1 else 0))
    case MulWide(o) =>
      var p := Get(s, R(RAX)) * Read(s, o);
      var s' := if o.Imm? then Put(s, R(RCX), o.v) else s;
      Some(Put(Put(s', R(RAX), Wrap(p)), R(RDX), Wrap((p - Unsigned(Wrap(p))) / FULL)))
    case DivWide(o) =>
      var n := Dividend(Get(s, R(RDX)), Get(s, R(RAX)));
      var d := Read(s, o);
      var s' := if o.Imm? then Put(s, R(RCX), o.v) else s;
      if d == 0 || !InWord(TruncDiv(n, d)) then None
      else Some(Put(Put(s', R(RAX), TruncDiv(n, d)), R(RDX), Wrap(n - d * TruncDiv(n, d))))
    case Go(_, _) => Some(s)
    case Epilogue => Some(s)
  }

  predicate Taken(j: Jump, s: Store) {
    match j
    case Always => true
    case IfZero => s.flagA == s.flagB
    case IfNotZero => s.flagA != s.flagB
  }

  function Step(code: seq<Instr>, m: State): State {
    if !m.Running? then m
    else if !(0 <= m.pc < |code|) then Stuck
    else
      var i := code[m.pc];
      match i
      case Go(j, rel) => Running(m.pc + 1 + (if Taken(j, m.s) then rel else 0), m.s)
      case Epilogue => Exited(Get(m.s, R(RAX)), m.s)
      case _ =>
        var e := Effect(i, m.s);
        if e.Some? then Running(m.pc + 1, e.value) else Faulting
  }

  function Steps(code: seq<Instr>, n: nat, m: State): State {
    if n == 0 then m else Steps(code, n - 1, Step(code, m))
  }

  lemma {:induction false} StepsAdd(code: seq<Instr>, n: nat, k: nat, m: State)
    ensures Steps(code, n + k, m) == Steps(code, k, Steps(code, n, m))
  {
    if n == 0 {
    } else {
      StepsAdd(code, n - 1, k, Step(code, m));
    }
  }

  lemma {:induction false} StepsStay(code: seq<Instr>, n: nat, m: State)
    requires !m.Running?
    ensures Steps(code, n, m) == m
  {
    if n == 0 {
    } else {
      StepsStay(code, n - 1, m);
    }
  }

  // ----- straight-line code -----

  predicate Straight(c: seq<Instr>) {
    forall i | 0 <= i < |c| :: !c[i].Go? && !c[i].Epilogue?
  }

  function Effects(c: seq<Instr>, s: Store): Option<Store> {
    if c == [] then Some(s)
    else
      var e := Effect(c[0], s);
      if e.Some? then Effects(c[1..], e.value) else None
  }

  /** The code holds the cells c from position p on. */
  predicate Placed(code: seq<Instr>, p: int, c: seq<Instr>) {
    0 <= p && p + |c| <= |code| && code[p..p + |c|] == c
  }

  lemma PlacedSplit(code: seq<Instr>, p: int, c: seq<Instr>, d: seq<Instr>)
    requires Placed(code, p, c + d)
    ensures Placed(code, p, c) && Placed(code, p + |c|, d)
  {
    assert code[p..p + |c|] == (c + d)[..|c|] == c;
    assert code[p + |c|..p + |c| + |d|] == (c + d)[|c|..] == d;
  }

  lemma {:induction false} RunStraight(code: seq<Instr>, p: int, c: seq<Instr>, m: State)
    requires Placed(code, p, c) && Straight(c) && m.Running? && m.pc == p
    ensures Steps(code, |c|, m) ==
      match Effects(c, m.s) { case Some(s) => Running(p + |c|, s) case None => Faulting }
    decreases |c|
  {
    if c == [] {
    } else {
      assert code[p] == code[p..p + |c|][0] == c[0];
      var m' := Step(code, m);
      assert c == [c[0]] + c[1..];
      PlacedSplit(code, p, [c[0]], c[1..]);
      if m'.Running? {
        RunStraight(code, p + 1, c[1..], m');
      } else {
        StepsStay(code, |c| - 1, m');
      }
    }
  }
}
