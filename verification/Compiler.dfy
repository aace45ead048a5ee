/** The whole way from a function body to its result: assembly, emission, patching and run. */
module Compiler {
  import opened Words
  import opened Syntax
  import opened Machine
  import opened StackIr
  import opened Emitter
  import opened Fragments
  import opened EmitExpr
  import opened ExprCorrect
  import opened EmitStmt
  import opened StmtCorrect
  import opened Backend

  predicate EndsInReturn(ss: seq<Stmt>) {
    ss != [] && ss[|ss| - 1].Return?
  }

  /** A body, followed by a return of zero unless it ends in a return. */
  function FunctionCells(fr: Frame, ss: seq<Stmt>): Fragment {
    AllCode(fr, ss) + (if EndsInReturn(ss) then [] else StmtCode(fr, Return(None)))
  }

  function FunctionCode(fr: Frame, ss: seq<Stmt>): seq<Instr> {
    var cells := FunctionCells(fr, ss);
    Raw(Bind(cells, Exit, |cells|)) + [Epilogue]
  }

  /** All returns are patched to the epilogue. */
  lemma PatchExits(f: Fragment, here: int)
    requires here == |f|
    ensures PatchAll(Raw(f), Pending(f, Exit, 0), here) == Raw(Bind(f, Exit, |f|))
  {
    SameSelf(Pending(f, Exit, 0));
    PatchOpen([], f, Pending(f, Exit, 0), Exit, |f|);
    assert [] + Raw(f) == Raw(f);
    assert [] + Raw(Bind(f, Exit, |f|)) == Raw(Bind(f, Exit, |f|));
  }

  lemma AfterStart(fr: Frame, f: Fragment, st: Em)
    requires AfterStmt(Initial(fr.size), f, st)
    ensures st == Initial(fr.size).(code := Raw(f), exits := Pending(f, Exit, 0))
  {
    assert [] + Raw(f) == Raw(f);
    assert [] + Pending(f, Exit, 0) == Pending(f, Exit, 0);
  }

  /** Emission of an assembled function succeeds, and leaves nothing on any of its stacks. */
  lemma EmitFunction(fr: Frame, ss: seq<Stmt>)
    requires AllBalanced(ss, false)
    ensures EmitAll(Initial(fr.size), AssembleFunction(ss, fr.vars))
      == Some(Initial(fr.size).(code := FunctionCode(fr, ss)))
  {
    hide AllCode, StmtCode, AssembleAll, AllBalanced, Pending, Raw, Bind, PatchAll, EmitAll;
    var st := Initial(fr.size);
    var body, f := AllCode(fr, ss), FunctionCells(fr, ss);
    var irs := AssembleAll(ss, fr.vars);
    var st1 := EmitAllStmts(fr, ss, false, st);
    if EndsInReturn(ss) {
      NoMore(irs);
      NoMore(body);
    } else {
      StayCanon(st, body, st1, fr);
      var st2 := EmitReturn(fr, None, st1);
      ReturnZero(fr);
      ThenAll(st, irs, st1, [PushI(0), Ret], st2);
      AfterJoin(st, body, st1, StmtCode(fr, Return(None)), st2);
      irs := irs + [PushI(0), Ret];
      st1 := st2;
    }
    AfterStart(fr, f, st1);
    Then1(st, irs, st1, FuncEnd);
    PatchExits(f, Here(st1));
    FunctionIr(ss, fr.vars, irs);
  }

  lemma ReturnZero(fr: Frame)
    ensures AssembleStmt(Return(None), fr.vars) + Popped(Return(None)) == [PushI(0), Ret]
  {
  }

  lemma FunctionIr(ss: seq<Stmt>, vars: Offsets, irs: seq<Ir>)
    requires irs == AssembleAll(ss, vars) + if EndsInReturn(ss) then [] else [PushI(0), Ret]
    ensures irs + [FuncEnd] == AssembleFunction(ss, vars)
  {
  }

  // ----- what the source cannot do -----

  /** A balanced body never breaks out of nowhere. */
  lemma {:induction false} NeverBroke(s: Stmt, env: Env, fuel: nat)
    requires Balanced(s, false)
    ensures !Execute(s, env, fuel).Broke?
    decreases fuel, s
  {
    match s
    case List(ss) => NeverBrokeAll(ss, env, fuel);
    case Scope(ss) => NeverBrokeAll(ss, env, fuel);
    case Branch(c, t, f) =>
      NeverBroke(t, env, fuel);
      if f.Some? {
        NeverBroke(f.value, env, fuel);
      }
    case Loop(c, b) =>
      LoopNeverBroke(c, b, env, fuel);
    case _ =>
  }

  lemma {:induction false} LoopNeverBroke(c: Option<Expr>, b: Stmt, env: Env, fuel: nat)
    ensures !Execute(Loop(c, b), env, fuel).Broke?
    decreases fuel
  {
    if fuel > 0 {
      var o := Leave(Execute(b, env, fuel - 1), Declared(b));
      if o.Normal? {
        LoopNeverBroke(c, b, o.env, fuel - 1);
      }
    }
  }

  lemma {:induction false} NeverBrokeAll(ss: seq<Stmt>, env: Env, fuel: nat)
    requires AllBalanced(ss, false)
    ensures !ExecuteAll(ss, env, fuel).Broke?
    decreases fuel, ss
  {
    if ss == [] {
    } else {
      NeverBroke(ss[0], env, fuel);
      var o := Execute(ss[0], env, fuel);
      if o.Normal? {
        NeverBrokeAll(ss[1..], o.env, fuel);
      }
    }
  }

  lemma {:induction false} ReturnsAtEnd(ss: seq<Stmt>, env: Env, fuel: nat)
    requires EndsInReturn(ss)
    ensures !ExecuteAll(ss, env, fuel).Normal?
    decreases |ss|
  {
    var o := Execute(ss[0], env, fuel);
    if |ss| > 1 && o.Normal? {
      assert ss[1..][|ss| - 2] == ss[|ss| - 1];
      ReturnsAtEnd(ss[1..], o.env, fuel);
    }
  }

  // ----- correctness -----

  /** What is asked of a function: scopes keep variables apart, and its expressions are safe. */
  predicate Compilable(fr: Frame, ss: seq<Stmt>, params: set<string>) {
    var names := params + LevelAll(ss);
    FrameOk(fr) && AllBalanced(ss, false) && AllSafe(fr, ss) && Distinct(fr, names) && AllScoped(fr, ss, names)
  }

  /** The machine's end for each end of the source. */
  ghost predicate Matches(o: Outcome, code: seq<Instr>, m: State, n: nat, fuel: nat) {
    match o
    case Normal(_) => m.Exited? && m.rax == 0
    case Returned(w) => m.Exited? && m.rax == w
    case Faulted => m == Faulting
    case Unspecified => true
    case OutOfFuel => m.Running? && 0 <= m.pc < |code| && n >= fuel
    case Broke(_) => false
  }

  /** The code that the compiler emits, run from its start, ends as the source does. */
  lemma FunctionCorrect(fr: Frame, ss: seq<Stmt>, params: set<string>, env: Env, s: Store, fuel: nat)
    returns (n: nat)
    requires Compilable(fr, ss, params) && env.Keys <= params && Agrees(fr, env, s)
    ensures var code := FunctionCode(fr, ss);
      Matches(ExecuteAll(ss, env, fuel), code, Steps(code, n, Running(0, s)), n, fuel)
  {
    var body, cells, code := AllCode(fr, ss), FunctionCells(fr, ss), FunctionCode(fr, ss);
    var names, exit, m := params + LevelAll(ss), |cells|, Running(0, s);
    var o := ExecuteAll(ss, env, fuel);
    NeverBrokeAll(ss, env, fuel);
    if EndsInReturn(ss) {
      ReturnsAtEnd(ss, env, fuel);
    }
    hide AllCode, StmtCode, ExecuteAll, Execute, AllBalanced, AllScoped, AllSafe, Distinct, FrameOk, Agrees, Bind, Raw,
      Steps, Follows;
    PlaceFunction(fr, ss, code);
    StmtSplit(code, 0, body, if EndsInReturn(ss) then [] else StmtCode(fr, Return(None)), -1, exit);
    n := RunAll(fr, names, ss, code, 0, -1, exit, m, env, fuel);
    n := ToEnd(fr, names, ss, code, n, m, |body|, exit, o, fuel);
  }

  lemma PlaceFunction(fr: Frame, ss: seq<Stmt>, code: seq<Instr>)
    requires code == FunctionCode(fr, ss) && AllBalanced(ss, false)
    ensures var cells := FunctionCells(fr, ss);
      PlacedStmt(code, 0, cells, -1, |cells|) && Placed(code, |cells|, [Epilogue])
  {
    var cells := FunctionCells(fr, ss);
    var c := Raw(Bind(cells, Exit, |cells|));
    assert code[0..|code|] == code;
    PlacedSplit(code, 0, c, [Epilogue]);
    NoFunctionBreaks(fr, ss);
    BindNothing(cells, -1);
  }

  lemma NoFunctionBreaks(fr: Frame, ss: seq<Stmt>)
    requires AllBalanced(ss, false)
    ensures Pending(FunctionCells(fr, ss), Brk, 0) == []
  {
    hide AllCode, Pending, StmtCode, AllBalanced;
    NoBreaksAll(fr, ss, 0);
    if EndsInReturn(ss) {
      NoMore(AllCode(fr, ss));
    } else {
      ReturnBalanced();
      NoBreaks(fr, Return(None), |AllCode(fr, ss)|);
      PendingAppend(AllCode(fr, ss), StmtCode(fr, Return(None)), Brk, 0);
    }
  }

  lemma ReturnBalanced()
    ensures Balanced(Return(None), false)
  {
  }

  /** Without pending breaks there is nothing to bind. */
  lemma BindNothing(f: Fragment, t: int)
    requires Pending(f, Brk, 0) == []
    ensures Bind(f, Brk, t - 0) == f
  {
    forall i | 0 <= i < |f|
      ensures BindCell(f[i], i, Brk, t) == f[i]
    {
      PendingIn(f, Brk, 0, i + 1);
    }
  }

  /** From the end of the body, or from a return, through the epilogue. */
  lemma ToEnd(fr: Frame, names: set<string>, ss: seq<Stmt>, code: seq<Instr>, n: nat, m: State, end: int, exit: int,
              o: Outcome, fuel: nat) returns (k: nat)
    requires Follows(fr, names, code, n, m, end, -1, exit, o, fuel) && !o.Broke?
    requires Placed(code, exit, [Epilogue])
    requires o.Normal? ==> !EndsInReturn(ss)
    requires !EndsInReturn(ss) ==> PlacedStmt(code, end, StmtCode(fr, Return(None)), -1, exit)
    ensures Matches(o, code, Steps(code, k, m), k, fuel)
  {
    k := n;
    if o.Normal? {
      var m1 := Steps(code, n, m);
      ToReturn(fr, code, n, m, end, exit);
      ThenOne(code, n + 2, m, Epilogue);
      k := n + 3;
    } else if o.Returned? {
      ThenOne(code, n, m, Epilogue);
      k := n + 1;
    }
  }

  lemma ToReturn(fr: Frame, code: seq<Instr>, n: nat, m: State, p: int, exit: int)
    requires Steps(code, n, m).Running? && Steps(code, n, m).pc == p
    requires PlacedStmt(code, p, StmtCode(fr, Return(None)), -1, exit)
    ensures var m2 := Steps(code, n + 2, m); m2.Running? && m2.pc == exit && Get(m2.s, R(RAX)) == 0
  {
    var i := Mov(R(RAX), Imm(0));
    StmtSplit(code, p, Lift([i]), [J(Always, Exit)], -1, exit);
    StmtLift(code, p, [i], -1, exit);
    StmtJump(code, p + 1, Always, Exit, -1, exit);
    ThenReturn(code, n, m, p, Imm(0), exit);
  }

  /** Once outside the code, or stopped, a machine stays so. */
  lemma NeverBack(code: seq<Instr>, n: nat, m: State)
    ensures var m' := Steps(code, n, m);
      m'.Running? && 0 <= m'.pc < |code| ==> m.Running? && 0 <= m.pc < |code|
  {
    if !m.Running? {
      StepsStay(code, n, m);
    } else if n > 0 && !(0 <= m.pc < |code|) {
      StepsStay(code, n - 1, Stuck);
    }
  }

  /** A machine that is still inside the code after n steps was there all along. */
  lemma StillRunning(code: seq<Instr>, k: nat, n: nat, m: State)
    requires var m' := Steps(code, n, m); k <= n && m'.Running? && 0 <= m'.pc < |code|
    ensures var m' := Steps(code, k, m); m'.Running? && 0 <= m'.pc < |code|
  {
    StepsAdd(code, k, n - k, m);
    NeverBack(code, n - k, Steps(code, k, m));
  }

  /** A source that runs for ever is compiled to code that does. */
  lemma FunctionDiverges(fr: Frame, ss: seq<Stmt>, params: set<string>, env: Env, s: Store, n: nat)
    requires Compilable(fr, ss, params) && env.Keys <= params && Agrees(fr, env, s)
    requires forall fuel: nat :: ExecuteAll(ss, env, fuel).OutOfFuel?
    ensures var code := FunctionCode(fr, ss);
      var m := Steps(code, n, Running(0, s));
      m.Running? && 0 <= m.pc < |code|
  {
    var code := FunctionCode(fr, ss);
    assert ExecuteAll(ss, env, n).OutOfFuel?;
    var k := FunctionCorrect(fr, ss, params, env, s, n);
    StillRunning(code, n, k, Running(0, s));
  }

  /** The compiler: assembles a body into IR, then emits the IR. */
  method CompileFunction(fr: Frame, ss: seq<Stmt>) returns (code: seq<Instr>)
    requires AllBalanced(ss, false)
    ensures code == FunctionCode(fr, ss)
  {
    EmitFunction(fr, ss);
    var assembler := new Assembler(fr.vars);
    assembler.AppendFunction(ss);
    assert assembler.ir == [] + AssembleFunction(ss, fr.vars) == AssembleFunction(ss, fr.vars);
    var writer := new Writer(fr.size);
    writer.EmitProgram(assembler.ir);
    code := writer.code;
  }
}
