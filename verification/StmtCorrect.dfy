/** Compiled statements and functions follow the big-step meaning of their source. */
module StmtCorrect {
  import opened Words
  import opened Syntax
  import opened Machine
  import opened StackIr
  import opened Emitter
  import opened Fragments
  import opened EmitExpr
  import opened ExprEffects
  import opened ExprCorrect
  import opened EmitStmt

  // ----- scoping -----

  /** The names a statement declares in the scope it stands in. */
  function Level(s: Stmt): set<string> {
    match s
    case Declare(x) => {x}
    case List(ss) => LevelAll(ss)
    case _ => {}
  }

  function LevelAll(ss: seq<Stmt>): set<string> {
    if ss == [] then {} else Level(ss[0]) + LevelAll(ss[1..])
  }

  /** Variables that are in scope together have places of their own. */
  predicate Distinct(fr: Frame, names: set<string>) {
    && (forall x | x in names :: x in fr.vars)
    && (forall x, y | x in names && y in names && x != y :: fr.vars[x] != fr.vars[y])
  }

  /** Assigned variables are in scope, and every scope's variables are apart from each other and
      from those of the enclosing scopes. Sibling scopes may overlap. */
  predicate Scoped(fr: Frame, s: Stmt, names: set<string>)
    decreases s, 0
  {
    match s
    case Assign(x, _) => x in names
    case OpAssign(_, x, _) => x in names
    case List(ss) => AllScoped(fr, ss, names)
    case Scope(ss) =>
      var inner := names + LevelAll(ss);
      Distinct(fr, inner) && AllScoped(fr, ss, inner)
    case Branch(_, t, f) => ScopedBody(fr, t, names) && (f.Some? ==> ScopedBody(fr, f.value, names))
    case Loop(_, b) => ScopedBody(fr, b, names)
    case _ => true
  }

  /** The body of a branch or loop is a scope of its own. */
  predicate ScopedBody(fr: Frame, s: Stmt, names: set<string>)
    decreases s, 1
  {
    Distinct(fr, names + Level(s)) && Scoped(fr, s, names + Level(s))
  }

  predicate AllScoped(fr: Frame, ss: seq<Stmt>, names: set<string>)
    decreases ss, 0
  {
    ss == [] || (Scoped(fr, ss[0], names) && AllScoped(fr, ss[1..], names))
  }

  /** Every expression of a statement is one whose code is known to be right. */
  predicate SafeStmt(fr: Frame, s: Stmt) {
    match s
    case Eval(e) => Safe(fr, e, 0)
    case Assign(_, e) => Safe(fr, e, 0)
    case OpAssign(op, _, e) => (Simple(op) || Wide(op)) && Safe(fr, e, 0)
    case List(ss) => AllSafe(fr, ss)
    case Scope(ss) => AllSafe(fr, ss)
    case Branch(c, t, f) => Safe(fr, c, 0) && SafeStmt(fr, t) && (f.Some? ==> SafeStmt(fr, f.value))
    case Loop(c, b) => (c.Some? ==> Safe(fr, c.value, 0)) && SafeStmt(fr, b)
    case Return(v) => v.Some? ==> Safe(fr, v.value, 0)
    case _ => true
  }

  predicate AllSafe(fr: Frame, ss: seq<Stmt>) {
    ss == [] || (SafeStmt(fr, ss[0]) && AllSafe(fr, ss[1..]))
  }

  lemma {:induction false} LevelDeclared(s: Stmt)
    ensures Level(s) <= Declared(s)
    decreases s
  {
    if s.List? {
      LevelAllDeclared(s.body);
    }
  }

  lemma {:induction false} LevelAllDeclared(ss: seq<Stmt>)
    ensures LevelAll(ss) <= DeclaredIn(ss)
    decreases ss
  {
    if ss == [] {
    } else {
      LevelDeclared(ss[0]);
      LevelAllDeclared(ss[1..]);
    }
  }

  // ----- placement -----

  /** A fragment whose breaks and returns are bound to brk and exit. */
  predicate PlacedStmt(code: seq<Instr>, p: int, f: Fragment, brk: int, exit: int) {
    Placed(code, p, Raw(Bind(Bind(f, Brk, brk - p), Exit, exit - p)))
  }

  lemma StmtSplit(code: seq<Instr>, p: int, f: Fragment, g: Fragment, brk: int, exit: int)
    requires PlacedStmt(code, p, f + g, brk, exit)
    ensures PlacedStmt(code, p, f, brk, exit) && PlacedStmt(code, p + |f|, g, brk, exit)
  {
    BindAppend(f, g, Brk, brk - p);
    var f1, g1 := Bind(f, Brk, brk - p), Bind(g, Brk, brk - p - |f|);
    BindAppend(f1, g1, Exit, exit - p);
    var f2, g2 := Bind(f1, Exit, exit - p), Bind(g1, Exit, exit - p - |f|);
    RawAppend(f2, g2);
    PlacedSplit(code, p, Raw(f2), Raw(g2));
    assert brk - p - |f| == brk - (p + |f|) && exit - p - |f| == exit - (p + |f|);
  }

  lemma StmtLift(code: seq<Instr>, p: int, c: seq<Instr>, brk: int, exit: int)
    requires PlacedStmt(code, p, Lift(c), brk, exit)
    ensures Placed(code, p, c)
  {
    BindLift(c, Brk, brk - p);
    BindLift(c, Exit, exit - p);
    RawLift(c);
  }

  lemma StmtJump(code: seq<Instr>, p: int, j: Jump, lab: Label, brk: int, exit: int)
    requires PlacedStmt(code, p, [J(j, lab)], brk, exit) && lab != Sc
    ensures Placed(code, p, [Go(j, (if lab == Brk then brk else exit) - p - 1)])
  {
    var f := [J(j, lab)];
    var g := Raw(Bind(Bind(f, Brk, brk - p), Exit, exit - p));
    assert g == [Go(j, (if lab == Brk then brk else exit) - p - 1)];
  }

  // ----- runs -----

  ghost predicate At(fr: Frame, names: set<string>, m: State, pc: int, env: Env) {
    m.Running? && m.pc == pc && Agrees(fr, env, m.s) && env.Keys <= names
  }

  /** Where n steps lead, for each outcome of the source. An unfinished source run of a given
      fuel is matched by at least that many machine steps that do not leave the code. */
  ghost predicate Follows(fr: Frame, names: set<string>, code: seq<Instr>, n: nat, m: State, end: int, brk: int,
                          exit: int, o: Outcome, fuel: nat) {
    var m' := Steps(code, n, m);
    match o
    case Normal(env) => At(fr, names, m', end, env)
    case Broke(env) => At(fr, names, m', brk, env)
    case Returned(w) => m'.Running? && m'.pc == exit && Get(m'.s, R(RAX)) == w
    case Faulted => m' == Faulting
    case Unspecified => true
    case OutOfFuel => m'.Running? && 0 <= m'.pc < |code| && n >= fuel
  }

  lemma ThenFollows(fr: Frame, names: set<string>, code: seq<Instr>, n: nat, k: nat, m: State, end: int, brk: int,
                    exit: int, o: Outcome, fuel: nat)
    requires Follows(fr, names, code, k, Steps(code, n, m), end, brk, exit, o, fuel)
    ensures Follows(fr, names, code, n + k, m, end, brk, exit, o, fuel)
  {
    StepsAdd(code, n, k, m);
  }

  /** Leaving a scope forgets its variables. */
  lemma LeaveFollows(fr: Frame, inner: set<string>, names: set<string>, code: seq<Instr>, n: nat, m: State, end: int,
                     brk: int, exit: int, o: Outcome, fuel: nat, gone: set<string>)
    requires Follows(fr, inner, code, n, m, end, brk, exit, o, fuel) && inner <= names + gone
    ensures Follows(fr, names, code, n, m, end, brk, exit, Leave(o, gone), fuel)
  {
  }

  /** One instruction. */
  lemma ThenOne(code: seq<Instr>, n: nat, m: State, i: Instr)
    requires Steps(code, n, m).Running? && Placed(code, Steps(code, n, m).pc, [i])
    ensures Steps(code, n + 1, m) == Step(code, Steps(code, n, m))
    ensures 0 <= Steps(code, n, m).pc < |code| && code[Steps(code, n, m).pc] == i
  {
    var m1 := Steps(code, n, m);
    assert code[m1.pc] == code[m1.pc..m1.pc + 1][0];
    StepsAdd(code, n, 1, m);
    assert Steps(code, 1, m1) == Step(code, m1);
  }

  /** A change of one variable, and of scratch registers, updates the environment. */
  lemma AssignAgrees(fr: Frame, names: set<string>, env: Env, x: string, w: Word, s: Store, s': Store)
    requires Agrees(fr, env, s) && Distinct(fr, names) && env.Keys <= names && x in names
    requires Get(s', M(Local(fr, x))) == w
    requires forall l | !Scratch(l) && l != M(Local(fr, x)) :: Get(s', l) == Get(s, l)
    ensures Agrees(fr, env[x := w], s') && env[x := w].Keys <= names
  {
    forall y | y in env[x := w]
      ensures y in fr.vars && Get(s', M(Local(fr, y))) == env[x := w][y]
    {
      if y != x {
        assert M(Local(fr, y)) != M(Local(fr, x));
      }
    }
  }

  // ----- simple statements -----

  /** The situation in which a compiled statement is run. */
  ghost predicate Starts(fr: Frame, names: set<string>, code: seq<Instr>, p: int, f: Fragment, brk: int, exit: int,
                         m: State, env: Env) {
    PlacedStmt(code, p, f, brk, exit) && FrameOk(fr) && Distinct(fr, names) && At(fr, names, m, p, env)
  }

  lemma RunEval(fr: Frame, names: set<string>, e: Expr, code: seq<Instr>, p: int, brk: int, exit: int, m: State,
                env: Env, fuel: nat) returns (n: nat)
    requires Starts(fr, names, code, p, StmtCode(fr, Eval(e)), brk, exit, m, env) && Safe(fr, e, 0)
    ensures Follows(fr, names, code, n, m, p + |StmtCode(fr, Eval(e))|, brk, exit, Execute(Eval(e), env, fuel), fuel)
  {
    hide Code, ItemOf, Meaning, Safe, Same, Steps, FrameOk, Agrees, Distinct;
    StmtLift(code, p, Code(fr, e, 0), brk, exit);
    n := RunCode(fr, e, 0, code, p, m, env);
    if Meaning(e, env).Value? {
      AgreesSame(fr, env, 0, m.s, Steps(code, n, m).s);
    }
  }

  lemma RunAssign(fr: Frame, names: set<string>, x: string, e: Expr, code: seq<Instr>, p: int, brk: int, exit: int,
                  m: State, env: Env, fuel: nat) returns (n: nat)
    requires Starts(fr, names, code, p, StmtCode(fr, Assign(x, e)), brk, exit, m, env)
    requires Safe(fr, e, 0) && x in names
    ensures Follows(fr, names, code, n, m, p + |StmtCode(fr, Assign(x, e))|, brk, exit,
                    Execute(Assign(x, e), env, fuel), fuel)
  {
    hide Code, ItemOf, Meaning, Safe, Same, Steps, FrameOk, Agrees, Distinct;
    var c, d := Code(fr, e, 0), StoreCode(fr, x, e);
    StmtLift(code, p, c + d, brk, exit);
    PlacedSplit(code, p, c, d);
    n := RunCode(fr, e, 0, code, p, m, env);
    if Meaning(e, env).Value? {
      var w, s1 := Meaning(e, env).w, Steps(code, n, m).s;
      AgreesSame(fr, env, 0, m.s, s1);
      ThenOne(code, n, m, d[0]);
      n := n + 1;
      AssignAgrees(fr, names, env, x, w, s1, Steps(code, n, m).s);
    }
  }

  lemma OpAssignShape(fr: Frame, op: BinOp, x: string, e: Expr, env: Env, fuel: nat)
    ensures StmtCode(fr, OpAssign(op, x, e)) == Lift(Code(fr, e, 0) + StoreArithItems(fr, op, x, ItemOf(fr, e, 0)))
    ensures var a := Meaning(e, env);
      Execute(OpAssign(op, x, e), env, fuel) ==
        if x !in env || a.Undefined? then Unspecified
        else if a.Fault? || Faults(op, env[x], a.w) then Faulted
        else Normal(env[x := Compute(op, env[x], a.w)])
  {
  }

  lemma RunOpAssign(fr: Frame, names: set<string>, op: BinOp, x: string, e: Expr, code: seq<Instr>, p: int, brk: int,
                    exit: int, m: State, env: Env, fuel: nat) returns (n: nat)
    requires Starts(fr, names, code, p, StmtCode(fr, OpAssign(op, x, e)), brk, exit, m, env)
    requires Safe(fr, e, 0) && x in names && (Simple(op) || Wide(op))
    ensures Follows(fr, names, code, n, m, p + |StmtCode(fr, OpAssign(op, x, e))|, brk, exit,
                    Execute(OpAssign(op, x, e), env, fuel), fuel)
  {
    n := 0;
    OpAssignShape(fr, op, x, e, env, fuel);
    hide StmtCode, Execute, Code, ItemOf, Meaning, Actual, Runs, Safe, Same, Steps, FrameOk, Distinct, Agrees,
      StoreArithItems, PlacedStmt, Placed, Stable, Faults, Compute;
    if x in env && !Meaning(e, env).Undefined? {
      var c, item := Code(fr, e, 0), ItemOf(fr, e, 0);
      var d := StoreArithItems(fr, op, x, item);
      StmtLift(code, p, c + d, brk, exit);
      PlacedSplit(code, p, c, d);
      n := RunCode(fr, e, 0, code, p, m, env);
      if Meaning(e, env).Value? {
        AgreesSame(fr, env, 0, m.s, Steps(code, n, m).s);
        SafeActual(fr, e, 0, env);
        ItemStable(fr, e, 0, env, m.s);
        ItemBelow(fr, item);
        n := ThenStore(fr, names, op, x, item, Meaning(e, env).w, code, n, m, p + |c|, env);
      }
    }
  }

  lemma ItemBelow(fr: Frame, item: Item)
    requires Held(fr, 0, item)
    ensures Stable(fr, 1, Op(fr.size, item))
  {
  }

  function StoreArithItems(fr: Frame, op: BinOp, x: string, item: Item): seq<Instr> {
    var place := LValue(Local(fr, x));
    if Wide(op) then WideCode(fr.size, op, place, place, item) else [Alu(op, M(Local(fr, x)), Op(fr.size, item))]
  }

  lemma ThenStore(fr: Frame, names: set<string>, op: BinOp, x: string, item: Item, w: Word, code: seq<Instr>, n: nat,
                  m: State, p: int, env: Env) returns (k: nat)
    requires Placed(code, p, StoreArithItems(fr, op, x, item)) && (Simple(op) || Wide(op))
    requires Distinct(fr, names) && env.Keys <= names && x in env
    requires var m1 := Steps(code, n, m);
      At(fr, names, m1, p, env) && Read(m1.s, Op(fr.size, item)) == w && Stable(fr, 1, Op(fr.size, item))
    ensures var m2 := Steps(code, k, m);
      if Faults(op, env[x], w) then m2 == Faulting
      else At(fr, names, m2, p + |StoreArithItems(fr, op, x, item)|, env[x := Compute(op, env[x], w)])
  {
    var d, place := StoreArithItems(fr, op, x, item), LValue(Local(fr, x));
    var s1 := Steps(code, n, m).s;
    if Wide(op) {
      WideEffects(fr, op, M(Local(fr, x)), place, item, s1, 1);
    } else {
      One(d[0], s1);
    }
    hide Same, Distinct, Steps;
    RunStraight(code, p, d, Steps(code, n, m));
    StepsAdd(code, n, |d|, m);
    k := n + |d|;
    if !Faults(op, env[x], w) {
      AssignAgrees(fr, names, env, x, Compute(op, env[x], w), s1, Effects(d, s1).value);
    }
  }

  /** The value that a return hands over, and where its code leaves it. */
  function Returning(v: Option<Expr>, env: Env): Result {
    if v.Some? then Meaning(v.value, env) else Value(0)
  }

  function ReturnPart(fr: Frame, v: Option<Expr>): seq<Instr> {
    if v.Some? then Code(fr, v.value, 0) else []
  }

  function ReturnOperand(fr: Frame, v: Option<Expr>): Operand {
    if v.Some? then Op(fr.size, ItemOf(fr, v.value, 0)) else Imm(0)
  }

  lemma ReturnShape(fr: Frame, v: Option<Expr>, env: Env, fuel: nat)
    ensures StmtCode(fr, Return(v))
      == Lift(ReturnPart(fr, v) + [Mov(R(RAX), ReturnOperand(fr, v))]) + [J(Always, Exit)]
    ensures var r := Returning(v, env);
      Execute(Return(v), env, fuel) == if r.Value? then Returned(r.w) else Stop(r)
  {
    assert ReturnCode(fr, v) == ReturnPart(fr, v) + [Mov(R(RAX), ReturnOperand(fr, v))];
  }

  /** The value of a return, computed. */
  lemma RunReturning(fr: Frame, v: Option<Expr>, code: seq<Instr>, p: int, m: State, env: Env) returns (n: nat)
    requires Placed(code, p, ReturnPart(fr, v)) && m.Running? && m.pc == p && FrameOk(fr) && Agrees(fr, env, m.s)
    requires v.Some? ==> Safe(fr, v.value, 0)
    ensures var r, m' := Returning(v, env), Steps(code, n, m);
      match r
      case Value(w) => m'.Running? && m'.pc == p + |ReturnPart(fr, v)| && Read(m'.s, ReturnOperand(fr, v)) == w
      case Fault => m' == Faulting
      case Undefined => true
  {
    hide Code, ItemOf, Meaning, Safe, Same, Steps, FrameOk, Agrees;
    n := 0;
    if v.Some? {
      n := RunCode(fr, v.value, 0, code, p, m, env);
    } else {
      NoSteps(code, m);
    }
  }

  lemma RunReturn(fr: Frame, names: set<string>, v: Option<Expr>, code: seq<Instr>, p: int, brk: int, exit: int,
                  m: State, env: Env, fuel: nat) returns (n: nat)
    requires Starts(fr, names, code, p, StmtCode(fr, Return(v)), brk, exit, m, env)
    requires v.Some? ==> Safe(fr, v.value, 0)
    ensures Follows(fr, names, code, n, m, p + |StmtCode(fr, Return(v))|, brk, exit,
                    Execute(Return(v), env, fuel), fuel)
  {
    ReturnShape(fr, v, env, fuel);
    hide StmtCode, Execute, Safe, Steps, FrameOk, Agrees, Distinct, PlacedStmt, Placed, ReturnPart, ReturnOperand,
      Returning;
    var c, o, r := ReturnPart(fr, v), ReturnOperand(fr, v), Returning(v, env);
    StmtSplit(code, p, Lift(c + [Mov(R(RAX), o)]), [J(Always, Exit)], brk, exit);
    StmtLift(code, p, c + [Mov(R(RAX), o)], brk, exit);
    StmtJump(code, p + |c| + 1, Always, Exit, brk, exit);
    PlacedSplit(code, p, c, [Mov(R(RAX), o)]);
    n := RunReturning(fr, v, code, p, m, env);
    if r.Value? {
      ThenReturn(code, n, m, p + |c|, o, exit);
      n := n + 2;
    }
  }

  lemma ThenReturn(code: seq<Instr>, n: nat, m: State, p: int, o: Operand, exit: int)
    requires Steps(code, n, m).Running? && Steps(code, n, m).pc == p
    requires Placed(code, p, [Mov(R(RAX), o)]) && Placed(code, p + 1, [Go(Always, exit - (p + 1) - 1)])
    ensures var m1, m2 := Steps(code, n, m), Steps(code, n + 2, m);
      m2.Running? && m2.pc == exit && Get(m2.s, R(RAX)) == Read(m1.s, o)
  {
    ThenOne(code, n, m, Mov(R(RAX), o));
    ThenOne(code, n + 1, m, Go(Always, exit - (p + 1) - 1));
  }

  lemma NoSteps(code: seq<Instr>, m: State)
    ensures Steps(code, 0, m) == m
  {
  }

  lemma RunBreak(fr: Frame, names: set<string>, code: seq<Instr>, p: int, brk: int, exit: int, m: State, env: Env,
                 fuel: nat) returns (n: nat)
    requires Starts(fr, names, code, p, StmtCode(fr, Break), brk, exit, m, env)
    ensures Follows(fr, names, code, n, m, p + 1, brk, exit, Execute(Break, env, fuel), fuel)
  {
    StmtJump(code, p, Always, Brk, brk, exit);
    NoSteps(code, m);
    ThenOne(code, 0, m, Go(Always, brk - p - 1));
    n := 1;
  }

  // ----- branches -----

  /** The test of a condition, with its conditional jump. */
  lemma RunTest(fr: Frame, names: set<string>, c: Expr, code: seq<Instr>, p: int, m: State, env: Env, rel: int)
    returns (n: nat)
    requires Placed(code, p, BranchHead(fr, c, 0) + [Go(IfZero, rel)]) && Safe(fr, c, 0)
    requires FrameOk(fr) && At(fr, names, m, p, env)
    ensures var r, m', end := Meaning(c, env), Steps(code, n, m), p + |BranchHead(fr, c, 0)| + 1;
      match r
      case Value(w) => n >= 1 && At(fr, names, m', if w == 0 then end + rel else end, env)
      case Fault => m' == Faulting
      case Undefined => true
  {
    hide Code, ItemOf, Meaning, Safe, Same, Steps, FrameOk, Agrees;
    var cc, o := Code(fr, c, 0), Op(fr.size, ItemOf(fr, c, 0));
    assert cc + [Cmp(o, Imm(0))] + [Go(IfZero, rel)] == cc + [Cmp(o, Imm(0)), Go(IfZero, rel)];
    PlacedSplit(code, p, cc, [Cmp(o, Imm(0)), Go(IfZero, rel)]);
    n := RunCode(fr, c, 0, code, p, m, env);
    if Meaning(c, env).Value? {
      ThenTest(fr, 0, code, n, m, p + |cc|, o, Meaning(c, env).w, IfZero, rel);
      n := n + 2;
      AgreesSame(fr, env, 0, m.s, Steps(code, n, m).s);
    }
  }

  lemma ThenGoto(fr: Frame, names: set<string>, code: seq<Instr>, n: nat, m: State, p: int, rel: int, env: Env)
    requires At(fr, names, Steps(code, n, m), p, env) && Placed(code, p, [Go(Always, rel)])
    ensures At(fr, names, Steps(code, n + 1, m), p + 1 + rel, env)
  {
    ThenOne(code, n, m, Go(Always, rel));
  }

  /** The end of the then-part jumps over the else-part; every other outcome is passed on. */
  lemma OverElse(fr: Frame, names: set<string>, code: seq<Instr>, n: nat, m: State, end: int, brk: int, exit: int,
                 o: Outcome, fuel: nat, rel: int) returns (k: nat)
    requires Follows(fr, names, code, n, m, end, brk, exit, o, fuel) && Placed(code, end, [Go(Always, rel)])
    ensures Follows(fr, names, code, k, m, end + 1 + rel, brk, exit, o, fuel)
  {
    k := n;
    if o.Normal? {
      ThenGoto(fr, names, code, n, m, end, rel, o.env);
      k := n + 1;
    }
  }

  /** The parts of a placed if. */
  lemma BranchPlaced(code: seq<Instr>, p: int, head: seq<Instr>, x: Fragment, y: Fragment, brk: int, exit: int)
    requires PlacedStmt(code, p, BranchCells(head, x, y), brk, exit)
    ensures Placed(code, p, head + [Go(IfZero, |x| + 1)])
    ensures PlacedStmt(code, p + |head| + 1, x, brk, exit)
    ensures Placed(code, p + |head| + 1 + |x|, [Go(Always, |y|)])
    ensures PlacedStmt(code, p + |head| + |x| + 2, y, brk, exit)
  {
    var i, j := Go(IfZero, |x| + 1), Go(Always, |y|);
    var hi := Lift(head) + [I(i)];
    assert hi == Lift(head + [i]) && [I(j)] == Lift([j]);
    StmtSplit(code, p, hi + x + [I(j)], y, brk, exit);
    StmtSplit(code, p, hi + x, [I(j)], brk, exit);
    StmtSplit(code, p, hi, x, brk, exit);
    StmtLift(code, p, head + [i], brk, exit);
    StmtLift(code, p + |head| + 1 + |x|, [j], brk, exit);
  }

  /** The parts of a placed loop; its breaks land behind it. */
  lemma LoopPlaced(code: seq<Instr>, p: int, head: seq<Instr>, x: Fragment, brk: int, exit: int)
    requires var cells := LoopCells(head, x); PlacedStmt(code, p, Bind(cells, Brk, |cells|), brk, exit)
    ensures Placed(code, p, head + [Go(IfZero, |x| + 2)])
    ensures PlacedStmt(code, p + |head| + 1, x, p + |head| + |x| + 3, exit)
    ensures Placed(code, p + |head| + 1 + |x|, [Go(Always, -(|head| + |x| + 2))])
  {
    var cells := LoopCells(head, x);
    var end := p + |cells|;
    var i, j, k := Go(IfZero, |x| + 2), Go(Always, -(|head| + |x| + 2)), Go(Always, 0);
    BindTwice(cells, |cells|, brk - p);
    assert PlacedStmt(code, p, cells, end, exit) by {
      assert end - p == |cells|;
    }
    var hi := Lift(head) + [I(i)];
    assert hi == Lift(head + [i]) && [I(j)] == Lift([j]);
    StmtSplit(code, p, hi + x + [I(j)], [I(k)], end, exit);
    StmtSplit(code, p, hi + x, [I(j)], end, exit);
    StmtSplit(code, p, hi, x, end, exit);
    StmtLift(code, p, head + [i], end, exit);
    StmtLift(code, p + |head| + 1 + |x|, [j], end, exit);
  }

  lemma BindTwice(f: Fragment, t: int, u: int)
    ensures Bind(Bind(f, Brk, t), Brk, u) == Bind(f, Brk, t)
  {
  }

  // ----- the main induction -----

  lemma MoreNames(fr: Frame, names: set<string>, inner: set<string>, m: State, pc: int, env: Env)
    requires At(fr, names, m, pc, env) && names <= inner
    ensures At(fr, inner, m, pc, env)
  {
  }

  lemma {:induction false} RunStatement(fr: Frame, names: set<string>, s: Stmt, code: seq<Instr>, p: int, brk: int,
                                        exit: int, m: State, env: Env, fuel: nat) returns (n: nat)
    requires Starts(fr, names, code, p, StmtCode(fr, s), brk, exit, m, env) && Scoped(fr, s, names) && SafeStmt(fr, s)
    ensures Follows(fr, names, code, n, m, p + |StmtCode(fr, s)|, brk, exit, Execute(s, env, fuel), fuel)
    decreases fuel, s, 2
  {
    hide Starts, Follows, StmtCode, Execute;
    match s
    case Eval(e) => n := RunEval(fr, names, e, code, p, brk, exit, m, env, fuel);
    case Assign(x, e) => n := RunAssign(fr, names, x, e, code, p, brk, exit, m, env, fuel);
    case OpAssign(op, x, e) => n := RunOpAssign(fr, names, op, x, e, code, p, brk, exit, m, env, fuel);
    case Declare(x) => RunDeclare(fr, names, x, code, p, brk, exit, m, env, fuel); n := 0;
    case List(ss) =>
      BlockShape(fr, ss, env, fuel);
      n := RunAll(fr, names, ss, code, p, brk, exit, m, env, fuel);
    case Scope(ss) => n := RunScope(fr, names, ss, code, p, brk, exit, m, env, fuel);
    case Branch(c, t, f) => n := RunBranch(fr, names, c, t, f, code, p, brk, exit, m, env, fuel);
    case Loop(c, b) => n := RunLoop(fr, names, c, b, code, p, brk, exit, m, env, fuel);
    case Break => n := RunBreak(fr, names, code, p, brk, exit, m, env, fuel); BreakShape(fr);
    case Return(v) => n := RunReturn(fr, names, v, code, p, brk, exit, m, env, fuel);
  }

  lemma BreakShape(fr: Frame)
    ensures |StmtCode(fr, Break)| == 1
  {
  }

  lemma BlockShape(fr: Frame, ss: seq<Stmt>, env: Env, fuel: nat)
    ensures StmtCode(fr, List(ss)) == StmtCode(fr, Scope(ss)) == AllCode(fr, ss)
    ensures Execute(List(ss), env, fuel) == ExecuteAll(ss, env, fuel)
    ensures Execute(Scope(ss), env, fuel) == Leave(ExecuteAll(ss, env, fuel), DeclaredIn(ss))
  {
  }

  lemma RunDeclare(fr: Frame, names: set<string>, x: string, code: seq<Instr>, p: int, brk: int, exit: int, m: State,
                   env: Env, fuel: nat)
    requires Starts(fr, names, code, p, StmtCode(fr, Declare(x)), brk, exit, m, env)
    ensures Follows(fr, names, code, 0, m, p + |StmtCode(fr, Declare(x))|, brk, exit,
                    Execute(Declare(x), env, fuel), fuel)
  {
    hide Distinct, FrameOk;
    NoSteps(code, m);
  }

  lemma {:induction false} RunAll(fr: Frame, names: set<string>, ss: seq<Stmt>, code: seq<Instr>, p: int, brk: int,
                                  exit: int, m: State, env: Env, fuel: nat) returns (n: nat)
    requires Starts(fr, names, code, p, AllCode(fr, ss), brk, exit, m, env)
    requires AllScoped(fr, ss, names) && AllSafe(fr, ss)
    ensures Follows(fr, names, code, n, m, p + |AllCode(fr, ss)|, brk, exit, ExecuteAll(ss, env, fuel), fuel)
    decreases fuel, ss, 1
  {
    hide StmtCode, Execute, Distinct, FrameOk, Agrees, Scoped, SafeStmt, PlacedStmt, Step;
    n := 0;
    if ss == [] {
      NoSteps(code, m);
    } else {
      var x, rest := StmtCode(fr, ss[0]), AllCode(fr, ss[1..]);
      StmtSplit(code, p, x, rest, brk, exit);
      n := RunStatement(fr, names, ss[0], code, p, brk, exit, m, env, fuel);
      var o := Execute(ss[0], env, fuel);
      if o.Normal? {
        hide Steps;
        var k := RunAll(fr, names, ss[1..], code, p + |x|, brk, exit, Steps(code, n, m), o.env, fuel);
        ThenFollows(fr, names, code, n, k, m, p + |x| + |rest|, brk, exit, ExecuteAll(ss[1..], o.env, fuel), fuel);
        n := n + k;
      }
    }
  }

  lemma {:induction false} RunScope(fr: Frame, names: set<string>, ss: seq<Stmt>, code: seq<Instr>, p: int, brk: int,
                                    exit: int, m: State, env: Env, fuel: nat) returns (n: nat)
    requires Starts(fr, names, code, p, StmtCode(fr, Scope(ss)), brk, exit, m, env)
    requires Scoped(fr, Scope(ss), names) && AllSafe(fr, ss)
    ensures Follows(fr, names, code, n, m, p + |StmtCode(fr, Scope(ss))|, brk, exit,
                    Execute(Scope(ss), env, fuel), fuel)
    decreases fuel, ss, 2
  {
    var inner := names + LevelAll(ss);
    BlockShape(fr, ss, env, fuel);
    LevelAllDeclared(ss);
    hide StmtCode, AllCode, Execute, ExecuteAll, Distinct, FrameOk, Agrees, AllScoped, AllSafe, Follows, PlacedStmt;
    MoreNames(fr, names, inner, m, p, env);
    n := RunAll(fr, inner, ss, code, p, brk, exit, m, env, fuel);
    LeaveFollows(fr, inner, names, code, n, m, p + |AllCode(fr, ss)|, brk, exit, ExecuteAll(ss, env, fuel), fuel,
                 DeclaredIn(ss));
  }

  /** The body of a branch or loop, run from a state that n steps have reached. */
  lemma {:induction false} RunBody(fr: Frame, names: set<string>, s: Stmt, code: seq<Instr>, p: int, brk: int,
                                   exit: int, n: nat, m: State, env: Env, fuel: nat) returns (k: nat)
    requires PlacedStmt(code, p, StmtCode(fr, s), brk, exit) && FrameOk(fr)
    requires At(fr, names, Steps(code, n, m), p, env) && ScopedBody(fr, s, names) && SafeStmt(fr, s)
    ensures k >= n
    ensures Follows(fr, names, code, k, m, p + |StmtCode(fr, s)|, brk, exit,
                    Leave(Execute(s, env, fuel), Declared(s)), fuel)
    ensures Execute(s, env, fuel).OutOfFuel? ==> k >= n + fuel
    decreases fuel, s, 3
  {
    hide StmtCode, Execute, Distinct, FrameOk, Agrees, Scoped, SafeStmt, PlacedStmt, Steps;
    var inner := names + Level(s);
    LevelDeclared(s);
    MoreNames(fr, names, inner, Steps(code, n, m), p, env);
    k := RunStatement(fr, inner, s, code, p, brk, exit, Steps(code, n, m), env, fuel);
    var o, end := Execute(s, env, fuel), p + |StmtCode(fr, s)|;
    ThenFollows(fr, inner, code, n, k, m, end, brk, exit, o, fuel);
    LeaveFollows(fr, inner, names, code, n + k, m, end, brk, exit, o, fuel, Declared(s));
    k := n + k;
  }

  lemma {:induction false} RunBranch(fr: Frame, names: set<string>, c: Expr, t: Stmt, f: Option<Stmt>,
                                     code: seq<Instr>, p: int, brk: int, exit: int, m: State, env: Env, fuel: nat)
    returns (n: nat)
    requires var s := Branch(c, t, f);
      Starts(fr, names, code, p, StmtCode(fr, s), brk, exit, m, env) && Scoped(fr, s, names) && SafeStmt(fr, s)
    ensures var s := Branch(c, t, f);
      Follows(fr, names, code, n, m, p + |StmtCode(fr, s)|, brk, exit, Execute(s, env, fuel), fuel)
    decreases fuel, Branch(c, t, f), 1
  {
    BranchShape(fr, c, t, f);
    BranchMeaning(c, t, f, env, fuel);
    hide StmtCode, Execute, Meaning, Safe, Distinct, FrameOk, Agrees, ScopedBody, PlacedStmt, Steps, BranchHead;
    var head, x := BranchHead(fr, c, 0), StmtCode(fr, t);
    var y: Fragment := if f.Some? then StmtCode(fr, f.value) else [];
    BranchPlaced(code, p, head, x, y, brk, exit);
    n := RunTest(fr, names, c, code, p, m, env, |x| + 1);
    if Meaning(c, env).Value? {
      if Meaning(c, env).w != 0 {
        n := RunBody(fr, names, t, code, p + |head| + 1, brk, exit, n, m, env, fuel);
        n := OverElse(fr, names, code, n, m, p + |head| + 1 + |x|, brk, exit,
                      Leave(Execute(t, env, fuel), Declared(t)), fuel, |y|);
      } else if f.Some? {
        n := RunBody(fr, names, f.value, code, p + |head| + |x| + 2, brk, exit, n, m, env, fuel);
      }
    }
  }

  lemma BranchMeaning(c: Expr, t: Stmt, f: Option<Stmt>, env: Env, fuel: nat)
    ensures var a := Meaning(c, env);
      Execute(Branch(c, t, f), env, fuel) ==
        if !a.Value? then Stop(a)
        else if a.w != 0 then Leave(Execute(t, env, fuel), Declared(t))
        else if f.Some? then Leave(Execute(f.value, env, fuel), Declared(f.value))
        else Normal(env)
  {
  }

  function Condition(c: Option<Expr>): Expr {
    if c.Some? then c.value else Lit(1)
  }

  lemma LoopMeaning(fr: Frame, c: Option<Expr>, b: Stmt, env: Env, fuel: nat)
    requires fuel > 0
    ensures LoopHead(fr, c) == BranchHead(fr, Condition(c), 0)
    ensures SafeStmt(fr, Loop(c, b)) ==> Safe(fr, Condition(c), 0) && SafeStmt(fr, b)
    ensures var a := Meaning(Condition(c), env);
      var o := Leave(Execute(b, env, fuel - 1), Declared(b));
      Execute(Loop(c, b), env, fuel) ==
        if !a.Value? then Stop(a)
        else if a.w == 0 then Normal(env)
        else if o.Normal? then Execute(Loop(c, b), o.env, fuel - 1)
        else if o.Broke? then Normal(o.env)
        else o
  {
    assert [] + TestCode(fr, Literal(1)) == TestCode(fr, Literal(1));
  }

  /** The head of a loop, run: either the loop is over, or its body is next. */
  lemma RunLoopHead(fr: Frame, names: set<string>, c: Option<Expr>, b: Stmt, code: seq<Instr>, p: int, brk: int,
                    exit: int, m: State, env: Env, fuel: nat) returns (n: nat)
    requires var s := Loop(c, b);
      Starts(fr, names, code, p, StmtCode(fr, s), brk, exit, m, env) && Safe(fr, Condition(c), 0)
    requires LoopHead(fr, c) == BranchHead(fr, Condition(c), 0)
    ensures var a, m', end := Meaning(Condition(c), env), Steps(code, n, m), p + |StmtCode(fr, Loop(c, b))|;
      if a.Value? && a.w != 0 then n > 0 && At(fr, names, m', p + |LoopHead(fr, c)| + 1, env)
      else Follows(fr, names, code, n, m, end, brk, exit, if a.Value? then Normal(env) else Stop(a), fuel)
  {
    LoopShape(fr, c, b);
    hide StmtCode, Meaning, Safe, Distinct, FrameOk, Agrees, PlacedStmt, Steps, BranchHead, LoopHead, Bind, Placed,
      Assemble;
    var head, x := LoopHead(fr, c), StmtCode(fr, b);
    LoopPlaced(code, p, head, x, brk, exit);
    n := RunTest(fr, names, Condition(c), code, p, m, env, |x| + 2);
  }

  /** A loop begins inside the code that holds it. */
  lemma LoopInside(fr: Frame, c: Option<Expr>, b: Stmt, code: seq<Instr>, p: int, brk: int, exit: int)
    requires PlacedStmt(code, p, StmtCode(fr, Loop(c, b)), brk, exit)
    ensures 0 <= p < |code|
  {
    LoopShape(fr, c, b);
    hide StmtCode, LoopHead;
  }

  lemma {:induction false} RunLoop(fr: Frame, names: set<string>, c: Option<Expr>, b: Stmt, code: seq<Instr>, p: int,
                                   brk: int, exit: int, m: State, env: Env, fuel: nat) returns (n: nat)
    requires var s := Loop(c, b);
      Starts(fr, names, code, p, StmtCode(fr, s), brk, exit, m, env) && Scoped(fr, s, names) && SafeStmt(fr, s)
    ensures var s := Loop(c, b);
      Follows(fr, names, code, n, m, p + |StmtCode(fr, s)|, brk, exit, Execute(s, env, fuel), fuel)
    decreases fuel, Loop(c, b), 1
  {
    if fuel == 0 {
      NoSteps(code, m);
      LoopInside(fr, c, b, code, p, brk, exit);
      n := 0;
      return;
    }
    LoopMeaning(fr, c, b, env, fuel);
    hide StmtCode, Execute, Meaning, Distinct, FrameOk, PlacedStmt, Steps, LoopHead, BranchHead, Scoped, SafeStmt,
      Follows, Agrees;
    n := RunLoopHead(fr, names, c, b, code, p, brk, exit, m, env, fuel);
    var a := Meaning(Condition(c), env);
    if a.Value? && a.w != 0 {
      n := RunIteration(fr, names, c, b, code, p, brk, exit, n, m, env, fuel);
    }
  }

  /** One pass through the body, and the iterations after it. */
  lemma {:induction false} RunIteration(fr: Frame, names: set<string>, c: Option<Expr>, b: Stmt, code: seq<Instr>,
                                        p: int, brk: int, exit: int, n: nat, m: State, env: Env, fuel: nat)
    returns (k: nat)
    requires fuel > 0 && n > 0 && FrameOk(fr) && Distinct(fr, names)
    requires PlacedStmt(code, p, StmtCode(fr, Loop(c, b)), brk, exit)
    requires Scoped(fr, Loop(c, b), names) && SafeStmt(fr, Loop(c, b))
    requires At(fr, names, Steps(code, n, m), p + |LoopHead(fr, c)| + 1, env)
    ensures var s := Loop(c, b);
      var o := Leave(Execute(b, env, fuel - 1), Declared(b));
      Follows(fr, names, code, k, m, p + |StmtCode(fr, s)|, brk, exit,
              if o.Normal? then Execute(s, o.env, fuel - 1) else if o.Broke? then Normal(o.env) else o, fuel)
    decreases fuel, Loop(c, b), 0
  {
    hide StmtCode, Execute, Distinct, FrameOk, Agrees, ScopedBody, PlacedStmt, Steps, LoopHead, Follows, Bind, At;
    LoopShape(fr, c, b);
    var head, x := LoopHead(fr, c), StmtCode(fr, b);
    var end, back := p + |StmtCode(fr, Loop(c, b))|, p + |head| + 1 + |x|;
    assert end == p + |head| + |x| + 3 && back + 1 - (|head| + |x| + 2) == p;
    LoopPlaced(code, p, head, x, brk, exit);
    k := RunBody(fr, names, b, code, p + |head| + 1, end, exit, n, m, env, fuel - 1);
    var o := Leave(Execute(b, env, fuel - 1), Declared(b));
    if !o.Normal? {
      LeaveLoop(fr, names, code, k, m, back, end, brk, exit, o, fuel);
    } else {
      BodyDone(fr, names, code, k, m, back, end, exit, o, fuel - 1);
      ThenGoto(fr, names, code, k, m, back, -(|head| + |x| + 2), o.env);
      var j := RunLoop(fr, names, c, b, code, p, brk, exit, Steps(code, k + 1, m), o.env, fuel - 1);
      Again(fr, names, code, k + 1, j, m, end, brk, exit, Execute(Loop(c, b), o.env, fuel - 1), fuel);
      k := k + 1 + j;
    }
  }

  lemma BodyDone(fr: Frame, names: set<string>, code: seq<Instr>, n: nat, m: State, back: int, end: int, exit: int,
                 o: Outcome, fuel: nat)
    requires Follows(fr, names, code, n, m, back, end, exit, o, fuel) && o.Normal?
    ensures At(fr, names, Steps(code, n, m), back, o.env)
  {
  }

  /** A body that does not end normally ends the loop; a break ends it normally. */
  lemma LeaveLoop(fr: Frame, names: set<string>, code: seq<Instr>, n: nat, m: State, back: int, end: int, brk: int,
                  exit: int, o: Outcome, fuel: nat)
    requires fuel > 0 && Follows(fr, names, code, n, m, back, end, exit, o, fuel - 1)
    requires !o.Normal? && (o.OutOfFuel? ==> n >= fuel)
    ensures Follows(fr, names, code, n, m, end, brk, exit, if o.Broke? then Normal(o.env) else o, fuel)
  {
  }

  /** The next iterations, with one unit less of fuel and at least one step more. */
  lemma Again(fr: Frame, names: set<string>, code: seq<Instr>, n: nat, k: nat, m: State, end: int, brk: int, exit: int,
              o: Outcome, fuel: nat)
    requires fuel > 0 && n > 0 && Follows(fr, names, code, k, Steps(code, n, m), end, brk, exit, o, fuel - 1)
    ensures Follows(fr, names, code, n + k, m, end, brk, exit, o, fuel)
  {
    StepsAdd(code, n, k, m);
  }
}
