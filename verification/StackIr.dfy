/** The stack IR and its assembly from the syntax tree. */
module StackIr {
  import opened Basics
  import opened Words
  import opened Syntax

  datatype Ir =
    | PushI(v: Word)
    | LStack(offset: nat)
    | Pop
    | Rval
    | Arith(op: BinOp)
    | StoreTop
    | StoreArith(op: BinOp)
    | NegI
    | NotI
    | Zero
    | Cvt
    | Swp
    | ScBegin
    | ScTest(lop: LogicOp)
    | ScEnd
    | If(loop: bool)
    | Then
    | Else
    | End
    | GotoStart
    | GotoEnd
    | Ret
    | FuncEnd

  /** The frame offset of each variable. */
  type Offsets = map<string, nat>

  function OffsetOf(vars: Offsets, x: string): nat {
    if x in vars then vars[x] else 0
  }

  // ----- Sethi-Ullman numbers -----

  function Meet(l: nat, r: nat): nat {
    if l == r then l + 1 else Max(l, r)
  }

  /** The registers a tree needs. The type node of a cast counts as a leaf. */
  function Su(e: Expr): nat {
    match e
    case Lit(_) => 1
    case Var(_) => 1
    case Unary(_, i) => Su(i)
    case Cast(i) => Meet(Su(i), 1)
    case Binary(_, l, r) => Meet(Su(l), Su(r))
    case Logic(_, l, r) => Meet(Su(l), Su(r))
    case Cond(c, t, f) => Meet(Su(c), Max(Su(t), Su(f)))
    case Comma(l, r) => Meet(Su(l), Su(r))
  }

  // ----- assembly as a function -----

  function UnaryTail(op: UnOp): seq<Ir> {
    match op
    case Plus => []
    case Minus => [NegI]
    case LogicNot => [Zero]
    case BitNot => [NotI]
  }

  /** The heavier operand of a reordered operator comes first, then the two are swapped. */
  predicate RightFirst(l: Expr, r: Expr) {
    Su(l) < Su(r)
  }

  function Assemble(e: Expr, vars: Offsets, parent: Option<LogicOp>): seq<Ir> {
    match e
    case Lit(v) => [PushI(v)]
    case Var(x) => [LStack(OffsetOf(vars, x))]
    case Unary(op, i) => Assemble(i, vars, None) + UnaryTail(op)
    case Cast(i) => Assemble(i, vars, None) + [Cvt]
    case Binary(op, l, r) =>
      if RightFirst(l, r) then Assemble(r, vars, None) + Assemble(l, vars, None) + [Swp, Arith(op)]
      else Assemble(l, vars, None) + Assemble(r, vars, None) + [Arith(op)]
    case Logic(op, l, r) =>
      var chain := Assemble(l, vars, Some(op)) + [ScTest(op)] + Assemble(r, vars, Some(op));
      if parent == Some(op) then chain else [ScBegin] + chain + [ScEnd]
    case Cond(c, t, f) =>
      [If(false)] + Assemble(c, vars, None) + [Then]
      + Assemble(t, vars, None) + [Rval, Pop, Else]
      + Assemble(f, vars, None) + [Rval, End]
    case Comma(l, r) => Assemble(l, vars, None) + [Pop] + Assemble(r, vars, None)
  }

  /** What assembling a statement reports: whether it leaves an item on the stack. */
  predicate LeavesItem(s: Stmt) {
    s.Eval? || s.Assign? || s.OpAssign?
  }

  function Popped(s: Stmt): seq<Ir> {
    if LeavesItem(s) then [Pop] else []
  }

  function AssembleStmt(s: Stmt, vars: Offsets): seq<Ir> {
    match s
    case Eval(e) => Assemble(e, vars, None)
    case Assign(x, e) => [LStack(OffsetOf(vars, x))] + Assemble(e, vars, None) + [StoreTop]
    case OpAssign(op, x, e) => [LStack(OffsetOf(vars, x))] + Assemble(e, vars, None) + [StoreArith(op)]
    case Declare(_) => []
    case List(ss) => AssembleAll(ss, vars)
    case Scope(ss) => AssembleAll(ss, vars)
    case Branch(c, t, f) =>
      [If(false)] + Assemble(c, vars, None) + [Then]
      + AssembleStmt(t, vars) + Popped(t) + [Else]
      + (if f.Some? then AssembleStmt(f.value, vars) + Popped(f.value) else []) + [End]
    case Loop(c, b) =>
      [If(true)] + (if c.Some? then Assemble(c.value, vars, None) else [PushI(1)]) + [Then]
      + AssembleStmt(b, vars) + [GotoStart, Else, End]
    case Break => [GotoEnd]
    case Return(v) => (if v.Some? then Assemble(v.value, vars, None) else [PushI(0)]) + [Ret]
  }

  function AssembleAll(ss: seq<Stmt>, vars: Offsets): seq<Ir> {
    if ss == [] then []
    else AssembleStmt(ss[0], vars) + Popped(ss[0]) + AssembleAll(ss[1..], vars)
  }

  /** A whole function: unless its last statement is a return, it returns zero. */
  function AssembleFunction(ss: seq<Stmt>, vars: Offsets): seq<Ir> {
    AssembleAll(ss, vars) + (if ss != [] && ss[|ss| - 1].Return? then [] else [PushI(0), Ret]) + [FuncEnd]
  }

  lemma CondIr(c: Expr, t: Expr, f: Expr, vars: Offsets)
    ensures Assemble(Cond(c, t, f), vars, None)
      == [If(false)] + Assemble(c, vars, None) + [Then] + Assemble(t, vars, None) + [Rval, Pop, Else]
         + Assemble(f, vars, None) + [Rval, End]
  {
  }

  lemma BinaryIr(op: BinOp, l: Expr, r: Expr, vars: Offsets)
    ensures var x, y := Assemble(l, vars, None), Assemble(r, vars, None);
      Assemble(Binary(op, l, r), vars, None)
      == if Su(l) < Su(r) then y + x + [Swp, Arith(op)] else x + y + [Arith(op)]
  {
  }

  lemma BranchIr(c: Expr, t: Stmt, f: Option<Stmt>, vars: Offsets)
    ensures AssembleStmt(Branch(c, t, f), vars)
      == [If(false)] + Assemble(c, vars, None) + [Then] + AssembleStmt(t, vars) + Popped(t) + [Else]
         + (if f.Some? then AssembleStmt(f.value, vars) + Popped(f.value) else []) + [End]
  {
  }

  lemma LoopIr(c: Option<Expr>, b: Stmt, vars: Offsets)
    ensures AssembleStmt(Loop(c, b), vars)
      == [If(true)] + (if c.Some? then Assemble(c.value, vars, None) else [PushI(1)]) + [Then]
         + AssembleStmt(b, vars) + [GotoStart, Else, End]
  {
  }

  // ----- assembly as the source does it -----

  /** Appends to a shared IR list, and remembers every Sethi-Ullman number it computes. */
  class Assembler {
    var ir: seq<Ir>
    var memo: map<Expr, nat>
    const vars: Offsets

    constructor (vars: Offsets)
      ensures ir == [] && Valid() && this.vars == vars
    {
      this.ir, this.memo, this.vars := [], map[], vars;
    }

    /** Every remembered number is the one the recurrence gives. */
    ghost predicate Valid()
      reads this
    {
      forall e | e in memo :: memo[e] == Su(e)
    }

    method Add(i: Ir)
      modifies this`ir
      ensures ir == old(ir) + [i]
    {
      ir := ir + [i];
    }

    method GetSuNumber(e: Expr) returns (n: nat)
      requires Valid()
      modifies this`memo
      ensures Valid() && n == Su(e)
      decreases e
    {
      if e in memo {
        return memo[e];
      }
      match e {
        case Unary(_, i) =>
          n := GetSuNumber(i);
        case Cond(c, t, f) =>
          var l := GetSuNumber(c);
          var a := GetSuNumber(t);
          var o := GetSuNumber(f);
          var r := if a > o then a else o;
          n := if l == r then l + 1 else if l > r then l else r;
        case Cast(i) =>
          var l := GetSuNumber(i);
          n := if l == 1 then 2 else l;
          SuPositive(i);
        case Binary(_, x, y) =>
          var l := GetSuNumber(x);
          var r := GetSuNumber(y);
          n := if l == r then l + 1 else if l > r then l else r;
        case Logic(_, x, y) =>
          var l := GetSuNumber(x);
          var r := GetSuNumber(y);
          n := if l == r then l + 1 else if l > r then l else r;
        case Comma(x, y) =>
          var l := GetSuNumber(x);
          var r := GetSuNumber(y);
          n := if l == r then l + 1 else if l > r then l else r;
        case _ =>
          n := 1;
      }
      memo := memo[e := n];
    }

    method Append(e: Expr, parent: Option<LogicOp>)
      requires Valid()
      modifies this
      ensures Valid() && ir == old(ir) + Assemble(e, vars, parent)
      decreases e, 1
    {
      match e {
        case Lit(v) =>
          Add(PushI(v));
        case Var(x) =>
          Add(LStack(OffsetOf(vars, x)));
        case Unary(op, i) =>
          Append(i, None);
          match op {
            case Plus =>
            case Minus => Add(NegI);
            case LogicNot => Add(Zero);
            case BitNot => Add(NotI);
          }
          Assoc(old(ir), Assemble(i, vars, None), UnaryTail(op));
        case Cast(i) =>
          Append(i, None);
          Add(Cvt);
          Assoc(old(ir), Assemble(i, vars, None), [Cvt]);
        case Binary(op, l, r) =>
          AppendBinary(op, l, r);
        case Logic(op, l, r) =>
          AppendLogic(op, l, r, parent);
        case Cond(c, t, f) =>
          AppendCond(c, t, f);
        case Comma(l, r) =>
          Append(l, None);
          Add(Pop);
          Append(r, None);
          Assoc(old(ir), Assemble(l, vars, None), [Pop]);
          Assoc(old(ir), Assemble(l, vars, None) + [Pop], Assemble(r, vars, None));
      }
    }

    method AppendBinary(op: BinOp, l: Expr, r: Expr)
      requires Valid()
      modifies this
      ensures Valid() && ir == old(ir) + Assemble(Binary(op, l, r), vars, None)
      decreases Binary(op, l, r), 0
    {
      BinaryIr(op, l, r, vars);
      hide Assemble, Su;
      var nl := GetSuNumber(l);
      var nr := GetSuNumber(r);
      ghost var x, y := Assemble(l, vars, None), Assemble(r, vars, None);
      if nl < nr {
        Append(r, None);
        Append(l, None);
        Assoc(old(ir), y, x);
        Add(Swp);
        Add(Arith(op));
        Assoc(old(ir), y + x, [Swp, Arith(op)]);
        Assoc(old(ir) + (y + x), [Swp], [Arith(op)]);
      } else {
        Append(l, None);
        Append(r, None);
        Assoc(old(ir), x, y);
        Add(Arith(op));
        Assoc(old(ir), x + y, [Arith(op)]);
      }
    }

    method AppendLogic(op: LogicOp, l: Expr, r: Expr, parent: Option<LogicOp>)
      requires Valid()
      modifies this
      ensures Valid() && ir == old(ir) + Assemble(Logic(op, l, r), vars, parent)
      decreases Logic(op, l, r), 0
    {
      ghost var x, y := Assemble(l, vars, Some(op)), Assemble(r, vars, Some(op));
      if parent != Some(op) {
        Add(ScBegin);
      }
      ghost var start := ir;
      Append(l, Some(op));
      Add(ScTest(op));
      Assoc(start, x, [ScTest(op)]);
      Append(r, Some(op));
      Assoc(start, x + [ScTest(op)], y);
      if parent != Some(op) {
        ghost var chain := x + [ScTest(op)] + y;
        Assoc(old(ir), [ScBegin], chain);
        Add(ScEnd);
        Assoc(old(ir), [ScBegin] + chain, [ScEnd]);
      }
    }

    method AppendCond(c: Expr, t: Expr, f: Expr)
      requires Valid()
      modifies this
      ensures Valid() && ir == old(ir) + Assemble(Cond(c, t, f), vars, None)
      decreases Cond(c, t, f), 0
    {
      CondIr(c, t, f, vars);
      hide Assemble, Su;
      ghost var x, y, z := Assemble(c, vars, None), Assemble(t, vars, None), Assemble(f, vars, None);
      ghost var acc := [If(false)];
      Add(If(false));
      Append(c, None);
      Assoc(old(ir), acc, x);
      acc := acc + x;
      Add(Then);
      Assoc(old(ir), acc, [Then]);
      acc := acc + [Then];
      Append(t, None);
      Assoc(old(ir), acc, y);
      acc := acc + y;
      ghost var mid := ir;
      Add(Rval);
      Add(Pop);
      Add(Else);
      assert ir == mid + [Rval, Pop, Else];
      Assoc(old(ir), acc, [Rval, Pop, Else]);
      acc := acc + [Rval, Pop, Else];
      Append(f, None);
      Assoc(old(ir), acc, z);
      acc := acc + z;
      ghost var last := ir;
      Add(Rval);
      Add(End);
      assert ir == last + [Rval, End];
      Assoc(old(ir), acc, [Rval, End]);
    }

    method AppendStmt(s: Stmt) returns (item: bool)
      requires Valid()
      modifies this
      ensures Valid() && ir == old(ir) + AssembleStmt(s, vars)
      ensures item == LeavesItem(s)
      decreases s, 1
    {
      item := false;
      match s {
        case Eval(e) =>
          Append(e, None);
          item := true;
        case Assign(x, e) =>
          AppendStore(x, e, StoreTop);
          item := true;
        case OpAssign(op, x, e) =>
          AppendStore(x, e, StoreArith(op));
          item := true;
        case Declare(_) =>
        case List(ss) =>
          AppendAll(ss);
        case Scope(ss) =>
          AppendAll(ss);
        case Branch(c, t, f) =>
          AppendBranch(c, t, f);
        case Loop(c, b) =>
          AppendLoop(c, b);
        case Break =>
          Add(GotoEnd);
        case Return(v) =>
          if v.Some? {
            Append(v.value, None);
          } else {
            Add(PushI(0));
          }
          ghost var x := if v.Some? then Assemble(v.value, vars, None) else [PushI(0)];
          Add(Ret);
          Assoc(old(ir), x, [Ret]);
      }
    }

    method AppendStore(x: string, e: Expr, store: Ir)
      requires Valid()
      modifies this
      ensures Valid() && ir == old(ir) + ([LStack(OffsetOf(vars, x))] + Assemble(e, vars, None) + [store])
    {
      ghost var first := [LStack(OffsetOf(vars, x))];
      Add(LStack(OffsetOf(vars, x)));
      Append(e, None);
      Assoc(old(ir), first, Assemble(e, vars, None));
      Add(store);
      Assoc(old(ir), first + Assemble(e, vars, None), [store]);
    }

    method AppendBranch(c: Expr, t: Stmt, f: Option<Stmt>)
      requires Valid()
      modifies this
      ensures Valid() && ir == old(ir) + AssembleStmt(Branch(c, t, f), vars)
      decreases Branch(c, t, f), 0
    {
      BranchIr(c, t, f, vars);
      hide Assemble, AssembleStmt, Su;
      ghost var acc := [If(false)];
      Add(If(false));
      Append(c, None);
      Assoc(old(ir), acc, Assemble(c, vars, None));
      acc := acc + Assemble(c, vars, None);
      Add(Then);
      Assoc(old(ir), acc, [Then]);
      acc := acc + [Then];
      var item := AppendStmt(t);
      Assoc(old(ir), acc, AssembleStmt(t, vars));
      acc := acc + AssembleStmt(t, vars);
      AppendPop(item);
      Assoc(old(ir), acc, Popped(t));
      acc := acc + Popped(t);
      Add(Else);
      Assoc(old(ir), acc, [Else]);
      acc := acc + [Else];
      ghost var other := if f.Some? then AssembleStmt(f.value, vars) + Popped(f.value) else [];
      ghost var mid := ir;
      if f.Some? {
        item := AppendStmt(f.value);
        AppendPop(item);
        Assoc(mid, AssembleStmt(f.value, vars), Popped(f.value));
      }
      Assoc(old(ir), acc, other);
      acc := acc + other;
      Add(End);
      Assoc(old(ir), acc, [End]);
    }

    method AppendPop(item: bool)
      modifies this`ir
      ensures ir == old(ir) + if item then [Pop] else []
    {
      if item {
        Add(Pop);
      }
    }

    method AppendLoop(c: Option<Expr>, b: Stmt)
      requires Valid()
      modifies this
      ensures Valid() && ir == old(ir) + AssembleStmt(Loop(c, b), vars)
      decreases Loop(c, b), 0
    {
      LoopIr(c, b, vars);
      hide Assemble, AssembleStmt, Su;
      ghost var acc := [If(true)];
      ghost var x := if c.Some? then Assemble(c.value, vars, None) else [PushI(1)];
      Add(If(true));
      if c.Some? {
        Append(c.value, None);
      } else {
        Add(PushI(1));
      }
      Assoc(old(ir), acc, x);
      acc := acc + x;
      Add(Then);
      Assoc(old(ir), acc, [Then]);
      acc := acc + [Then];
      var _ := AppendStmt(b);
      Assoc(old(ir), acc, AssembleStmt(b, vars));
      acc := acc + AssembleStmt(b, vars);
      ghost var mid := ir;
      Add(GotoStart);
      Add(Else);
      Add(End);
      assert ir == mid + [GotoStart, Else, End];
      Assoc(old(ir), acc, [GotoStart, Else, End]);
    }

    method AppendAll(ss: seq<Stmt>)
      requires Valid()
      modifies this
      ensures Valid() && ir == old(ir) + AssembleAll(ss, vars)
      decreases ss, 1
    {
      var i := 0;
      ghost var done: seq<Ir> := [];
      while i < |ss|
        invariant 0 <= i <= |ss| && Valid()
        invariant ir == old(ir) + done
        invariant done + AssembleAll(ss[i..], vars) == AssembleAll(ss, vars)
      {
        ghost var x, y, rest := AssembleStmt(ss[i], vars), Popped(ss[i]), AssembleAll(ss[i + 1..], vars);
        assert ss[i..][1..] == ss[i + 1..];
        assert AssembleAll(ss[i..], vars) == x + y + rest;
        var item := AppendStmt(ss[i]);
        Assoc(old(ir), done, x);
        AppendPop(item);
        Assoc(old(ir), done + x, y);
        Assoc(done, x, y);
        Assoc(done, x + y, rest);
        done := done + x + y;
        i := i + 1;
      }
    }

    method AppendFunction(ss: seq<Stmt>)
      requires Valid()
      modifies this
      ensures Valid() && ir == old(ir) + AssembleFunction(ss, vars)
    {
      AppendAll(ss);
      ghost var mid := ir;
      if !(ss != [] && ss[|ss| - 1].Return?) {
        Add(PushI(0));
        Add(Ret);
      }
      Add(FuncEnd);
      assert ir == mid + ((if ss != [] && ss[|ss| - 1].Return? then [] else [PushI(0), Ret]) + [FuncEnd]);
      assert ir == old(ir) + AssembleFunction(ss, vars);
    }
  }

  lemma {:induction false} SuPositive(e: Expr)
    ensures Su(e) >= 1
  {
    match e
    case Lit(_) =>
    case Var(_) =>
    case Unary(_, i) => SuPositive(i);
    case Cast(i) => SuPositive(i);
    case Binary(_, l, r) => SuPositive(l);
    case Logic(_, l, r) => SuPositive(l);
    case Cond(c, t, f) => SuPositive(c);
    case Comma(l, r) => SuPositive(l);
  }
}
