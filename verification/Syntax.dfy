/** The checked syntax tree at one machine width, and its meaning. Expressions are the
    side-effect-free ones; assignment occurs as a statement. */
module Syntax {
  import opened Words

  datatype Option<+T> = None | Some(value: T)

  datatype UnOp = Plus | Minus | LogicNot | BitNot
  datatype LogicOp = AndAlso | OrElse

  datatype Expr =
    | Lit(v: Word)
    | Var(name: string)
    | Unary(uop: UnOp, inner: Expr)
    | Cast(inner: Expr)
    | Binary(op: BinOp, left: Expr, right: Expr)
    | Logic(lop: LogicOp, left: Expr, right: Expr)
    | Cond(when: Expr, then_: Expr, otherwise: Expr)
    | Comma(left: Expr, right: Expr)

  datatype Stmt =
    | Eval(e: Expr)
    | Assign(name: string, e: Expr)
    | OpAssign(op: BinOp, name: string, e: Expr)
    | Declare(name: string)
    | List(body: seq<Stmt>)
    | Scope(body: seq<Stmt>)
    | Branch(when: Expr, then_: Stmt, otherwise: Option<Stmt>)
    | Loop(cond: Option<Expr>, inner: Stmt)
    | Break
    | Return(value: Option<Expr>)

  // ----- expressions -----

  type Env = map<string, Word>

  /** Undefined marks a read of a variable without a value: C promises nothing about it.
      Fault is the processor's divide error. */
  datatype Result = Value(w: Word) | Fault | Undefined

  /** Both operands are evaluated; the result does not depend on which one comes first. */
  function Both(op: BinOp, a: Result, b: Result): Result {
    if a.Undefined? || b.Undefined? then Undefined
    else if a.Fault? || b.Fault? then Fault
    else if Faults(op, a.w, b.w) then Fault
    else Value(Compute(op, a.w, b.w))
  }

  function UnaryValue(op: UnOp, w: Word): Word {
    match op
    case Plus => w
    case Minus => Negate(w)
    case LogicNot => Truth(w == 0)
    case BitNot => Complement(w)
  }

  /** The left operand of && or || decides alone when it is zero, respectively not zero. */
  predicate Decides(op: LogicOp, w: Word) {
    match op
    case AndAlso => w == 0
    case OrElse => w != 0
  }

  function Meaning(e: Expr, env: Env): Result {
    match e
    case Lit(v) => Value(v)
    case Var(x) => if x in env then Value(env[x]) else Undefined
    case Unary(op, e) =>
      var a := Meaning(e, env);
      if a.Value? then Value(UnaryValue(op, a.w)) else a
    case Cast(e) => Meaning(e, env)
    case Binary(op, l, r) => Both(op, Meaning(l, env), Meaning(r, env))
    case Logic(op, l, r) =>
      var a := Meaning(l, env);
      if !a.Value? then a
      else if Decides(op, a.w) then Value(Truth(op.OrElse?))
      else
        var b := Meaning(r, env);
        if b.Value? then Value(Truth(b.w != 0)) else b
    case Cond(c, t, f) =>
      var a := Meaning(c, env);
      if !a.Value? then a
      else if a.w != 0 then Meaning(t, env)
      else Meaning(f, env)
    case Comma(l, r) =>
      var a := Meaning(l, env);
      if a.Value? then Meaning(r, env) else a
  }

  // ----- statements -----

  datatype Outcome =
    | Normal(env: Env)
    | Broke(env: Env)
    | Returned(w: Word)
    | Faulted
    | Unspecified
    | OutOfFuel

  /** Every name declared anywhere inside a statement. */
  function Declared(s: Stmt): set<string> {
    match s
    case Declare(x) => {x}
    case List(ss) => DeclaredIn(ss)
    case Scope(ss) => DeclaredIn(ss)
    case Branch(_, t, f) => Declared(t) + (if f.Some? then Declared(f.value) else {})
    case Loop(_, b) => Declared(b)
    case _ => {}
  }

  function DeclaredIn(ss: seq<Stmt>): set<string> {
    if ss == [] then {} else Declared(ss[0]) + DeclaredIn(ss[1..])
  }

  function Leave(o: Outcome, names: set<string>): Outcome {
    match o
    case Normal(env) => Normal(env - names)
    case Broke(env) => Broke(env - names)
    case _ => o
  }

  function Stop(r: Result): Outcome
    requires !r.Value?
  {
    if r.Fault? then Faulted else Unspecified
  }

  /** Big-step meaning. The fuel bounds the number of loop iterations and nothing else. */
  function Execute(s: Stmt, env: Env, fuel: nat): Outcome
    decreases fuel, s, 0
  {
    match s
    case Eval(e) =>
      var a := Meaning(e, env);
      if a.Value? then Normal(env) else Stop(a)
    case Assign(x, e) =>
      var a := Meaning(e, env);
      if a.Value? then Normal(env[x := a.w]) else Stop(a)
    case OpAssign(op, x, e) =>
      var a := Both(op, Meaning(Var(x), env), Meaning(e, env));
      if a.Value? then Normal(env[x := a.w]) else Stop(a)
    case Declare(x) => Normal(env - {x})
    case List(ss) => ExecuteAll(ss, env, fuel)
    case Scope(ss) => Leave(ExecuteAll(ss, env, fuel), DeclaredIn(ss))
    case Branch(c, t, f) =>
      var a := Meaning(c, env);
      if !a.Value? then Stop(a)
      else if a.w != 0 then Leave(Execute(t, env, fuel), Declared(t))
      else if f.Some? then Leave(Execute(f.value, env, fuel), Declared(f.value))
      else Normal(env)
    case Loop(c, b) =>
      if fuel == 0 then OutOfFuel
      else
        var a := if c.Some? then Meaning(c.value, env) else Value(1);
        if !a.Value? then Stop(a)
        else if a.w == 0 then Normal(env)
        else
          var o := Leave(Execute(b, env, fuel - 1), Declared(b));
          if o.Normal? then Execute(s, o.env, fuel - 1)
          else if o.Broke? then Normal(o.env)
          else o
    case Break => Broke(env)
    case Return(v) =>
      var a := if v.Some? then Meaning(v.value, env) else Value(0);
      if a.Value? then Returned(a.w) else Stop(a)
  }

  function ExecuteAll(ss: seq<Stmt>, env: Env, fuel: nat): Outcome
    decreases fuel, ss, 0
  {
    if ss == [] then Normal(env)
    else
      var o := Execute(ss[0], env, fuel);
      if o.Normal? then ExecuteAll(ss[1..], o.env, fuel) else o
  }
}
