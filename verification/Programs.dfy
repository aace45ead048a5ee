/** From a function's source, through its frame layout, to code that behaves like it. */
module Programs {
  import opened Words
  import opened Syntax
  import opened Machine
  import opened StackIr
  import opened Emitter
  import opened Fragments
  import opened ExprCorrect
  import opened EmitStmt
  import opened StmtCorrect
  import opened SethiUllman
  import opened Compiler
  import opened Flatten
  import FL = FrameLayout

  // ----- the scope tree of a body -----

  function WordLeaf(x: string): FL.SizeTree {
    FL.Leaf(Some(x), 8, 8, false)
  }

  function ExprTree(e: Expr): seq<FL.SizeTree> {
    if e.Cond? then [FL.Node(ExprTree(e.when) + ExprTree(e.then_) + ExprTree(e.otherwise))] else []
  }

  function OptionTree(e: Option<Expr>): seq<FL.SizeTree> {
    if e.Some? then ExprTree(e.value) else []
  }

  function TreeOf(s: Stmt): seq<FL.SizeTree> {
    match s
    case Declare(x) => [WordLeaf(x)]
    case List(ss) => TreeOfAll(ss)
    case Scope(ss) => [FL.Node(TreeOfAll(ss))]
    case Branch(c, t, f) => [FL.Node(ExprTree(c) + TreeOf(t) + if f.Some? then TreeOf(f.value) else [])]
    case Loop(c, b) => [FL.Node(OptionTree(c) + TreeOf(b))]
    case Eval(e) => ExprTree(e)
    case _ => []
  }

  function TreeOfAll(ss: seq<Stmt>): seq<FL.SizeTree> {
    if ss == [] then [] else TreeOf(ss[0]) + TreeOfAll(ss[1..])
  }

  function ParamTree(params: seq<string>): seq<FL.SizeTree> {
    if params == [] then [] else [WordLeaf(params[0])] + ParamTree(params[1..])
  }

  function FunctionTree(params: seq<string>, ss: seq<Stmt>): seq<FL.SizeTree> {
    ParamTree(params) + TreeOfAll(ss)
  }

  /** A list that a scope's variables and inner scopes are appended to. */
  class ScopeList {
    var list: seq<FL.SizeTree>

    constructor ()
      ensures list == []
    {
      list := [];
    }

    method AppendExpr(e: Expr)
      modifies this
      ensures list == old(list) + ExprTree(e)
      decreases e
    {
      if e.Cond? {
        var inner := new ScopeList();
        inner.AppendExpr(e.when);
        inner.AppendExpr(e.then_);
        inner.AppendExpr(e.otherwise);
        assert inner.list == ExprTree(e.when) + ExprTree(e.then_) + ExprTree(e.otherwise);
        list := list + [FL.Node(inner.list)];
      }
    }

    method AppendOption(e: Option<Expr>)
      modifies this
      ensures list == old(list) + OptionTree(e)
    {
      if e.Some? {
        AppendExpr(e.value);
      }
    }

    method Append(s: Stmt)
      modifies this
      ensures list == old(list) + TreeOf(s)
      decreases s
    {
      match s {
        case Declare(x) =>
          list := list + [FL.Leaf(Some(x), 8, 8, false)];
        case List(ss) =>
          AppendAll(ss);
        case Scope(ss) =>
          var inner := new ScopeList();
          inner.AppendAll(ss);
          assert inner.list == TreeOfAll(ss);
          list := list + [FL.Node(inner.list)];
        case Branch(c, t, f) =>
          var inner := new ScopeList();
          inner.AppendExpr(c);
          inner.Append(t);
          if f.Some? {
            inner.Append(f.value);
          }
          assert inner.list == ExprTree(c) + TreeOf(t) + if f.Some? then TreeOf(f.value) else [];
          list := list + [FL.Node(inner.list)];
        case Loop(c, b) =>
          var inner := new ScopeList();
          inner.AppendOption(c);
          inner.Append(b);
          assert inner.list == OptionTree(c) + TreeOf(b);
          list := list + [FL.Node(inner.list)];
        case Eval(e) =>
          AppendExpr(e);
        case _ =>
          assert list == old(list) + [];
      }
    }

    method AppendAll(ss: seq<Stmt>)
      modifies this
      ensures list == old(list) + TreeOfAll(ss)
      decreases ss
    {
      if ss != [] {
        Append(ss[0]);
        AppendAll(ss[1..]);
      }
    }
  }

  // ----- the frame -----

  function WordOffsets(vars: FL.Places): Offsets {
    map x | x in vars && vars[x].OnStack? :: vars[x].offset
  }

  function FrameOf(params: seq<string>, ss: seq<Stmt>): Frame
    requires FL.AllSized(FunctionTree(params, ss))
  {
    var cs := FunctionTree(params, ss);
    Frame(WordOffsets(FL.PlaceScope(cs, 0, map[])), FL.ScopeEnd(cs, 0))
  }

  // ----- what a source function is asked to be -----

  /** No name is declared twice: every scope's names carry the scope's number. */
  predicate Once(s: Stmt) {
    match s
    case List(ss) => OnceAll(ss)
    case Scope(ss) => OnceAll(ss)
    case Branch(_, t, f) => Once(t) && (f.Some? ==> Once(f.value) && Declared(t) !! Declared(f.value))
    case Loop(_, b) => Once(b)
    case _ => true
  }

  predicate OnceAll(ss: seq<Stmt>) {
    ss == [] || (Once(ss[0]) && Declared(ss[0]) !! DeclaredIn(ss[1..]) && OnceAll(ss[1..]))
  }

  predicate Different(params: seq<string>) {
    params == [] || (params[0] !in params[1..] && Different(params[1..]))
  }

  function NamesIn(params: seq<string>): set<string> {
    set x | x in params
  }

  /** Only variables in scope are assigned to. */
  predicate InScope(s: Stmt, names: set<string>) {
    match s
    case Assign(x, _) => x in names
    case OpAssign(_, x, _) => x in names
    case List(ss) => AllInScope(ss, names)
    case Scope(ss) => AllInScope(ss, names + LevelAll(ss))
    case Branch(_, t, f) =>
      InScope(t, names + Level(t)) && (f.Some? ==> InScope(f.value, names + Level(f.value)))
    case Loop(_, b) => InScope(b, names + Level(b))
    case _ => true
  }

  predicate AllInScope(ss: seq<Stmt>, names: set<string>) {
    ss == [] || (InScope(ss[0], names) && AllInScope(ss[1..], names))
  }

  /** At most 128 leaves, and bitwise not only of computed values. */
  predicate Modest(e: Expr) {
    NotsRegisters(e) && Leaves(e) <= 128
  }

  predicate ModestStmt(s: Stmt) {
    match s
    case Eval(e) => Modest(e)
    case Assign(_, e) => Modest(e)
    case OpAssign(op, _, e) => (Simple(op) || Wide(op)) && Modest(e)
    case List(ss) => AllModest(ss)
    case Scope(ss) => AllModest(ss)
    case Branch(c, t, f) => Modest(c) && ModestStmt(t) && (f.Some? ==> ModestStmt(f.value))
    case Loop(c, b) => (c.Some? ==> Modest(c.value)) && ModestStmt(b)
    case Return(v) => v.Some? ==> Modest(v.value)
    case _ => true
  }

  predicate AllModest(ss: seq<Stmt>) {
    ss == [] || (ModestStmt(ss[0]) && AllModest(ss[1..]))
  }

  predicate WellFormed(params: seq<string>, ss: seq<Stmt>) {
    && Different(params) && OnceAll(ss) && NamesIn(params) !! DeclaredIn(ss)
    && AllInScope(ss, NamesIn(params) + LevelAll(ss)) && AllBalanced(ss, false) && AllModest(ss)
  }

  // ----- trees and their parts -----

  lemma {:induction false} SizedAppend(a: seq<FL.SizeTree>, b: seq<FL.SizeTree>)
    ensures FL.AllSized(a + b) <==> FL.AllSized(a) && FL.AllSized(b)
    decreases |a|
  {
    if a == [] {
      assert a + b == b;
    } else {
      assert (a + b)[1..] == a[1..] + b;
      SizedAppend(a[1..], b);
    }
  }

  lemma {:induction false} NamesAppend(a: seq<FL.SizeTree>, b: seq<FL.SizeTree>)
    ensures FL.Names(a + b) == FL.Names(a) + FL.Names(b)
    ensures FL.Unique(a) && FL.Unique(b) && FL.Names(a) !! FL.Names(b) ==> FL.Unique(a + b)
    decreases |a|
  {
    if a == [] {
      assert a + b == b;
    } else {
      assert (a + b)[1..] == a[1..] + b;
      NamesAppend(a[1..], b);
    }
  }

  lemma {:induction false} LevelAppend(a: seq<FL.SizeTree>, b: seq<FL.SizeTree>)
    ensures FL.Level(a + b) == FL.Level(a) + FL.Level(b)
    decreases |a|
  {
    if a == [] {
      assert a + b == b;
    } else {
      assert (a + b)[1..] == a[1..] + b;
      LevelAppend(a[1..], b);
    }
  }

  lemma {:induction false} InnerAppend(a: seq<FL.SizeTree>, b: seq<FL.SizeTree>, vars: FL.Places,
                                       outer: seq<FL.SizeTree>)
    requires FL.InnerSeparated(a + b, vars, outer)
    ensures FL.InnerSeparated(a, vars, outer) && FL.InnerSeparated(b, vars, outer)
    decreases |a|
  {
    if a == [] {
      assert a + b == b;
    } else {
      assert (a + b)[1..] == a[1..] + b;
      InnerAppend(a[1..], b, vars, outer);
    }
  }

  lemma OneNode(cs: seq<FL.SizeTree>)
    ensures FL.AllSized([FL.Node(cs)]) == FL.AllSized(cs)
    ensures FL.Names([FL.Node(cs)]) == FL.Names(cs) && FL.Unique([FL.Node(cs)]) == FL.Unique(cs)
    ensures FL.Level([FL.Node(cs)]) == []
    ensures forall vars, outer ::
      FL.InnerSeparated([FL.Node(cs)], vars, outer) == FL.Separated(cs, vars, outer)
  {
    var one := [FL.Node(cs)];
    assert one[1..] == [];
    assert FL.Unique(one[1..]) && FL.AllSized(one[1..]) && FL.Level(one[1..]) == [];
    assert FL.Names(one) == FL.NamesOf(one[0]) + FL.Names(one[1..]);
    forall vars, outer
      ensures FL.InnerSeparated(one, vars, outer) == FL.Separated(cs, vars, outer)
    {
      assert FL.InnerSeparated(one[1..], vars, outer);
    }
  }

  lemma OneWord(x: string)
    ensures FL.AllSized([WordLeaf(x)]) && FL.Names([WordLeaf(x)]) == {x} && FL.Unique([WordLeaf(x)])
    ensures FL.Level([WordLeaf(x)]) == [WordLeaf(x)]
  {
    var one := [WordLeaf(x)];
    assert one[1..] == [];
    assert FL.Unique(one[1..]) && FL.AllSized(one[1..]) && FL.Level(one[1..]) == [];
    assert FL.Names(one) == FL.NamesOf(one[0]) + FL.Names(one[1..]);
  }

  lemma {:induction false} ExprTreeBare(e: Expr)
    ensures var cs := ExprTree(e);
      FL.AllSized(cs) && FL.Names(cs) == {} && FL.Unique(cs) && FL.Level(cs) == []
  {
    if e.Cond? {
      var a, b, c := ExprTree(e.when), ExprTree(e.then_), ExprTree(e.otherwise);
      ExprTreeBare(e.when);
      ExprTreeBare(e.then_);
      ExprTreeBare(e.otherwise);
      BothParts(a, b);
      BothParts(a + b, c);
      OneNode(a + b + c);
    }
  }

  lemma BothParts(a: seq<FL.SizeTree>, b: seq<FL.SizeTree>)
    ensures FL.AllSized(a + b) <==> FL.AllSized(a) && FL.AllSized(b)
    ensures FL.Names(a + b) == FL.Names(a) + FL.Names(b)
    ensures FL.Unique(a) && FL.Unique(b) && FL.Names(a) !! FL.Names(b) ==> FL.Unique(a + b)
    ensures FL.Level(a + b) == FL.Level(a) + FL.Level(b)
  {
    SizedAppend(a, b);
    NamesAppend(a, b);
    LevelAppend(a, b);
  }

  lemma OptionTreeBare(e: Option<Expr>)
    ensures var cs := OptionTree(e);
      FL.AllSized(cs) && FL.Names(cs) == {} && FL.Unique(cs) && FL.Level(cs) == []
  {
    if e.Some? {
      ExprTreeBare(e.value);
    }
  }

  /** The tree of a statement holds its declarations, each once if the statement does. */
  ghost predicate Holds(s: Stmt) {
    var cs := TreeOf(s);
    && FL.AllSized(cs) && FL.Names(cs) == Declared(s) && (Once(s) ==> FL.Unique(cs))
    && LevelHolds(FL.Level(cs), Level(s))
  }

  predicate LevelHolds(ts: seq<FL.SizeTree>, names: set<string>) {
    forall x | x in names :: WordLeaf(x) in ts
  }

  lemma {:induction false} TreeHolds(s: Stmt)
    ensures Holds(s)
    decreases s, 1
  {
    match s
    case Declare(x) => OneWord(x);
    case List(ss) => TreeHoldsAll(ss);
    case Scope(ss) => TreeHoldsAll(ss); OneNode(TreeOfAll(ss));
    case Branch(c, t, f) => BranchHolds(c, t, f);
    case Loop(c, b) => OptionTreeBare(c); TreeHolds(b); BothParts(OptionTree(c), TreeOf(b));
      OneNode(OptionTree(c) + TreeOf(b));
    case Eval(e) => ExprTreeBare(e);
    case _ =>
  }

  function OtherTree(f: Option<Stmt>): seq<FL.SizeTree> {
    if f.Some? then TreeOf(f.value) else []
  }

  function BranchTree(c: Expr, t: Stmt, f: Option<Stmt>): seq<FL.SizeTree> {
    ExprTree(c) + TreeOf(t) + OtherTree(f)
  }

  lemma BranchShape(c: Expr, t: Stmt, f: Option<Stmt>)
    ensures TreeOf(Branch(c, t, f)) == [FL.Node(BranchTree(c, t, f))] && Level(Branch(c, t, f)) == {}
    ensures Declared(Branch(c, t, f)) == Declared(t) + (if f.Some? then Declared(f.value) else {})
    ensures Once(Branch(c, t, f))
        ==> Once(t) && (f.Some? ==> Once(f.value) && Declared(t) !! Declared(f.value))
  {
  }

  lemma {:induction false} BranchHolds(c: Expr, t: Stmt, f: Option<Stmt>)
    ensures Holds(Branch(c, t, f))
    decreases Branch(c, t, f), 0
  {
    BranchShape(c, t, f);
    ExprTreeBare(c);
    TreeHolds(t);
    hide TreeOf, Declared, Once, Level, ExprTree, FL.AllSized, FL.Names, FL.Unique, FL.Level;
    var all := BranchTree(c, t, f);
    BothParts(ExprTree(c), TreeOf(t));
    if f.Some? {
      TreeHolds(f.value);
      BothParts(ExprTree(c) + TreeOf(t), TreeOf(f.value));
    } else {
      assert all == ExprTree(c) + TreeOf(t);
    }
    OneNode(all);
  }

  lemma {:induction false} TreeHoldsAll(ss: seq<Stmt>)
    ensures var cs := TreeOfAll(ss);
      && FL.AllSized(cs) && FL.Names(cs) == DeclaredIn(ss) && (OnceAll(ss) ==> FL.Unique(cs))
      && LevelHolds(FL.Level(cs), LevelAll(ss))
    decreases ss, 2
  {
    if ss == [] {
    } else {
      TreeHolds(ss[0]);
      TreeHoldsAll(ss[1..]);
      BothParts(TreeOf(ss[0]), TreeOfAll(ss[1..]));
    }
  }

  lemma {:induction false} ParamsHold(params: seq<string>)
    ensures var cs := ParamTree(params);
      && FL.AllSized(cs) && FL.Names(cs) == NamesIn(params) && (Different(params) ==> FL.Unique(cs))
      && LevelHolds(FL.Level(cs), NamesIn(params))
    decreases |params|
  {
    if params == [] {
    } else {
      OneWord(params[0]);
      ParamsHold(params[1..]);
      BothParts([WordLeaf(params[0])], ParamTree(params[1..]));
      assert NamesIn(params) == {params[0]} + NamesIn(params[1..]);
    }
  }

  // ----- the layout keeps scopes apart -----

  lemma DistinctFrom(fr: Frame, vars: FL.Places, names: set<string>, ts: seq<FL.SizeTree>)
    requires fr.vars == WordOffsets(vars) && LevelHolds(ts, names) && FL.PairwiseApart(ts, vars)
    requires forall t | t in ts :: FL.OnFrame(t) && t.name.value in vars && vars[t.name.value].OnStack?
    ensures Distinct(fr, names)
  {
    forall x | x in names
      ensures x in fr.vars
    {
      assert WordLeaf(x) in ts;
    }
    forall x, y | x in names && y in names && x != y
      ensures fr.vars[x] != fr.vars[y]
    {
      var i :| 0 <= i < |ts| && ts[i] == WordLeaf(x);
      var j :| 0 <= j < |ts| && ts[j] == WordLeaf(y);
      if i < j {
        assert FL.Apart(ts[i], ts[j], vars);
      } else {
        assert FL.Apart(ts[j], ts[i], vars);
      }
    }
  }

  /** The variables of a level all have a place on the frame. */
  predicate Framed(ts: seq<FL.SizeTree>, vars: FL.Places) {
    forall t | t in ts :: FL.OnFrame(t) && t.name.value in vars && vars[t.name.value].OnStack?
  }

  lemma {:induction false} LevelFramed(cs: seq<FL.SizeTree>, vars: FL.Places, size: nat)
    requires FL.AllSized(cs) && FL.Inside(cs, vars, size)
    ensures Framed(FL.Level(cs), vars)
    decreases |cs|
  {
    if cs == [] {
    } else {
      LevelFramed(cs[1..], vars, size);
    }
  }

  lemma {:induction false} InsideAppend(a: seq<FL.SizeTree>, b: seq<FL.SizeTree>, vars: FL.Places, size: nat)
    requires FL.AllSized(a + b) && FL.Inside(a + b, vars, size)
    ensures FL.AllSized(a) && FL.AllSized(b) && FL.Inside(a, vars, size) && FL.Inside(b, vars, size)
    decreases |a|
  {
    SizedAppend(a, b);
    if a == [] {
      assert a + b == b;
    } else {
      assert (a + b)[1..] == a[1..] + b;
      InsideAppend(a[1..], b, vars, size);
    }
  }

  /** The layout of a list of trees, below the variables of the scopes around it. */
  ghost predicate Fits(cs: seq<FL.SizeTree>, vars: FL.Places, size: nat, outer: seq<FL.SizeTree>) {
    FL.AllSized(cs) && FL.Inside(cs, vars, size) && FL.InnerSeparated(cs, vars, outer)
  }

  lemma FitsAppend(a: seq<FL.SizeTree>, b: seq<FL.SizeTree>, vars: FL.Places, size: nat, outer: seq<FL.SizeTree>)
    requires Fits(a + b, vars, size, outer)
    ensures Fits(a, vars, size, outer) && Fits(b, vars, size, outer)
  {
    InsideAppend(a, b, vars, size);
    InnerAppend(a, b, vars, outer);
  }

  /** An inner scope: its own variables join the others, and all of them are apart. */
  lemma EnterScope(fr: Frame, cs: seq<FL.SizeTree>, vars: FL.Places, size: nat, outer: seq<FL.SizeTree>,
                   names: set<string>, own: set<string>) returns (inner: seq<FL.SizeTree>)
    requires Fits([FL.Node(cs)], vars, size, outer) && fr.vars == WordOffsets(vars)
    requires Framed(outer, vars) && LevelHolds(outer, names) && LevelHolds(FL.Level(cs), own)
    ensures Fits(cs, vars, size, inner) && Framed(inner, vars) && LevelHolds(inner, names + own)
    ensures Distinct(fr, names + own)
  {
    OneNode(cs);
    inner := outer + FL.Level(cs);
    assert FL.Separated(cs, vars, outer);
    assert FL.Inside([FL.Node(cs)][0].children, vars, size);
    LevelFramed(cs, vars, size);
    DistinctFrom(fr, vars, names + own, inner);
  }

  lemma {:induction false} ScopedFrom(fr: Frame, s: Stmt, vars: FL.Places, size: nat, outer: seq<FL.SizeTree>,
                                      names: set<string>)
    requires Fits(TreeOf(s), vars, size, outer) && fr.vars == WordOffsets(vars)
    requires Framed(outer, vars) && LevelHolds(outer, names) && InScope(s, names)
    ensures Scoped(fr, s, names)
    decreases s, 1
  {
    match s
    case List(ss) => ScopedFromAll(fr, ss, vars, size, outer, names);
    case Scope(ss) =>
      TreeHoldsAll(ss);
      var inner := EnterScope(fr, TreeOfAll(ss), vars, size, outer, names, LevelAll(ss));
      ScopedFromAll(fr, ss, vars, size, inner, names + LevelAll(ss));
    case Branch(c, t, f) => ScopedBranch(fr, c, t, f, vars, size, outer, names);
    case Loop(c, b) =>
      OptionTreeBare(c);
      TreeHolds(b);
      BothParts(OptionTree(c), TreeOf(b));
      var inner := EnterScope(fr, OptionTree(c) + TreeOf(b), vars, size, outer, names, Level(b));
      FitsAppend(OptionTree(c), TreeOf(b), vars, size, inner);
      ScopedFrom(fr, b, vars, size, inner, names + Level(b));
    case _ =>
  }

  lemma {:induction false} ScopedBranch(fr: Frame, c: Expr, t: Stmt, f: Option<Stmt>, vars: FL.Places, size: nat,
                                        outer: seq<FL.SizeTree>, names: set<string>)
    requires Fits(TreeOf(Branch(c, t, f)), vars, size, outer) && fr.vars == WordOffsets(vars)
    requires Framed(outer, vars) && LevelHolds(outer, names) && InScope(Branch(c, t, f), names)
    ensures Scoped(fr, Branch(c, t, f), names)
    decreases Branch(c, t, f), 0
  {
    BranchShape(c, t, f);
    var cs := BranchTree(c, t, f);
    TreeHolds(t);
    BothParts(ExprTree(c), TreeOf(t));
    BothParts(ExprTree(c) + TreeOf(t), OtherTree(f));
    var inner := EnterScope(fr, cs, vars, size, outer, names, Level(t));
    FitsAppend(ExprTree(c) + TreeOf(t), OtherTree(f), vars, size, inner);
    FitsAppend(ExprTree(c), TreeOf(t), vars, size, inner);
    ScopedFrom(fr, t, vars, size, inner, names + Level(t));
    if f.Some? {
      TreeHolds(f.value);
      inner := EnterScope(fr, cs, vars, size, outer, names, Level(f.value));
      FitsAppend(ExprTree(c) + TreeOf(t), OtherTree(f), vars, size, inner);
      ScopedFrom(fr, f.value, vars, size, inner, names + Level(f.value));
    }
  }

  lemma {:induction false} ScopedFromAll(fr: Frame, ss: seq<Stmt>, vars: FL.Places, size: nat,
                                         outer: seq<FL.SizeTree>, names: set<string>)
    requires Fits(TreeOfAll(ss), vars, size, outer) && fr.vars == WordOffsets(vars)
    requires Framed(outer, vars) && LevelHolds(outer, names) && AllInScope(ss, names)
    ensures AllScoped(fr, ss, names)
    decreases ss, 2
  {
    if ss == [] {
    } else {
      FitsAppend(TreeOf(ss[0]), TreeOfAll(ss[1..]), vars, size, outer);
      ScopedFrom(fr, ss[0], vars, size, outer, names);
      ScopedFromAll(fr, ss[1..], vars, size, outer, names);
    }
  }

  // ----- expressions -----

  lemma {:induction false} ModestIsSafe(fr: Frame, s: Stmt)
    requires ModestStmt(s)
    ensures SafeStmt(fr, s)
    decreases s
  {
    match s
    case Eval(e) => SmallIsSafe(fr, e);
    case Assign(_, e) => SmallIsSafe(fr, e);
    case OpAssign(_, _, e) => SmallIsSafe(fr, e);
    case List(ss) => AllModestIsSafe(fr, ss);
    case Scope(ss) => AllModestIsSafe(fr, ss);
    case Branch(c, t, f) =>
      SmallIsSafe(fr, c);
      ModestIsSafe(fr, t);
      if f.Some? {
        ModestIsSafe(fr, f.value);
      }
    case Loop(c, b) =>
      if c.Some? {
        SmallIsSafe(fr, c.value);
      }
      ModestIsSafe(fr, b);
    case Return(v) =>
      if v.Some? {
        SmallIsSafe(fr, v.value);
      }
    case _ =>
  }

  lemma {:induction false} AllModestIsSafe(fr: Frame, ss: seq<Stmt>)
    requires AllModest(ss)
    ensures AllSafe(fr, ss)
    decreases ss
  {
    if ss == [] {
    } else {
      ModestIsSafe(fr, ss[0]);
      AllModestIsSafe(fr, ss[1..]);
    }
  }

  // ----- the whole -----

  lemma TreeIsSound(params: seq<string>, ss: seq<Stmt>)
    requires Different(params) && OnceAll(ss) && NamesIn(params) !! DeclaredIn(ss)
    ensures var cs := FunctionTree(params, ss);
      && FL.AllSized(cs) && FL.Unique(cs) && FL.Names(cs) == NamesIn(params) + DeclaredIn(ss)
      && LevelHolds(FL.Level(cs), NamesIn(params) + LevelAll(ss))
  {
    ParamsHold(params);
    TreeHoldsAll(ss);
    BothParts(ParamTree(params), TreeOfAll(ss));
  }

  lemma {:induction false} NamesPlaced(cs: seq<FL.SizeTree>, base: nat, vars: FL.Places)
    requires FL.AllSized(cs)
    ensures FL.PlaceScope(cs, base, vars).Keys <= vars.Keys + FL.Names(cs)
    decreases cs, 2
  {
    FL.NamesSplit(cs);
    LeavesPlaced(cs, base, vars);
    NodesPlaced(cs, FL.LeavesEnd(cs, base), FL.PlaceLeaves(cs, base, vars));
  }

  lemma {:induction false} LeavesPlaced(cs: seq<FL.SizeTree>, base: nat, vars: FL.Places)
    requires FL.AllSized(cs)
    ensures FL.PlaceLeaves(cs, base, vars).Keys <= vars.Keys + FL.LeafNames(cs)
    decreases |cs|
  {
    if cs == [] {
    } else {
      LeavesPlaced(cs[1..], FL.Grow(cs[0], base), FL.Place(cs[0], base, vars));
    }
  }

  lemma {:induction false} NodesPlaced(cs: seq<FL.SizeTree>, base: nat, vars: FL.Places)
    requires FL.AllSized(cs)
    ensures FL.PlaceNodes(cs, base, vars).Keys <= vars.Keys + FL.NodeNames(cs)
    decreases cs, 1
  {
    if cs == [] {
    } else if cs[0].Leaf? {
      NodesPlaced(cs[1..], base, vars);
    } else {
      NamesPlaced(cs[0].children, base, vars);
      NodesPlaced(cs[1..], base, FL.PlaceScope(cs[0].children, base, vars));
    }
  }

  /** The computed frame is one that the compiler may rely on. */
  lemma LayoutIsCompilable(params: seq<string>, ss: seq<Stmt>)
    requires WellFormed(params, ss)
    ensures FL.AllSized(FunctionTree(params, ss))
    ensures Compilable(FrameOf(params, ss), ss, NamesIn(params))
  {
    TreeIsSound(params, ss);
    var cs, names := FunctionTree(params, ss), NamesIn(params) + LevelAll(ss);
    var fr, vars, size := FrameOf(params, ss), FL.PlaceScope(cs, 0, map[]), FL.ScopeEnd(cs, 0);
    FL.FrameIsSound(cs, map[]);
    NamesPlaced(cs, 0, map[]);
    hide TreeOfAll, ParamTree, FL.PlaceScope, FL.ScopeEnd, FL.Inside, FL.Names, FL.Unique, FL.AllSized;
    forall x | x in fr.vars
      ensures fr.vars[x] <= fr.size
    {
      FL.InsideName(cs, vars, size, x);
    }
    var top := FL.Level(cs);
    assert [] + top == top;
    LevelFramed(cs, vars, size);
    DistinctFrom(fr, vars, names, top);
    FitsAppend(ParamTree(params), TreeOfAll(ss), vars, size, top);
    ScopedFromAll(fr, ss, vars, size, top, names);
    AllModestIsSafe(fr, ss);
  }

  /** Some number of machine steps does what the source does. */
  ghost predicate Behaves(code: seq<Instr>, ss: seq<Stmt>, env: Env, s: Store, fuel: nat) {
    exists n: nat :: Matches(ExecuteAll(ss, env, fuel), code, Steps(code, n, Running(0, s)), n, fuel)
  }

  /** From source to code: lays out the frame, assembles, emits. Whatever the parameters, the
      code returns, faults or runs on exactly as the source does. */
  method CompileProgram(params: seq<string>, ss: seq<Stmt>) returns (code: seq<Instr>, fr: Frame)
    requires WellFormed(params, ss)
    ensures FL.AllSized(FunctionTree(params, ss)) && fr == FrameOf(params, ss) && NamesIn(params) <= fr.vars.Keys
    ensures forall env: Env, s: Store, fuel: nat | env.Keys <= NamesIn(params) && Agrees(fr, env, s) ::
      Behaves(code, ss, env, s, fuel)
  {
    LayoutIsCompilable(params, ss);
    var scopes := new ScopeList();
    var i := 0;
    while i < |params|
      invariant 0 <= i <= |params|
      invariant ParamTree(params) == scopes.list + ParamTree(params[i..])
    {
      scopes.list := scopes.list + [WordLeaf(params[i])];
      assert params[i..][1..] == params[i + 1..];
      i := i + 1;
    }
    assert ParamTree(params[i..]) == [];
    scopes.AppendAll(ss);
    assert scopes.list == FunctionTree(params, ss);
    var allocator := new FL.Allocator(map[]);
    var size := allocator.Process(scopes.list, 0);
    fr := Frame(WordOffsets(allocator.vars), size);
    assert fr == FrameOf(params, ss);
    code := CompileFunction(fr, ss);
    forall env: Env, s: Store, fuel: nat | env.Keys <= NamesIn(params) && Agrees(fr, env, s)
      ensures Behaves(code, ss, env, s, fuel)
    {
      var n := FunctionCorrect(fr, ss, NamesIn(params), env, s, fuel);
    }
  }

  // ----- flattening keeps a function well-formed -----

  lemma {:induction false} OnceAppend(a: seq<Stmt>, b: seq<Stmt>)
    requires OnceAll(a) && OnceAll(b) && DeclaredIn(a) !! DeclaredIn(b)
    ensures OnceAll(a + b)
    decreases |a|
  {
    if a == [] {
      assert a + b == b;
    } else {
      assert (a + b)[1..] == a[1..] + b;
      OnceAppend(a[1..], b);
      DeclaredAppend(a[1..], b);
    }
  }

  lemma {:induction false} FlatOnce(s: Stmt)
    requires Once(s)
    ensures Once(FlatOne(s)) && OnceAll(FlatIn(s))
    decreases s
  {
    match s {
      case List(ss) => FlatOnceAll(ss);
      case Scope(ss) => FlatOnceAll(ss);
      case Branch(_, t, f) =>
        FlatOnce(t);
        OneDeclares(t);
        if f.Some? {
          FlatOnce(f.value);
          OneDeclares(f.value);
        }
      case Loop(_, b) => FlatOnce(b);
      case _ =>
    }
    if Block(s) && OnlyScope(s.body) {
      FlatOnce(s.body[0]);
    }
    OnceOne(FlatOne(s));
  }

  lemma OnceOne(s: Stmt)
    ensures Once(s) ==> OnceAll([s])
  {
    assert [s][1..] == [];
  }

  lemma {:induction false} FlatOnceAll(ss: seq<Stmt>)
    requires OnceAll(ss)
    ensures OnceAll(FlatAll(ss))
    decreases ss
  {
    if ss == [] {
    } else {
      FlatOnce(ss[0]);
      FlatOnceAll(ss[1..]);
      InDeclares(ss[0]);
      AllDeclare(ss[1..]);
      OnceAppend(FlatIn(ss[0]), FlatAll(ss[1..]));
    }
  }

  lemma {:induction false} BalancedAppend(a: seq<Stmt>, b: seq<Stmt>, inLoop: bool)
    ensures AllBalanced(a + b, inLoop) <==> AllBalanced(a, inLoop) && AllBalanced(b, inLoop)
    ensures AllModest(a + b) <==> AllModest(a) && AllModest(b)
    decreases |a|
  {
    if a == [] {
      assert a + b == b;
    } else {
      assert (a + b)[1..] == a[1..] + b;
      BalancedAppend(a[1..], b, inLoop);
    }
  }

  lemma BalancedOne(s: Stmt, inLoop: bool)
    ensures AllBalanced([s], inLoop) <==> Balanced(s, inLoop)
    ensures AllModest([s]) <==> ModestStmt(s)
  {
    assert [s][1..] == [];
  }

  lemma {:induction false} FlatBalanced(s: Stmt, inLoop: bool)
    requires Balanced(s, inLoop) && ModestStmt(s)
    ensures Balanced(FlatOne(s), inLoop) && ModestStmt(FlatOne(s))
    ensures AllBalanced(FlatIn(s), inLoop) && AllModest(FlatIn(s))
    decreases s
  {
    match s {
      case List(ss) => FlatBalancedAll(ss, inLoop);
      case Scope(ss) => FlatBalancedAll(ss, inLoop);
      case Branch(_, t, f) =>
        FlatBalanced(t, inLoop);
        if f.Some? {
          FlatBalanced(f.value, inLoop);
        }
      case Loop(_, b) =>
        FlatBalanced(b, true);
        SameOne(b, map[]);
      case _ =>
    }
    if Block(s) && OnlyScope(s.body) {
      FlatBalanced(s.body[0], inLoop);
    }
    BalancedOne(FlatOne(s), inLoop);
  }

  lemma {:induction false} FlatBalancedAll(ss: seq<Stmt>, inLoop: bool)
    requires AllBalanced(ss, inLoop) && AllModest(ss)
    ensures AllBalanced(FlatAll(ss), inLoop) && AllModest(FlatAll(ss))
    decreases ss
  {
    if ss == [] {
    } else {
      FlatBalanced(ss[0], inLoop);
      FlatBalancedAll(ss[1..], inLoop);
      BalancedAppend(FlatIn(ss[0]), FlatAll(ss[1..]), inLoop);
    }
  }

  lemma {:induction false} InScopeMore(s: Stmt, names: set<string>, more: set<string>)
    requires InScope(s, names) && names <= more
    ensures InScope(s, more)
    decreases s
  {
    match s
    case List(ss) => AllInScopeMore(ss, names, more);
    case Scope(ss) => AllInScopeMore(ss, names + LevelAll(ss), more + LevelAll(ss));
    case Branch(_, t, f) =>
      InScopeMore(t, names + Level(t), more + Level(t));
      if f.Some? {
        InScopeMore(f.value, names + Level(f.value), more + Level(f.value));
      }
    case Loop(_, b) => InScopeMore(b, names + Level(b), more + Level(b));
    case _ =>
  }

  lemma {:induction false} AllInScopeMore(ss: seq<Stmt>, names: set<string>, more: set<string>)
    requires AllInScope(ss, names) && names <= more
    ensures AllInScope(ss, more)
    decreases ss
  {
    if ss == [] {
    } else {
      InScopeMore(ss[0], names, more);
      AllInScopeMore(ss[1..], names, more);
    }
  }

  lemma {:induction false} ScopeAppend(a: seq<Stmt>, b: seq<Stmt>, names: set<string>)
    ensures AllInScope(a + b, names) <==> AllInScope(a, names) && AllInScope(b, names)
    ensures LevelAll(a + b) == LevelAll(a) + LevelAll(b)
    decreases |a|
  {
    if a == [] {
      assert a + b == b;
    } else {
      assert (a + b)[1..] == a[1..] + b;
      ScopeAppend(a[1..], b, names);
    }
  }

  lemma ScopeOne(s: Stmt, names: set<string>)
    ensures AllInScope([s], names) <==> InScope(s, names)
    ensures LevelAll([s]) == Level(s)
  {
    assert [s][1..] == [];
  }

  /** Flattening may lift declarations out of a scope, but loses none. */
  lemma {:induction false} FlatLevels(s: Stmt)
    ensures Level(s) <= Level(FlatOne(s)) && Level(s) <= LevelAll(FlatIn(s))
    decreases s
  {
    ScopeOne(FlatOne(s), {});
    if s.List? {
      FlatLevelsAll(s.body);
      if OnlyScope(s.body) {
        assert s.body == [s.body[0]];
        ScopeOne(s.body[0], {});
      }
    }
  }

  lemma {:induction false} FlatLevelsAll(ss: seq<Stmt>)
    ensures LevelAll(ss) <= LevelAll(FlatAll(ss))
    decreases ss
  {
    if ss == [] {
    } else {
      FlatLevels(ss[0]);
      FlatLevelsAll(ss[1..]);
      ScopeAppend(FlatIn(ss[0]), FlatAll(ss[1..]), {});
    }
  }

  /** With the lifted names in scope, everything stays in scope. */
  lemma {:induction false} FlatInScope(s: Stmt, names: set<string>, more: set<string>)
    requires InScope(s, names) && names + Level(FlatOne(s)) <= more
    ensures InScope(FlatOne(s), more)
    decreases s, 0
  {
    match s
    case List(ss) => FlatBlockInScope(s, ss, names, more);
    case Scope(ss) => FlatBlockInScope(s, ss, names, more);
    case Branch(_, t, f) =>
      FlatArm(t, names, more);
      if f.Some? {
        FlatArm(f.value, names, more);
      }
    case Loop(_, b) => FlatArm(b, names, more);
    case _ =>
  }

  lemma {:induction false} FlatArm(t: Stmt, names: set<string>, more: set<string>)
    requires InScope(t, names + Level(t)) && names <= more
    ensures InScope(FlatOne(t), more + Level(FlatOne(t)))
    decreases t, 1
  {
    FlatLevels(t);
    FlatInScope(t, names + Level(t), more + Level(FlatOne(t)));
  }

  lemma {:induction false} FlatBlockInScope(s: Stmt, ss: seq<Stmt>, names: set<string>, more: set<string>)
    requires s == List(ss) || s == Scope(ss)
    requires InScope(s, names) && names + Level(FlatOne(s)) <= more
    ensures InScope(FlatOne(s), more)
    decreases ss, 2
  {
    if OnlyScope(ss) {
      assert ss == [ss[0]];
      ScopeOne(ss[0], names);
      ScopeOne(ss[0], names + LevelAll(ss));
      assert LevelAll(ss) == {};
      assert names + {} == names;
      FlatInScope(ss[0], names, more);
      if s.List? {
        AllInScopeMore(FlatOne(ss[0]).body, more + LevelAll(FlatOne(ss[0]).body), more);
      }
    } else if s.List? {
      FlatAllInScope(ss, names, more);
    } else {
      FlatLevelsAll(ss);
      FlatAllInScope(ss, names + LevelAll(ss), more + LevelAll(FlatAll(ss)));
    }
  }

  lemma {:induction false} FlatInInScope(s: Stmt, names: set<string>, more: set<string>)
    requires InScope(s, names) && names + LevelAll(FlatIn(s)) <= more
    ensures AllInScope(FlatIn(s), more)
    decreases s, 1
  {
    ScopeOne(FlatOne(s), more);
    if Block(s) && s.body == [] {
    } else if s.List? && !OnlyScope(s.body) {
      FlatAllInScope(s.body, names, more);
    } else {
      FlatInScope(s, names, more);
    }
  }

  lemma {:induction false} FlatAllInScope(ss: seq<Stmt>, names: set<string>, more: set<string>)
    requires AllInScope(ss, names) && names + LevelAll(FlatAll(ss)) <= more
    ensures AllInScope(FlatAll(ss), more)
    decreases ss, 1
  {
    if ss == [] {
    } else {
      ScopeAppend(FlatIn(ss[0]), FlatAll(ss[1..]), more);
      FlatInInScope(ss[0], names, more);
      FlatAllInScope(ss[1..], names, more);
    }
  }

  lemma FlatWellFormed(params: seq<string>, ss: seq<Stmt>)
    requires WellFormed(params, ss)
    ensures WellFormed(params, FlatBody(ss))
  {
    var names := NamesIn(params) + LevelAll(ss);
    var s := List(ss);
    FlatOnce(s);
    OneDeclares(s);
    FlatBalanced(s, false);
    FlatLevels(s);
    FlatInScope(s, names, NamesIn(params) + LevelAll(FlatBody(ss)));
  }

  /** The compiler from the parsed body on: flattens it, lays out the frame, assembles, emits.
      Whatever the arguments, the code does what the unflattened source says. */
  method CompileSource(params: seq<string>, ss: seq<Stmt>) returns (code: seq<Instr>, fr: Frame)
    requires WellFormed(params, ss)
    ensures var body := FlatBody(ss);
      WellFormed(params, body) && FL.AllSized(FunctionTree(params, body)) && fr == FrameOf(params, body)
    ensures NamesIn(params) <= fr.vars.Keys
    ensures forall env: Env, s: Store, fuel: nat | env.Keys <= NamesIn(params) && Agrees(fr, env, s) ::
      Behaves(code, ss, env, s, fuel)
  {
    FlatWellFormed(params, ss);
    var body := FlattenAst(List(ss), null);
    code, fr := CompileProgram(params, body.value.body);
    forall env: Env, s: Store, fuel: nat | env.Keys <= NamesIn(params) && Agrees(fr, env, s)
      ensures Behaves(code, ss, env, s, fuel)
    {
      assert Behaves(code, FlatBody(ss), env, s, fuel);
      FlattenRefines(ss, env, fuel);
      var o, o2 := ExecuteAll(ss, env, fuel), ExecuteAll(FlatBody(ss), env, fuel);
      var n: nat :| Matches(o2, code, Steps(code, n, Running(0, s)), n, fuel);
      assert Matches(o, code, Steps(code, n, Running(0, s)), n, fuel);
    }
  }
}
