/** Flattening of nested blocks: the code stays the same, and so does the meaning. */
module Flatten {
  import opened Basics
  import opened Words
  import opened Syntax
  import opened StackIr

  predicate Block(s: Stmt) {
    s.List? || s.Scope?
  }

  /** A block of the one kind with the body of another. */
  function Rekind(like: Stmt, s: Stmt): Stmt
    requires Block(like) && Block(s)
  {
    if like.List? then List(s.body) else Scope(s.body)
  }

  predicate OnlyScope(ss: seq<Stmt>) {
    |ss| == 1 && ss[0].Scope?
  }

  /** A statement that stands alone. */
  function FlatOne(s: Stmt): (r: Stmt)
    ensures Block(s) <==> Block(r)
    decreases s, 0
  {
    match s
    case Loop(c, b) => Loop(c, FlatOne(b))
    case Branch(c, t, f) => Branch(c, FlatOne(t), if f.Some? then Some(FlatOne(f.value)) else None)
    case List(ss) => if OnlyScope(ss) then Rekind(s, FlatOne(ss[0])) else List(FlatAll(ss))
    case Scope(ss) => if OnlyScope(ss) then Rekind(s, FlatOne(ss[0])) else Scope(FlatAll(ss))
    case _ => s
  }

  /** What a statement inside a list becomes: empty blocks vanish, lists are spliced. */
  function FlatIn(s: Stmt): seq<Stmt>
    decreases s, 1
  {
    if Block(s) && s.body == [] then []
    else if s.List? && !OnlyScope(s.body) then FlatAll(s.body)
    else [FlatOne(s)]
  }

  function FlatAll(ss: seq<Stmt>): seq<Stmt>
    decreases ss, 0
  {
    if ss == [] then [] else FlatIn(ss[0]) + FlatAll(ss[1..])
  }

  /** A function's body is a list that stands alone. */
  function FlatBody(ss: seq<Stmt>): seq<Stmt> {
    FlatOne(List(ss)).body
  }

  // ----- as the source does it -----

  class StmtList {
    var inner: seq<Stmt>

    constructor ()
      ensures inner == []
    {
      inner := [];
    }

    method Add(s: Option<Stmt>)
      modifies this
      ensures inner == old(inner) + if s.Some? then [s.value] else []
    {
      if s.Some? {
        inner := inner + [s.value];
      }
    }
  }

  /** With a list to append to, a block may be spliced into it or disappear: nothing is returned. */
  method FlattenAst(ast: Stmt, list: StmtList?) returns (result: Option<Stmt>)
    modifies list
    ensures list == null ==> result == Some(FlatOne(ast))
    ensures list != null ==>
        list.inner + (if result.Some? then [result.value] else []) == old(list.inner) + FlatIn(ast)
    decreases ast, 0
  {
    if !Block(ast) {
      var r := ast;
      if ast.Loop? {
        var body := FlattenAst(ast.inner, null);
        r := Loop(ast.cond, body.value);
      } else if ast.Branch? {
        var then_ := FlattenAst(ast.then_, null);
        var otherwise: Option<Stmt> := None;
        if ast.otherwise.Some? {
          otherwise := FlattenAst(ast.otherwise.value, null);
        }
        r := Branch(ast.when, then_.value, otherwise);
      }
      assert r == FlatOne(ast);
      return Some(r);
    }
    if list != null && ast.body == [] {
      assert old(list.inner) + [] == old(list.inner);
      return None;
    }
    if OnlyScope(ast.body) {
      var flattened := FlattenAst(ast.body[0], null);
      assert Rekind(ast, flattened.value) == FlatOne(ast);
      return Some(Rekind(ast, flattened.value));
    }
    if ast.List? && list != null {
      FlattenInto(ast.body, list);
      assert list.inner + [] == list.inner;
      return None;
    }
    var newList := new StmtList();
    FlattenInto(ast.body, newList);
    assert newList.inner == FlatAll(ast.body);
    result := Some(if ast.List? then List(newList.inner) else Scope(newList.inner));
    assert result.value == FlatOne(ast);
  }

  /** The loop over the children of a block. */
  method FlattenInto(ss: seq<Stmt>, list: StmtList)
    modifies list
    ensures list.inner == old(list.inner) + FlatAll(ss)
    decreases ss, 1
  {
    for i := 0 to |ss|
      invariant list.inner + FlatAll(ss[i..]) == old(list.inner) + FlatAll(ss)
    {
      assert ss[i..][1..] == ss[i + 1..];
      ghost var before := list.inner;
      var child := FlattenAst(ss[i], list);
      list.Add(child);
      assert list.inner == before + FlatIn(ss[i]);
      Assoc(before, FlatIn(ss[i]), FlatAll(ss[i + 1..]));
    }
    assert list.inner + [] == list.inner;
  }

  // ----- the code stays the same -----

  lemma {:induction false} AllAppend(a: seq<Stmt>, b: seq<Stmt>, vars: Offsets)
    ensures AssembleAll(a + b, vars) == AssembleAll(a, vars) + AssembleAll(b, vars)
    decreases |a|
  {
    if a == [] {
      assert a + b == b;
    } else {
      assert (a + b)[1..] == a[1..] + b;
      AllAppend(a[1..], b, vars);
      Assoc(AssembleStmt(a[0], vars) + Popped(a[0]), AssembleAll(a[1..], vars), AssembleAll(b, vars));
    }
  }

  lemma AllOne(s: Stmt, vars: Offsets)
    ensures AssembleAll([s], vars) == AssembleStmt(s, vars) + Popped(s)
  {
    assert [s][1..] == [];
    var a := AssembleStmt(s, vars) + Popped(s);
    assert a + [] == a;
  }

  lemma {:induction false} SameOne(s: Stmt, vars: Offsets)
    ensures AssembleStmt(FlatOne(s), vars) == AssembleStmt(s, vars) && LeavesItem(FlatOne(s)) == LeavesItem(s)
    decreases s, 0
  {
    match s
    case Loop(c, b) => SameOne(b, vars);
    case Branch(c, t, f) =>
      SameOne(t, vars);
      if f.Some? {
        SameOne(f.value, vars);
      }
    case List(ss) => SameBlock(ss, vars);
    case Scope(ss) => SameBlock(ss, vars);
    case _ =>
  }

  lemma {:induction false} SameBlock(ss: seq<Stmt>, vars: Offsets)
    ensures if OnlyScope(ss) then AssembleAll(FlatOne(ss[0]).body, vars) == AssembleAll(ss, vars)
            else AssembleAll(FlatAll(ss), vars) == AssembleAll(ss, vars)
    decreases ss, 2
  {
    if OnlyScope(ss) {
      assert ss == [ss[0]];
      AllOne(ss[0], vars);
      SameOne(ss[0], vars);
      var a := AssembleAll(FlatOne(ss[0]).body, vars);
      assert a + [] == a;
    } else {
      SameAll(ss, vars);
    }
  }

  lemma {:induction false} SameIn(s: Stmt, vars: Offsets)
    ensures AssembleAll(FlatIn(s), vars) == AssembleStmt(s, vars) + Popped(s)
    decreases s, 1
  {
    var a := AssembleStmt(s, vars);
    assert a + [] == a;
    if Block(s) && s.body == [] {
    } else if s.List? && !OnlyScope(s.body) {
      SameAll(s.body, vars);
    } else {
      SameOne(s, vars);
      AllOne(FlatOne(s), vars);
    }
  }

  lemma {:induction false} SameAll(ss: seq<Stmt>, vars: Offsets)
    ensures AssembleAll(FlatAll(ss), vars) == AssembleAll(ss, vars)
    decreases ss, 1
  {
    if ss == [] {
    } else {
      SameIn(ss[0], vars);
      SameAll(ss[1..], vars);
      AllAppend(FlatIn(ss[0]), FlatAll(ss[1..]), vars);
    }
  }

  /** The IR of a body is the same before and after flattening. */
  lemma FlattenKeepsIr(ss: seq<Stmt>, vars: Offsets)
    ensures AssembleAll(FlatBody(ss), vars) == AssembleAll(ss, vars)
  {
    SameBlock(ss, vars);
  }

  // ----- what is left of the nesting -----

  /** No list stands inside a list, at any depth. */
  predicate Spliced(ss: seq<Stmt>) {
    ss == [] || (!ss[0].List? && SplicedIn(ss[0]) && Spliced(ss[1..]))
  }

  predicate SplicedIn(s: Stmt) {
    match s
    case Loop(_, b) => SplicedIn(b)
    case Branch(_, t, f) => SplicedIn(t) && (f.Some? ==> SplicedIn(f.value))
    case List(ss) => Spliced(ss)
    case Scope(ss) => Spliced(ss)
    case _ => true
  }

  /** No list that stands inside a list has a scope as its only child, at any depth that is left when
      such children are taken for their parents. */
  predicate Unwrapped(ss: seq<Stmt>) {
    ss == [] || (!(ss[0].List? && OnlyScope(ss[0].body)) && UnwrappedIn(ss[0]) && Unwrapped(ss[1..]))
  }

  predicate UnwrappedIn(s: Stmt) {
    match s
    case Loop(_, b) => UnwrappedIn(b)
    case Branch(_, t, f) => UnwrappedIn(t) && (f.Some? ==> UnwrappedIn(f.value))
    case List(ss) => if OnlyScope(ss) then UnwrappedIn(ss[0]) else Unwrapped(ss)
    case Scope(ss) => if OnlyScope(ss) then UnwrappedIn(ss[0]) else Unwrapped(ss)
    case _ => true
  }

  lemma {:induction false} SplicedAppend(a: seq<Stmt>, b: seq<Stmt>)
    ensures Spliced(a + b) <==> Spliced(a) && Spliced(b)
    decreases |a|
  {
    if a == [] {
      assert a + b == b;
    } else {
      assert (a + b)[1..] == a[1..] + b;
      SplicedAppend(a[1..], b);
    }
  }

  lemma {:induction false} SplicedOne(s: Stmt)
    ensures SplicedIn(FlatOne(s)) <==> UnwrappedIn(s)
    ensures FlatOne(s).List? <==> s.List?
    decreases s, 0
  {
    match s
    case Loop(_, b) => SplicedOne(b);
    case Branch(_, t, f) =>
      SplicedOne(t);
      if f.Some? {
        SplicedOne(f.value);
      }
    case List(ss) => SplicedBlock(ss);
    case Scope(ss) => SplicedBlock(ss);
    case _ =>
  }

  lemma {:induction false} SplicedBlock(ss: seq<Stmt>)
    ensures if OnlyScope(ss) then SplicedIn(FlatOne(ss[0])) <==> UnwrappedIn(ss[0])
            else Spliced(FlatAll(ss)) <==> Unwrapped(ss)
    decreases ss, 2
  {
    if OnlyScope(ss) {
      SplicedOne(ss[0]);
    } else {
      SplicedAll(ss);
    }
  }

  lemma {:induction false} SplicedAll(ss: seq<Stmt>)
    ensures Spliced(FlatAll(ss)) <==> Unwrapped(ss)
    decreases ss, 1
  {
    if ss == [] {
      return;
    }
    var s := ss[0];
    SplicedAll(ss[1..]);
    SplicedAppend(FlatIn(s), FlatAll(ss[1..]));
    if Block(s) && s.body == [] {
      assert Unwrapped(s.body) && UnwrappedIn(s);
    } else if s.List? && !OnlyScope(s.body) {
      SplicedAll(s.body);
    } else {
      SplicedOne(s);
      assert [FlatOne(s)][1..] == [];
    }
  }

  /** In a flattened body no list stands inside a list if and only if none was there that had a scope
      as its only child: such a one becomes a list with the contents of the scope, and stays. */
  lemma SplicedExactly(ss: seq<Stmt>)
    ensures Spliced(FlatBody(ss)) <==> UnwrappedIn(List(ss))
  {
    SplicedOne(List(ss));
  }

  /** No empty block stands inside a list, at any depth. */
  predicate NoEmpty(ss: seq<Stmt>) {
    ss == [] || (!(Block(ss[0]) && ss[0].body == []) && NoEmptyIn(ss[0]) && NoEmpty(ss[1..]))
  }

  predicate NoEmptyIn(s: Stmt) {
    match s
    case Loop(_, b) => NoEmptyIn(b)
    case Branch(_, t, f) => NoEmptyIn(t) && (f.Some? ==> NoEmptyIn(f.value))
    case List(ss) => NoEmpty(ss)
    case Scope(ss) => NoEmpty(ss)
    case _ => true
  }

  /** Nothing but empty blocks, in lists as deep as one likes. */
  predicate Vanishes(ss: seq<Stmt>) {
    ss == [] || (VanishesIn(ss[0]) && Vanishes(ss[1..]))
  }

  predicate VanishesIn(s: Stmt) {
    Block(s) && (s.body == [] || (s.List? && !OnlyScope(s.body) && Vanishes(s.body)))
  }

  /** A block with nothing but that in it. */
  predicate Hollow(s: Stmt) {
    match s
    case List(ss) => if OnlyScope(ss) then Hollow(ss[0]) else Vanishes(ss)
    case Scope(ss) => if OnlyScope(ss) then Hollow(ss[0]) else Vanishes(ss)
    case _ => false
  }

  /** No block stands inside a list that is hollow without being empty, unless it is spliced. */
  predicate Solid(ss: seq<Stmt>) {
    ss == [] || (SolidThere(ss[0]) && Solid(ss[1..]))
  }

  predicate SolidThere(s: Stmt)
    decreases s, 1
  {
    if Block(s) && s.body == [] then true
    else if s.List? && !OnlyScope(s.body) then Solid(s.body)
    else !Hollow(s) && SolidIn(s)
  }

  predicate SolidIn(s: Stmt)
    decreases s, 0
  {
    match s
    case Loop(_, b) => SolidIn(b)
    case Branch(_, t, f) => SolidIn(t) && (f.Some? ==> SolidIn(f.value))
    case List(ss) => if OnlyScope(ss) then SolidIn(ss[0]) else Solid(ss)
    case Scope(ss) => if OnlyScope(ss) then SolidIn(ss[0]) else Solid(ss)
    case _ => true
  }

  lemma {:induction false} NoEmptyAppend(a: seq<Stmt>, b: seq<Stmt>)
    ensures NoEmpty(a + b) <==> NoEmpty(a) && NoEmpty(b)
    decreases |a|
  {
    if a == [] {
      assert a + b == b;
    } else {
      assert (a + b)[1..] == a[1..] + b;
      NoEmptyAppend(a[1..], b);
    }
  }

  lemma {:induction false} VanishExactly(ss: seq<Stmt>)
    ensures FlatAll(ss) == [] <==> Vanishes(ss)
    decreases ss
  {
    if ss == [] {
    } else {
      VanishExactly(ss[1..]);
      if Block(ss[0]) {
        VanishExactly(ss[0].body);
      }
    }
  }

  lemma {:induction false} HollowExactly(s: Stmt)
    requires Block(s)
    ensures FlatOne(s).body == [] <==> Hollow(s)
    decreases s
  {
    if OnlyScope(s.body) {
      HollowExactly(s.body[0]);
    } else {
      VanishExactly(s.body);
    }
  }

  lemma {:induction false} SolidOne(s: Stmt)
    ensures NoEmptyIn(FlatOne(s)) <==> SolidIn(s)
    decreases s, 0
  {
    match s
    case Loop(_, b) => SolidOne(b);
    case Branch(_, t, f) =>
      SolidOne(t);
      if f.Some? {
        SolidOne(f.value);
      }
    case List(ss) => SolidBlock(ss);
    case Scope(ss) => SolidBlock(ss);
    case _ =>
  }

  lemma {:induction false} SolidBlock(ss: seq<Stmt>)
    ensures if OnlyScope(ss) then NoEmptyIn(FlatOne(ss[0])) <==> SolidIn(ss[0])
            else NoEmpty(FlatAll(ss)) <==> Solid(ss)
    decreases ss, 2
  {
    if OnlyScope(ss) {
      SolidOne(ss[0]);
    } else {
      SolidAll(ss);
    }
  }

  lemma {:induction false} SolidAll(ss: seq<Stmt>)
    ensures NoEmpty(FlatAll(ss)) <==> Solid(ss)
    decreases ss, 1
  {
    if ss == [] {
      return;
    }
    var s := ss[0];
    SolidAll(ss[1..]);
    NoEmptyAppend(FlatIn(s), FlatAll(ss[1..]));
    if Block(s) && s.body == [] {
    } else if s.List? && !OnlyScope(s.body) {
      SolidAll(s.body);
    } else {
      SolidOne(s);
      if Block(s) {
        HollowExactly(s);
      }
      assert [FlatOne(s)][1..] == [];
    }
  }

  /** In a flattened body no empty block stands inside a list if and only if no block was there whose
      contents vanish with the flattening: only those that were empty before are removed. */
  lemma SolidExactly(ss: seq<Stmt>)
    ensures NoEmpty(FlatBody(ss)) <==> SolidIn(List(ss))
  {
    SolidOne(List(ss));
  }

  /** One of each kind that stays: a list in a list, and an empty scope. */
  lemma Leftovers(e: Expr) returns (ss: seq<Stmt>)
    ensures FlatBody(ss) == [List([Eval(e), Eval(e)]), Scope([])]
  {
    var inner := [Eval(e), Eval(e)];
    var wrapped, hollow := List([Scope(inner)]), Scope([List([])]);
    ss := [wrapped, hollow];
    assert inner[1..] == [Eval(e)] && [Eval(e)][1..] == [];
    assert FlatIn(Eval(e)) == [Eval(e)];
    assert FlatAll([Eval(e)]) == [Eval(e)] + FlatAll([]);
    assert FlatAll(inner) == [Eval(e)] + FlatAll([Eval(e)]) == inner;
    assert FlatOne(Scope(inner)) == Scope(inner);
    assert FlatOne(wrapped) == List(inner);
    assert [List([])][1..] == [] && FlatIn(List([])) == [];
    assert FlatAll([List([])]) == [];
    assert FlatOne(hollow) == Scope([]);
    assert ss[1..] == [hollow] && ss[1..][1..] == [];
    assert FlatAll([hollow]) == [Scope([])];
    assert FlatAll(ss) == [List(inner)] + [Scope([])];
  }

  // ----- the meaning stays the same -----

  /** Everything known in env is known alike in env2. */
  predicate Extends(env: Env, env2: Env) {
    forall x | x in env :: x in env2 && env2[x] == env[x]
  }

  /** What may have happened instead: nothing else, unless the source left it open. */
  predicate Refines(o: Outcome, o2: Outcome) {
    match o
    case Normal(env) => o2.Normal? && Extends(env, o2.env)
    case Broke(env) => o2.Broke? && Extends(env, o2.env)
    case Returned(w) => o2 == o
    case Faulted => o2 == o
    case OutOfFuel => o2 == o
    case Unspecified => true
  }

  lemma {:induction false} MeaningExtends(e: Expr, env: Env, env2: Env)
    requires Extends(env, env2) && !Meaning(e, env).Undefined?
    ensures Meaning(e, env2) == Meaning(e, env)
    decreases e
  {
    match e
    case Lit(_) =>
    case Var(_) =>
    case Unary(_, i) => MeaningExtends(i, env, env2);
    case Cast(i) => MeaningExtends(i, env, env2);
    case Binary(_, l, r) => MeaningExtends(l, env, env2); MeaningExtends(r, env, env2);
    case Logic(op, l, r) =>
      MeaningExtends(l, env, env2);
      if !Meaning(r, env).Undefined? {
        MeaningExtends(r, env, env2);
      }
    case Cond(c, t, f) =>
      MeaningExtends(c, env, env2);
      if Meaning(c, env).Value? {
        if Meaning(c, env).w != 0 {
          MeaningExtends(t, env, env2);
        } else {
          MeaningExtends(f, env, env2);
        }
      }
    case Comma(l, r) =>
      MeaningExtends(l, env, env2);
      if Meaning(l, env).Value? {
        MeaningExtends(r, env, env2);
      }
  }

  lemma {:induction false} AppendRuns(a: seq<Stmt>, b: seq<Stmt>, env: Env, fuel: nat)
    ensures var o := ExecuteAll(a, env, fuel);
      ExecuteAll(a + b, env, fuel) == if o.Normal? then ExecuteAll(b, o.env, fuel) else o
    decreases |a|
  {
    if a == [] {
      assert a + b == b;
    } else {
      assert (a + b)[1..] == a[1..] + b;
      var o := Execute(a[0], env, fuel);
      if o.Normal? {
        AppendRuns(a[1..], b, o.env, fuel);
      }
    }
  }

  lemma OneRuns(s: Stmt, env: Env, fuel: nat)
    ensures ExecuteAll([s], env, fuel) == Execute(s, env, fuel)
  {
    assert [s][1..] == [];
  }

  lemma LeaveRefines(o: Outcome, o2: Outcome, names: set<string>, names2: set<string>)
    requires Refines(o, o2) && names2 <= names
    ensures Refines(Leave(o, names), Leave(o2, names2))
  {
  }

  lemma {:induction false} DeclaredAppend(a: seq<Stmt>, b: seq<Stmt>)
    ensures DeclaredIn(a + b) == DeclaredIn(a) + DeclaredIn(b)
    decreases |a|
  {
    if a == [] {
      assert a + b == b;
    } else {
      assert (a + b)[1..] == a[1..] + b;
      DeclaredAppend(a[1..], b);
    }
  }

  lemma DeclaredOne(s: Stmt)
    ensures DeclaredIn([s]) == Declared(s)
  {
    assert [s][1..] == [];
  }

  lemma {:induction false} OneDeclares(s: Stmt)
    ensures Declared(FlatOne(s)) == Declared(s)
    decreases s, 0
  {
    match s
    case Loop(_, b) => OneDeclares(b);
    case Branch(_, t, f) =>
      OneDeclares(t);
      if f.Some? {
        OneDeclares(f.value);
      }
    case List(ss) => BlockDeclares(ss);
    case Scope(ss) => BlockDeclares(ss);
    case _ =>
  }

  lemma {:induction false} BlockDeclares(ss: seq<Stmt>)
    ensures DeclaredIn(if OnlyScope(ss) then FlatOne(ss[0]).body else FlatAll(ss)) == DeclaredIn(ss)
    decreases ss, 2
  {
    if OnlyScope(ss) {
      assert ss == [ss[0]];
      DeclaredOne(ss[0]);
      OneDeclares(ss[0]);
    } else {
      AllDeclare(ss);
    }
  }

  lemma {:induction false} InDeclares(s: Stmt)
    ensures DeclaredIn(FlatIn(s)) == Declared(s)
    decreases s, 1
  {
    if Block(s) && s.body == [] {
    } else if s.List? && !OnlyScope(s.body) {
      AllDeclare(s.body);
    } else {
      OneDeclares(s);
      DeclaredOne(FlatOne(s));
    }
  }

  lemma {:induction false} AllDeclare(ss: seq<Stmt>)
    ensures DeclaredIn(FlatAll(ss)) == DeclaredIn(ss)
    decreases ss, 1
  {
    if ss == [] {
    } else {
      InDeclares(ss[0]);
      AllDeclare(ss[1..]);
      DeclaredAppend(FlatIn(ss[0]), FlatAll(ss[1..]));
    }
  }

  /** Forgetting names on the left, or remembering them on the right, refines. */
  lemma MoreKnown(o: Outcome, o2: Outcome, names: set<string>, names2: set<string>)
    requires Refines(o, Leave(o2, names2))
    ensures Refines(Leave(o, names), o2) && Refines(o, o2)
  {
  }

  lemma {:induction false} OneRefines(s: Stmt, env: Env, env2: Env, fuel: nat)
    requires Extends(env, env2)
    ensures Refines(Execute(s, env, fuel), Execute(FlatOne(s), env2, fuel))
    decreases fuel, s, 0
  {
    match s
    case Loop(c, b) => LoopRefines(c, b, env, env2, fuel);
    case Branch(c, t, f) => BranchRefines(c, t, f, env, env2, fuel);
    case List(ss) =>
      if OnlyScope(ss) {
        ScopeRefines(ss[0], env, env2, fuel);
        assert ss == [ss[0]];
        OneRuns(ss[0], env, fuel);
      } else {
        AllRefines(ss, env, env2, fuel);
      }
    case Scope(ss) =>
      if OnlyScope(ss) {
        OneRefines(ss[0], env, env2, fuel);
        assert ss == [ss[0]];
        OneRuns(ss[0], env, fuel);
        LeaveLeft(Execute(ss[0], env, fuel), Execute(FlatOne(s), env2, fuel), DeclaredIn(ss));
      } else {
        AllRefines(ss, env, env2, fuel);
        AllDeclare(ss);
        LeaveRefines(ExecuteAll(ss, env, fuel), ExecuteAll(FlatAll(ss), env2, fuel), DeclaredIn(ss), DeclaredIn(ss));
      }
    case _ => SimpleRefines(s, env, env2, fuel);
  }

  lemma LeaveLeft(o: Outcome, o2: Outcome, names: set<string>)
    requires Refines(o, o2)
    ensures Refines(Leave(o, names), o2)
  {
  }

  /** The body of a flattened scope, without leaving the scope. */
  lemma {:induction false} ScopeRefines(s: Stmt, env: Env, env2: Env, fuel: nat)
    requires Extends(env, env2) && s.Scope?
    ensures Refines(Execute(s, env, fuel), ExecuteAll(FlatOne(s).body, env2, fuel))
    decreases fuel, s, 1
  {
    OneRefines(s, env, env2, fuel);
    var body := FlatOne(s).body;
    MoreKnown(Execute(s, env, fuel), ExecuteAll(body, env2, fuel), {}, DeclaredIn(body));
  }

  lemma SimpleRefines(s: Stmt, env: Env, env2: Env, fuel: nat)
    requires Extends(env, env2) && !Block(s) && !s.Loop? && !s.Branch?
    ensures Refines(Execute(s, env, fuel), Execute(s, env2, fuel))
  {
    match s
    case Eval(e) =>
      if !Meaning(e, env).Undefined? {
        MeaningExtends(e, env, env2);
      }
    case Assign(_, e) =>
      if !Meaning(e, env).Undefined? {
        MeaningExtends(e, env, env2);
      }
    case OpAssign(_, x, e) =>
      if !Meaning(e, env).Undefined? && x in env {
        MeaningExtends(e, env, env2);
      }
    case Return(v) =>
      if v.Some? && !Meaning(v.value, env).Undefined? {
        MeaningExtends(v.value, env, env2);
      }
    case _ =>
  }

  lemma {:induction false} BranchRefines(c: Expr, t: Stmt, f: Option<Stmt>, env: Env, env2: Env, fuel: nat)
    requires Extends(env, env2)
    ensures var s := Branch(c, t, f);
      Refines(Execute(s, env, fuel), Execute(FlatOne(s), env2, fuel))
    decreases fuel, Branch(c, t, f), -1
  {
    var a := Meaning(c, env);
    if !a.Undefined? {
      MeaningExtends(c, env, env2);
      if a.Value? && a.w != 0 {
        OneRefines(t, env, env2, fuel);
        OneDeclares(t);
        LeaveRefines(Execute(t, env, fuel), Execute(FlatOne(t), env2, fuel), Declared(t), Declared(t));
      } else if a.Value? && f.Some? {
        OneRefines(f.value, env, env2, fuel);
        OneDeclares(f.value);
        LeaveRefines(Execute(f.value, env, fuel), Execute(FlatOne(f.value), env2, fuel), Declared(f.value),
                     Declared(f.value));
      }
    }
  }

  lemma {:induction false} LoopRefines(c: Option<Expr>, b: Stmt, env: Env, env2: Env, fuel: nat)
    requires Extends(env, env2)
    ensures var s := Loop(c, b);
      Refines(Execute(s, env, fuel), Execute(FlatOne(s), env2, fuel))
    decreases fuel, Loop(c, b), -1
  {
    if fuel > 0 {
      var a := if c.Some? then Meaning(c.value, env) else Value(1);
      if !a.Undefined? {
        if c.Some? {
          MeaningExtends(c.value, env, env2);
        }
        if a.Value? && a.w != 0 {
          OneRefines(b, env, env2, fuel - 1);
          OneDeclares(b);
          var o, o2 := Execute(b, env, fuel - 1), Execute(FlatOne(b), env2, fuel - 1);
          LeaveRefines(o, o2, Declared(b), Declared(b));
          if o.Normal? {
            LoopRefines(c, b, Leave(o, Declared(b)).env, Leave(o2, Declared(b)).env, fuel - 1);
          }
        }
      }
    }
  }

  lemma {:induction false} InRefines(s: Stmt, env: Env, env2: Env, fuel: nat)
    requires Extends(env, env2)
    ensures Refines(Execute(s, env, fuel), ExecuteAll(FlatIn(s), env2, fuel))
    decreases fuel, s, 2
  {
    if Block(s) && s.body == [] {
      assert ExecuteAll(s.body, env, fuel) == Normal(env) && DeclaredIn(s.body) == {};
      assert Execute(s, env, fuel).Normal? && Extends(Execute(s, env, fuel).env, env);
    } else if s.List? && !OnlyScope(s.body) {
      AllRefines(s.body, env, env2, fuel);
    } else {
      OneRefines(s, env, env2, fuel);
      OneRuns(FlatOne(s), env2, fuel);
    }
  }

  lemma {:induction false} AllRefines(ss: seq<Stmt>, env: Env, env2: Env, fuel: nat)
    requires Extends(env, env2)
    ensures Refines(ExecuteAll(ss, env, fuel), ExecuteAll(FlatAll(ss), env2, fuel))
    decreases fuel, ss, 1
  {
    if ss == [] {
    } else {
      InRefines(ss[0], env, env2, fuel);
      AppendRuns(FlatIn(ss[0]), FlatAll(ss[1..]), env2, fuel);
      var o, o2 := Execute(ss[0], env, fuel), ExecuteAll(FlatIn(ss[0]), env2, fuel);
      if o.Normal? {
        AllRefines(ss[1..], o.env, o2.env, fuel);
      }
    }
  }

  /** A flattened body does what the body did. */
  lemma FlattenRefines(ss: seq<Stmt>, env: Env, fuel: nat)
    ensures Refines(ExecuteAll(ss, env, fuel), ExecuteAll(FlatBody(ss), env, fuel))
  {
    OneRefines(List(ss), env, env, fuel);
  }
}
