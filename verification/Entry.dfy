/** From the caller's argument moves through the prologue to the first instruction of the body: the
    frame then holds the arguments, as the compiled code expects. */
module Entry {
  import opened Words
  import opened Syntax
  import opened Machine
  import opened Emitter
  import opened Fragments
  import opened ExprCorrect
  import opened Flatten
  import opened Programs
  import C = CallConv
  import FL = FrameLayout

  /** Words are passed like integers. */
  function WordParams(params: seq<string>): (ps: seq<C.Param>)
    ensures |ps| == |params| && C.AllScalar(ps) && C.AllNamed(ps)
  {
    seq(|params|, i requires 0 <= i < |params| => C.Param(Some(params[i]), false, 8))
  }

  function Bound(params: seq<string>, args: seq<Word>): Env
    requires |args| == |params|
  {
    if params == [] then map[] else Bound(params[1..], args[1..])[params[0] := args[0]]
  }

  lemma {:induction false} BoundAt(params: seq<string>, args: seq<Word>, x: string) returns (i: nat)
    requires |args| == |params| && x in Bound(params, args)
    ensures i < |params| && params[i] == x && Bound(params, args)[x] == args[i]
    decreases |params|
  {
    i := 0;
    if x != params[0] {
      i := BoundAt(params[1..], args[1..], x);
      i := i + 1;
    }
  }

  /** The frame's words, wherever one begins, are those of the byte memory below rbp. */
  ghost predicate Shows(store: Store, cpu: C.Cpu, rbp: int, size: nat) {
    forall d: int | 0 <= d + size < size && InWord(cpu.mem(rbp + d).v) :: Get(store, M(d)) == cpu.mem(rbp + d).v
  }

  /** What the prologue makes of the state in which the function is entered. */
  function Received(params: seq<string>, rbp: int, entered: C.Cpu): Option<C.Cpu> {
    var ps := WordParams(params);
    C.RunReceives(C.Receives(ps, C.Expected(ps), C.Homes(ps, 0)), rbp, entered)
  }

  /** A caller has moved the arguments, the return address and the saved registers were pushed
      below them, and the prologue has run. */
  ghost predicate Called(params: seq<string>, args: seq<Word>, rbp: int, size: nat, store: Store) {
    |args| == |params| &&
    exists s: C.Cpu, entered: C.Cpu ::
      Passed(params, args, rbp, s, entered) && Started(params, rbp, entered, size, store)
  }

  ghost predicate Passed(params: seq<string>, args: seq<Word>, rbp: int, s: C.Cpu, entered: C.Cpu)
    requires |args| == |params|
  {
    var ps := WordParams(params);
    C.SameAbove(C.RunSends(C.Sends(ps), ps, args, rbp + 56, s), entered, rbp + 56)
  }

  ghost predicate Started(params: seq<string>, rbp: int, entered: C.Cpu, size: nat, store: Store) {
    var r := Received(params, rbp, entered);
    r.Some? ==> Shows(store, r.value, rbp, size)
  }

  lemma {:induction false} TreesMatch(params: seq<string>)
    ensures ParamTree(params) == C.ParamLeaves(WordParams(params))
    decreases |params|
  {
    if params == [] {
    } else {
      TreesMatch(params[1..]);
      assert WordParams(params)[1..] == WordParams(params[1..]);
      assert C.ParamLeaves(WordParams(params)) == [WordLeaf(params[0])] + C.ParamLeaves(WordParams(params[1..]));
    }
  }

  lemma NoFloats(ps: seq<C.Param>)
    requires forall p | p in ps :: !p.isFloat
    ensures C.LateFloats(ps)
  {
    forall i | 0 <= i < |ps|
      ensures !ps[i].isFloat
    {
      assert ps[i] in ps;
    }
  }

  lemma {:induction false} HomePositive(ps: seq<C.Param>, offset: nat, i: nat)
    requires C.AllScalar(ps) && C.AllNamed(ps) && i < |ps|
    ensures C.Homes(ps, offset)[i] > 0
    decreases |ps|
  {
    assert ps[0] in ps;
    if i > 0 {
      HomePositive(ps[1..], C.Homes(ps, offset)[0], i - 1);
    }
  }

  /** Each parameter has its home in the frame, where the prologue puts its argument. */
  lemma ParamHome(params: seq<string>, ss: seq<Stmt>, i: nat)
    requires WellFormed(params, ss) && i < |params| && FL.AllSized(FunctionTree(params, ss))
    ensures var fr, home := FrameOf(params, ss), C.Homes(WordParams(params), 0)[i];
      params[i] in fr.vars && fr.vars[params[i]] == home && 0 < home <= fr.size
  {
    var ps := WordParams(params);
    TreesMatch(params);
    TreeIsSound(params, ss);
    HomePositive(ps, 0, i);
    hide TreeOfAll, ParamTree, FL.PlaceScope, FL.ScopeEnd, FL.Names, FL.Unique, FL.AllSized, C.Homes, C.ParamLeaves,
      WellFormed;
    C.HomesMatch(ps, TreeOfAll(ss), map[], i);
    LayoutIsCompilable(params, ss);
  }

  lemma WordShown(store: Store, cpu: C.Cpu, rbp: int, size: nat, home: int, w: Word)
    requires Shows(store, cpu, rbp, size) && 0 < home <= size && C.HasMem(cpu, rbp - home, 8, w)
    ensures Get(store, M(-home)) == w
  {
    assert cpu.mem(rbp + -home) == C.Byte(w, 0);
  }

  /** The frame of a called function holds the arguments under the names of the parameters. */
  lemma CallAgrees(params: seq<string>, ss: seq<Stmt>, args: seq<Word>, rbp: int, store: Store)
    requires WellFormed(params, ss) && FL.AllSized(FunctionTree(params, ss))
    requires Called(params, args, rbp, FrameOf(params, ss).size, store)
    ensures Agrees(FrameOf(params, ss), Bound(params, args), store)
  {
    var ps, fr := WordParams(params), FrameOf(params, ss);
    var s, entered :| Passed(params, args, rbp, s, entered) && Started(params, rbp, entered, fr.size, store);
    NoFloats(ps);
    C.CallDelivers(ps, args, rbp + 56, rbp, s, entered);
    var cpu := Received(params, rbp, entered).value;
    hide C.RunSends, C.RunReceives, C.Receives, C.Homes, C.HasMem, FrameOf, WellFormed, Bound, Shows, Passed;
    forall x | x in Bound(params, args)
      ensures x in fr.vars && Get(store, M(Local(fr, x))) == Bound(params, args)[x]
    {
      var i := BoundAt(params, args, x);
      ParamHome(params, ss, i);
      WordShown(store, cpu, rbp, fr.size, C.Homes(ps, 0)[i], args[i]);
    }
  }

  lemma {:induction false} BoundNames(params: seq<string>, args: seq<Word>)
    requires |args| == |params|
    ensures Bound(params, args).Keys <= NamesIn(params)
  {
    forall x | x in Bound(params, args)
      ensures x in params
    {
      var i := BoundAt(params, args, x);
    }
  }

  /** The compiler and the calling convention together: whoever calls the function with whatever
      arguments, the code does what the source does with the parameters bound to them. */
  method CompileForCalls(params: seq<string>, ss: seq<Stmt>) returns (code: seq<Instr>, fr: Frame)
    requires WellFormed(params, ss)
    ensures forall args: seq<Word>, rbp: int, store: Store, fuel: nat | Called(params, args, rbp, fr.size, store) ::
      Behaves(code, ss, Bound(params, args), store, fuel)
  {
    code, fr := CompileSource(params, ss);
    hide WellFormed, Behaves, Called, FrameOf, FunctionTree, Agrees;
    forall args: seq<Word>, rbp: int, store: Store, fuel: nat | Called(params, args, rbp, fr.size, store)
      ensures Behaves(code, ss, Bound(params, args), store, fuel)
    {
      CalledArity(params, args, rbp, fr.size, store);
      CallAgrees(params, FlatBody(ss), args, rbp, store);
      BoundNames(params, args);
    }
  }

  lemma CalledArity(params: seq<string>, args: seq<Word>, rbp: int, size: nat, store: Store)
    requires Called(params, args, rbp, size, store)
    ensures |args| == |params|
  {
  }
}
