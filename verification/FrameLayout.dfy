/** Stack frames: a tree of scopes is walked once, and every named variable gets its place.
    Places count bytes downward from rbp: a variable of size n at offset o is [o - n, o). */
module FrameLayout {
  import opened Basics
  import opened Syntax

  datatype SizeTree =
    | Leaf(name: Option<string>, size: nat, align: nat, isGlobal: bool)
    | Node(children: seq<SizeTree>)

  datatype Placement = Global | OnStack(offset: nat)

  type Places = map<string, Placement>

  predicate WellSized(t: SizeTree) {
    t.Leaf? ==> t.align > 0
  }

  predicate AllSized(cs: seq<SizeTree>) {
    cs == [] || (WellSized(cs[0]) && (cs[0].Node? ==> AllSized(cs[0].children)) && AllSized(cs[1..]))
  }

  // ----- the layout as a function -----

  function AlignUp(size: nat, align: nat): (r: nat)
    requires align > 0
    ensures size <= r < size + align && r % align == 0
  {
    PadDivides(size, align);
    if size % align != 0 then size + (align - size % align) else size
  }

  lemma PadDivides(size: nat, align: nat)
    requires align > 0
    ensures (size + (align - size % align)) % align == 0
  {
    var q := size / align;
    assert size + (align - size % align) == align * (q + 1);
    MultipleDivides(align, q + 1);
  }

  lemma MultipleDivides(a: nat, k: nat)
    requires a > 0
    ensures (a * k) % a == 0
  {
    RestOf(a, k, 0);
  }

  lemma RestOf(d: nat, q: nat, r: nat)
    requires r < d
    ensures d * q + r >= 0 && (d * q + r) % d == r
  {
    NotNegative(d, q);
    var n := d * q + r;
    var e: int := q - n / d;
    assert n == d * (n / d) + n % d;
    assert d * e == n % d - r;
    Stretched(d, e);
  }

  predicate Placed(t: SizeTree) {
    t.Leaf? && t.name.Some?
  }

  /** Where a leaf starts, and where the next one may start. */
  function Start(t: SizeTree, size: nat): nat
    requires WellSized(t) && Placed(t)
  {
    AlignUp(size, t.align)
  }

  function Grow(t: SizeTree, size: nat): (r: nat)
    requires WellSized(t)
    ensures r >= size
  {
    if !Placed(t) then size
    else if t.isGlobal then Start(t, size)
    else Start(t, size) + t.size
  }

  function Place(t: SizeTree, size: nat, vars: Places): Places
    requires WellSized(t)
  {
    if !Placed(t) then vars
    else vars[t.name.value := if t.isGlobal then Global else OnStack(Grow(t, size))]
  }

  function LeavesEnd(cs: seq<SizeTree>, size: nat): (r: nat)
    requires AllSized(cs)
    ensures r >= size
  {
    if cs == [] then size else LeavesEnd(cs[1..], Grow(cs[0], size))
  }

  function PlaceLeaves(cs: seq<SizeTree>, size: nat, vars: Places): Places
    requires AllSized(cs)
  {
    if cs == [] then vars else PlaceLeaves(cs[1..], Grow(cs[0], size), Place(cs[0], size, vars))
  }

  /** All inner scopes start behind the leaves of this one, and share what comes there. */
  function NodesEnd(cs: seq<SizeTree>, base: nat, max: nat): (r: nat)
    requires AllSized(cs)
    ensures r >= max
    decreases cs, 1
  {
    if cs == [] then max
    else if cs[0].Leaf? then NodesEnd(cs[1..], base, max)
    else NodesEnd(cs[1..], base, Max(max, ScopeEnd(cs[0].children, base)))
  }

  function PlaceNodes(cs: seq<SizeTree>, base: nat, vars: Places): Places
    requires AllSized(cs)
    decreases cs, 1
  {
    if cs == [] then vars
    else if cs[0].Leaf? then PlaceNodes(cs[1..], base, vars)
    else PlaceNodes(cs[1..], base, PlaceScope(cs[0].children, base, vars))
  }

  function ScopeEnd(cs: seq<SizeTree>, base: nat): (r: nat)
    requires AllSized(cs)
    ensures r >= base
    decreases cs, 2
  {
    var end := LeavesEnd(cs, base);
    NodesEnd(cs, end, end)
  }

  function PlaceScope(cs: seq<SizeTree>, base: nat, vars: Places): Places
    requires AllSized(cs)
    decreases cs, 2
  {
    PlaceNodes(cs, LeavesEnd(cs, base), PlaceLeaves(cs, base, vars))
  }

  // ----- the layout as the source computes it -----

  class Allocator {
    var vars: Places

    constructor (globals: Places)
      ensures vars == globals
    {
      vars := globals;
    }

    /** Places the variables of one scope, then those of its inner scopes. */
    method Process(cs: seq<SizeTree>, parent: nat) returns (maxSize: nat)
      requires AllSized(cs)
      modifies this
      ensures maxSize == ScopeEnd(cs, parent)
      ensures vars == PlaceScope(cs, parent, old(vars))
      decreases cs
    {
      var size: nat := parent;
      for i := 0 to |cs|
        invariant AllSized(cs[i..])
        invariant LeavesEnd(cs, parent) == LeavesEnd(cs[i..], size)
        invariant PlaceLeaves(cs, parent, old(vars)) == PlaceLeaves(cs[i..], size, vars)
      {
        assert cs[i..][1..] == cs[i + 1..];
        var node := cs[i];
        if node.Leaf? && node.name.Some? {
          if size % node.align != 0 {
            size := size + (node.align - size % node.align);
          }
          var place := Global;
          if !node.isGlobal {
            place := OnStack(size + node.size);
            size := size + node.size;
          }
          vars := vars[node.name.value := place];
        }
      }
      maxSize := size;
      for i := 0 to |cs|
        invariant AllSized(cs[i..])
        invariant NodesEnd(cs, size, size) == NodesEnd(cs[i..], size, maxSize)
        invariant PlaceScope(cs, parent, old(vars)) == PlaceNodes(cs[i..], size, vars)
      {
        assert cs[i..][1..] == cs[i + 1..];
        if cs[i].Node? {
          var inner := Process(cs[i].children, size);
          if maxSize < inner {
            maxSize := inner;
          }
        }
      }
    }
  }

  // ----- names -----

  function NamesOf(t: SizeTree): set<string> {
    match t
    case Leaf(n, _, _, _) => if n.Some? then {n.value} else {}
    case Node(cs) => Names(cs)
  }

  function Names(cs: seq<SizeTree>): set<string> {
    if cs == [] then {} else NamesOf(cs[0]) + Names(cs[1..])
  }

  function LeafNames(cs: seq<SizeTree>): set<string> {
    if cs == [] then {} else (if cs[0].Leaf? then NamesOf(cs[0]) else {}) + LeafNames(cs[1..])
  }

  function NodeNames(cs: seq<SizeTree>): set<string> {
    if cs == [] then {} else (if cs[0].Node? then NamesOf(cs[0]) else {}) + NodeNames(cs[1..])
  }

  /** No name occurs twice anywhere. */
  predicate UniqueIn(t: SizeTree) {
    t.Node? ==> Unique(t.children)
  }

  predicate Unique(cs: seq<SizeTree>) {
    cs == [] || (UniqueIn(cs[0]) && NamesOf(cs[0]) !! Names(cs[1..]) && Unique(cs[1..]))
  }

  lemma {:induction false} NamesSplit(cs: seq<SizeTree>)
    ensures Names(cs) == LeafNames(cs) + NodeNames(cs)
    ensures Unique(cs) ==> LeafNames(cs) !! NodeNames(cs)
    decreases |cs|
  {
    if cs == [] {
    } else {
      NamesSplit(cs[1..]);
    }
  }

  // ----- what stays -----

  /** Names that a scope does not declare keep their places. */
  predicate Kept(vars: Places, vars': Places, changed: set<string>) {
    forall x | x in vars && x !in changed :: x in vars' && vars'[x] == vars[x]
  }

  lemma {:induction false} LeavesKeep(cs: seq<SizeTree>, size: nat, vars: Places)
    requires AllSized(cs)
    ensures Kept(vars, PlaceLeaves(cs, size, vars), LeafNames(cs))
    decreases |cs|
  {
    if cs == [] {
    } else {
      LeavesKeep(cs[1..], Grow(cs[0], size), Place(cs[0], size, vars));
    }
  }

  lemma {:induction false} NodesKeep(cs: seq<SizeTree>, base: nat, vars: Places)
    requires AllSized(cs)
    ensures Kept(vars, PlaceNodes(cs, base, vars), NodeNames(cs))
    decreases cs, 1
  {
    if cs == [] {
    } else if cs[0].Leaf? {
      NodesKeep(cs[1..], base, vars);
    } else {
      ScopeKeeps(cs[0].children, base, vars);
      NodesKeep(cs[1..], base, PlaceScope(cs[0].children, base, vars));
    }
  }

  lemma {:induction false} ScopeKeeps(cs: seq<SizeTree>, base: nat, vars: Places)
    requires AllSized(cs)
    ensures Kept(vars, PlaceScope(cs, base, vars), Names(cs))
    decreases cs, 2
  {
    LeavesKeep(cs, base, vars);
    NodesKeep(cs, LeavesEnd(cs, base), PlaceLeaves(cs, base, vars));
    NamesSplit(cs);
  }

  // ----- where things are -----

  /** The leaf has a place inside [lo, hi), aligned if and only if its size is a multiple of its
      alignment: the start of the padding is aligned, but the variable is addressed by its end. */
  predicate Within(t: SizeTree, vars: Places, lo: nat, hi: nat)
    requires WellSized(t) && Placed(t)
  {
    var x := t.name.value;
    && x in vars
    && if t.isGlobal then vars[x] == Global
       else
         && vars[x].OnStack?
         && lo + t.size <= vars[x].offset <= hi
         && (vars[x].offset % t.align == 0 <==> t.size % t.align == 0)
  }

  predicate OnFrame(t: SizeTree) {
    Placed(t) && !t.isGlobal
  }

  /** The byte ranges of two variables have nothing in common. */
  predicate Apart(s: SizeTree, t: SizeTree, vars: Places) {
    OnFrame(s) && OnFrame(t) && s.name.value in vars && t.name.value in vars
    && vars[s.name.value].OnStack? && vars[t.name.value].OnStack?
    && (vars[s.name.value].offset <= vars[t.name.value].offset - t.size
        || vars[t.name.value].offset <= vars[s.name.value].offset - s.size)
  }

  lemma SumDivides(a: nat, b: nat, d: nat)
    requires d > 0 && a % d == 0
    ensures (a + b) % d == 0 <==> b % d == 0
  {
    var q, k := a / d, b / d;
    assert a == d * q && b == d * k + b % d;
    assert a + b == d * (q + k) + b % d;
    RestOf(d, q + k, b % d);
  }

  /** The leaves of a scope follow each other. */
  ghost predicate LeavesLaid(cs: seq<SizeTree>, vars: Places, lo: nat)
    requires AllSized(cs)
  {
    cs == [] ||
    (&& (Placed(cs[0]) ==> Within(cs[0], vars, lo, Grow(cs[0], lo)))
     && LeavesLaid(cs[1..], vars, Grow(cs[0], lo)))
  }

  /** And each inner scope lies behind them, below the end of the frame. */
  ghost predicate Laid(cs: seq<SizeTree>, vars: Places, lo: nat, hi: nat)
    requires AllSized(cs)
    decreases cs, 2
  {
    && LeavesLaid(cs, vars, lo) && LeavesEnd(cs, lo) <= hi
    && NodesLaid(cs, vars, LeavesEnd(cs, lo), hi)
  }

  ghost predicate NodesLaid(cs: seq<SizeTree>, vars: Places, lo: nat, hi: nat)
    requires AllSized(cs)
    decreases cs, 1
  {
    cs == [] || ((cs[0].Node? ==> Laid(cs[0].children, vars, lo, hi)) && NodesLaid(cs[1..], vars, lo, hi))
  }

  /** A leaf, right after it was placed. */
  lemma LeafWithin(t: SizeTree, lo: nat, vars: Places)
    requires WellSized(t) && Placed(t)
    ensures Within(t, Place(t, lo, vars), lo, Grow(t, lo))
  {
    SumDivides(Start(t, lo), t.size, t.align);
  }

  lemma WithinKept(t: SizeTree, vars: Places, vars': Places, lo: nat, hi: nat)
    requires WellSized(t) && Placed(t) && Within(t, vars, lo, hi)
    requires t.name.value in vars' && vars'[t.name.value] == vars[t.name.value]
    ensures Within(t, vars', lo, hi)
  {
  }

  lemma {:induction false} LeavesAreLaid(cs: seq<SizeTree>, lo: nat, vars: Places)
    requires AllSized(cs) && Unique(cs)
    ensures LeavesLaid(cs, PlaceLeaves(cs, lo, vars), lo)
    decreases |cs|
  {
    if cs == [] {
    } else {
      var size', vars' := Grow(cs[0], lo), Place(cs[0], lo, vars);
      LeavesAreLaid(cs[1..], size', vars');
      if Placed(cs[0]) {
        LeavesKeep(cs[1..], size', vars');
        NamesSplit(cs[1..]);
        LeafWithin(cs[0], lo, vars);
        WithinKept(cs[0], vars', PlaceLeaves(cs, lo, vars), lo, size');
        hide Within;
      }
    }
  }

  lemma {:induction false} LeavesLaidKept(cs: seq<SizeTree>, vars: Places, vars': Places, lo: nat, changed: set<string>)
    requires AllSized(cs) && LeavesLaid(cs, vars, lo) && Kept(vars, vars', changed) && LeafNames(cs) !! changed
    ensures LeavesLaid(cs, vars', lo)
    decreases |cs|
  {
    if cs == [] {
    } else {
      if Placed(cs[0]) {
        assert cs[0].name.value in LeafNames(cs);
      }
      LeavesLaidKept(cs[1..], vars, vars', Grow(cs[0], lo), changed);
    }
  }

  lemma {:induction false} NodesLaidKept(cs: seq<SizeTree>, vars: Places, vars': Places, lo: nat, hi: nat, hi': nat,
                                         changed: set<string>)
    requires AllSized(cs) && NodesLaid(cs, vars, lo, hi) && hi <= hi'
    requires Kept(vars, vars', changed) && NodeNames(cs) !! changed
    ensures NodesLaid(cs, vars', lo, hi')
    decreases cs, 1
  {
    if cs == [] {
    } else {
      if cs[0].Node? {
        LaidKept(cs[0].children, vars, vars', lo, hi, hi', changed);
      }
      NodesLaidKept(cs[1..], vars, vars', lo, hi, hi', changed);
    }
  }

  lemma {:induction false} LaidKept(cs: seq<SizeTree>, vars: Places, vars': Places, lo: nat, hi: nat, hi': nat,
                                    changed: set<string>)
    requires AllSized(cs) && Laid(cs, vars, lo, hi) && hi <= hi'
    requires Kept(vars, vars', changed) && Names(cs) !! changed
    ensures Laid(cs, vars', lo, hi')
    decreases cs, 2
  {
    NamesSplit(cs);
    LeavesLaidKept(cs, vars, vars', lo, changed);
    NodesLaidKept(cs, vars, vars', LeavesEnd(cs, lo), hi, hi', changed);
  }

  lemma {:induction false} NodesAreLaid(cs: seq<SizeTree>, base: nat, max: nat, hi: nat, vars: Places)
    requires AllSized(cs) && Unique(cs) && NodesEnd(cs, base, max) <= hi
    ensures NodesLaid(cs, PlaceNodes(cs, base, vars), base, hi)
    decreases cs, 1
  {
    if cs == [] {
    } else if cs[0].Leaf? {
      NodesAreLaid(cs[1..], base, max, hi, vars);
    } else {
      var inner := cs[0].children;
      var vars', max' := PlaceScope(inner, base, vars), Max(max, ScopeEnd(inner, base));
      ScopeIsLaid(inner, base, vars);
      NodesAreLaid(cs[1..], base, max', hi, vars');
      NodesKeep(cs[1..], base, vars');
      NamesSplit(cs[1..]);
      LaidKept(inner, vars', PlaceNodes(cs[1..], base, vars'), base, ScopeEnd(inner, base), hi, NodeNames(cs[1..]));
    }
  }

  /** Every scope is laid out between the end of its parent's leaves and the returned size. */
  lemma {:induction false} ScopeIsLaid(cs: seq<SizeTree>, base: nat, vars: Places)
    requires AllSized(cs) && Unique(cs)
    ensures Laid(cs, PlaceScope(cs, base, vars), base, ScopeEnd(cs, base))
    decreases cs, 2
  {
    var end, leaves := LeavesEnd(cs, base), PlaceLeaves(cs, base, vars);
    LeavesAreLaid(cs, base, vars);
    NodesKeep(cs, end, leaves);
    NamesSplit(cs);
    LeavesLaidKept(cs, leaves, PlaceScope(cs, base, vars), base, NodeNames(cs));
    NodesAreLaid(cs, end, end, ScopeEnd(cs, base), leaves);
  }

  // ----- what that means for pairs of variables -----

  /** The variables on the frame that one scope declares itself. */
  function Level(cs: seq<SizeTree>): seq<SizeTree> {
    if cs == [] then [] else (if OnFrame(cs[0]) then [cs[0]] else []) + Level(cs[1..])
  }

  ghost predicate PairwiseApart(ts: seq<SizeTree>, vars: Places) {
    forall i, j | 0 <= i < j < |ts| :: Apart(ts[i], ts[j], vars)
  }

  /** Any two variables of which one's scope is, or encloses, the other's are apart. */
  ghost predicate Separated(cs: seq<SizeTree>, vars: Places, outer: seq<SizeTree>)
    decreases cs, 2
  {
    PairwiseApart(outer + Level(cs), vars) && InnerSeparated(cs, vars, outer + Level(cs))
  }

  ghost predicate InnerSeparated(cs: seq<SizeTree>, vars: Places, outer: seq<SizeTree>)
    decreases cs, 1
  {
    cs == [] || ((cs[0].Node? ==> Separated(cs[0].children, vars, outer)) && InnerSeparated(cs[1..], vars, outer))
  }

  /** All variables anywhere in the tree lie inside the frame, and are aligned. */
  ghost predicate Inside(cs: seq<SizeTree>, vars: Places, size: nat)
    requires AllSized(cs)
  {
    cs == [] ||
    (&& (Placed(cs[0]) ==> Within(cs[0], vars, 0, size))
     && (cs[0].Node? ==> Inside(cs[0].children, vars, size))
     && Inside(cs[1..], vars, size))
  }

  predicate AllBetween(ts: seq<SizeTree>, vars: Places, lo: nat, hi: nat) {
    forall t | t in ts :: OnFrame(t) && WellSized(t) && Within(t, vars, lo, hi)
  }

  lemma {:induction false} LevelBetween(cs: seq<SizeTree>, vars: Places, lo: nat)
    requires AllSized(cs) && LeavesLaid(cs, vars, lo)
    ensures AllBetween(Level(cs), vars, lo, LeavesEnd(cs, lo))
    ensures PairwiseApart(Level(cs), vars)
    decreases |cs|
  {
    if cs == [] {
    } else {
      var mid := Grow(cs[0], lo);
      LevelBetween(cs[1..], vars, mid);
      if OnFrame(cs[0]) {
        JoinApart([cs[0]], Level(cs[1..]), vars, lo, mid, LeavesEnd(cs, lo));
      }
    }
  }

  lemma JoinApart(a: seq<SizeTree>, b: seq<SizeTree>, vars: Places, lo: nat, mid: nat, hi: nat)
    requires AllBetween(a, vars, lo, mid) && AllBetween(b, vars, mid, hi) && lo <= mid <= hi
    requires PairwiseApart(a, vars) && PairwiseApart(b, vars)
    ensures AllBetween(a + b, vars, lo, hi) && PairwiseApart(a + b, vars)
  {
    var s := a + b;
    forall i, j | 0 <= i < j < |s|
      ensures Apart(s[i], s[j], vars)
    {
      if j < |a| {
        assert Apart(a[i], a[j], vars);
      } else if i >= |a| {
        assert Apart(b[i - |a|], b[j - |a|], vars);
      } else {
        assert s[i] in a && s[j] in b;
      }
    }
  }

  lemma {:induction false} LaidSeparated(cs: seq<SizeTree>, vars: Places, lo: nat, hi: nat, outer: seq<SizeTree>)
    requires AllSized(cs) && Laid(cs, vars, lo, hi)
    requires AllBetween(outer, vars, 0, lo) && PairwiseApart(outer, vars)
    ensures Separated(cs, vars, outer)
    decreases cs, 2
  {
    LevelBetween(cs, vars, lo);
    JoinApart(outer, Level(cs), vars, 0, lo, LeavesEnd(cs, lo));
    NodesSeparated(cs, vars, LeavesEnd(cs, lo), hi, outer + Level(cs));
  }

  lemma {:induction false} NodesSeparated(cs: seq<SizeTree>, vars: Places, lo: nat, hi: nat, outer: seq<SizeTree>)
    requires AllSized(cs) && NodesLaid(cs, vars, lo, hi)
    requires AllBetween(outer, vars, 0, lo) && PairwiseApart(outer, vars)
    ensures InnerSeparated(cs, vars, outer)
    decreases cs, 1
  {
    if cs == [] {
    } else {
      if cs[0].Node? {
        LaidSeparated(cs[0].children, vars, lo, hi, outer);
      }
      NodesSeparated(cs[1..], vars, lo, hi, outer);
    }
  }

  lemma {:induction false} LaidInside(cs: seq<SizeTree>, vars: Places, lo: nat, end: nat, hi: nat)
    requires AllSized(cs) && LeavesLaid(cs, vars, lo) && LeavesEnd(cs, lo) <= hi && NodesLaid(cs, vars, end, hi)
    ensures Inside(cs, vars, hi)
    decreases cs
  {
    if cs == [] {
    } else {
      if cs[0].Node? {
        var inner := cs[0].children;
        LaidInside(inner, vars, end, LeavesEnd(inner, end), hi);
      }
      LaidInside(cs[1..], vars, Grow(cs[0], lo), end, hi);
    }
  }

  /** The frame of a function: no two variables that live at the same time share a byte, all of
      them are aligned and inside the frame, and what was placed before stays. */
  lemma FrameIsSound(cs: seq<SizeTree>, globals: Places)
    requires AllSized(cs) && Unique(cs)
    ensures var vars, size := PlaceScope(cs, 0, globals), ScopeEnd(cs, 0);
      Separated(cs, vars, []) && Inside(cs, vars, size) && Kept(globals, vars, Names(cs))
  {
    var vars, size := PlaceScope(cs, 0, globals), ScopeEnd(cs, 0);
    ScopeIsLaid(cs, 0, globals);
    LaidSeparated(cs, vars, 0, size, []);
    LaidInside(cs, vars, 0, LeavesEnd(cs, 0), size);
    ScopeKeeps(cs, 0, globals);
  }

  lemma {:induction false} InsideName(cs: seq<SizeTree>, vars: Places, size: nat, x: string)
    requires AllSized(cs) && Inside(cs, vars, size) && x in Names(cs) && x in vars && vars[x].OnStack?
    ensures vars[x].offset <= size
    decreases cs
  {
    if x in NamesOf(cs[0]) {
      if cs[0].Node? {
        InsideName(cs[0].children, vars, size, x);
      }
    } else {
      InsideName(cs[1..], vars, size, x);
    }
  }

  /** The k-th spill slot, the eight bytes from -(size + 8k) on, lies below every variable. */
  lemma SpillsBelow(cs: seq<SizeTree>, x: string, k: nat)
    requires AllSized(cs) && Unique(cs) && x in Names(cs) && k >= 1
    ensures var vars, slot := PlaceScope(cs, 0, map[]), -(ScopeEnd(cs, 0) + 8 * k);
      x in vars && vars[x].OnStack? ==> slot + 8 <= -(vars[x].offset as int)
  {
    var vars := PlaceScope(cs, 0, map[]);
    FrameIsSound(cs, map[]);
    if x in vars && vars[x].OnStack? {
      InsideName(cs, vars, ScopeEnd(cs, 0), x);
    }
  }

  // ----- nothing is wasted -----

  /** A variable takes the first aligned place and its size, a global one only the padding, and one
      without a name nothing. */
  lemma GrowExactly(t: SizeTree, size: nat)
    requires WellSized(t)
    ensures !Placed(t) ==> Grow(t, size) == size
    ensures Placed(t) ==>
      var start := Grow(t, size) - if t.isGlobal then 0 else t.size;
      size <= start < size + t.align && start % t.align == 0
  {
  }

  predicate NoGlobals(cs: seq<SizeTree>) {
    cs == [] || ((if cs[0].Leaf? then !cs[0].isGlobal else NoGlobals(cs[0].children)) && NoGlobals(cs[1..]))
  }

  /** Some variable of the set ends right there. */
  ghost predicate EndsAt(names: set<string>, vars: Places, end: nat) {
    exists x :: x in names && x in vars && vars[x] == OnStack(end)
  }

  lemma EndsStill(names: set<string>, more: set<string>, vars: Places, vars': Places, changed: set<string>, end: nat)
    requires EndsAt(names, vars, end) && Kept(vars, vars', changed) && names !! changed && names <= more
    ensures EndsAt(more, vars', end)
  {
  }

  lemma {:induction false} LeavesTight(cs: seq<SizeTree>, size: nat, vars: Places)
    requires AllSized(cs) && Unique(cs) && NoGlobals(cs)
    ensures LeavesEnd(cs, size) == size || EndsAt(LeafNames(cs), PlaceLeaves(cs, size, vars), LeavesEnd(cs, size))
    decreases |cs|
  {
    if cs == [] {
      return;
    }
    var size', vars' := Grow(cs[0], size), Place(cs[0], size, vars);
    LeavesTight(cs[1..], size', vars');
    LeavesKeep(cs[1..], size', vars');
    NamesSplit(cs[1..]);
    if LeavesEnd(cs[1..], size') == size' && Placed(cs[0]) {
      assert EndsAt(NamesOf(cs[0]), vars', size') by {
        assert cs[0].name.value in vars';
      }
      EndsStill(NamesOf(cs[0]), LeafNames(cs), vars', PlaceLeaves(cs, size, vars), LeafNames(cs[1..]), size');
    }
  }

  lemma {:induction false} NodesTight(cs: seq<SizeTree>, base: nat, max: nat, vars: Places)
    requires AllSized(cs) && Unique(cs) && NoGlobals(cs) && base <= max
    ensures NodesEnd(cs, base, max) == max || EndsAt(NodeNames(cs), PlaceNodes(cs, base, vars), NodesEnd(cs, base, max))
    decreases cs, 1
  {
    if cs == [] {
      return;
    }
    if cs[0].Leaf? {
      NodesTight(cs[1..], base, max, vars);
      return;
    }
    var inner := cs[0].children;
    var vars', max' := PlaceScope(inner, base, vars), Max(max, ScopeEnd(inner, base));
    ScopeTight(inner, base, vars);
    NodesTight(cs[1..], base, max', vars');
    NodesKeep(cs[1..], base, vars');
    NamesSplit(cs[1..]);
    if NodesEnd(cs[1..], base, max') == max' && max' != max {
      EndsStill(Names(inner), NodeNames(cs), vars', PlaceNodes(cs, base, vars), NodeNames(cs[1..]), max');
    }
  }

  lemma {:induction false} ScopeTight(cs: seq<SizeTree>, base: nat, vars: Places)
    requires AllSized(cs) && Unique(cs) && NoGlobals(cs)
    ensures ScopeEnd(cs, base) == base || EndsAt(Names(cs), PlaceScope(cs, base, vars), ScopeEnd(cs, base))
    decreases cs, 2
  {
    var end, vars' := LeavesEnd(cs, base), PlaceLeaves(cs, base, vars);
    LeavesTight(cs, base, vars);
    NodesTight(cs, end, end, vars');
    NodesKeep(cs, end, vars');
    NamesSplit(cs);
    if ScopeEnd(cs, base) == end && end != base {
      EndsStill(LeafNames(cs), Names(cs), vars', PlaceScope(cs, base, vars), NodeNames(cs), end);
    }
  }

  /** The frame is no larger than needed: it is empty, or some variable ends where it does. */
  lemma FrameIsTight(cs: seq<SizeTree>, globals: Places)
    requires AllSized(cs) && Unique(cs) && NoGlobals(cs)
    ensures var vars, size := PlaceScope(cs, 0, globals), ScopeEnd(cs, 0);
      size == 0 || EndsAt(Names(cs), vars, size)
  {
    ScopeTight(cs, 0, globals);
  }

  lemma OneLeaf(t: SizeTree, vars: Places)
    requires OnFrame(t) && t.size == 8 && t.align == 8
    ensures AllSized([t]) && Unique([t]) && Names([t]) == {t.name.value}
    ensures PlaceScope([t], 0, vars) == vars[t.name.value := OnStack(8)] && ScopeEnd([t], 0) == 8
  {
    assert [t][1..] == [];
    assert NamesOf(t) == {t.name.value} && Names([]) == {};
    assert Names([t]) == NamesOf([t][0]) + Names([t][1..]);
    assert UniqueIn([t][0]) && Unique([t][1..]) && NamesOf([t][0]) !! Names([t][1..]);
    assert Grow(t, 0) == 8;
    assert LeavesEnd([t], 0) == LeavesEnd([], 8) == 8;
    assert PlaceLeaves([t], 0, vars) == PlaceLeaves([], 8, vars[t.name.value := OnStack(8)]);
    assert NodesEnd([t], 8, 8) == NodesEnd([], 8, 8);
    var placed := vars[t.name.value := OnStack(8)];
    assert PlaceNodes([t], 8, placed) == PlaceNodes([], 8, placed);
  }

  /** Sibling scopes may share: here two words take the room of one. */
  lemma SiblingsShare() returns (cs: seq<SizeTree>, a: SizeTree, b: SizeTree)
    ensures AllSized(cs) && Unique(cs) && cs == [Node([a]), Node([b])] && OnFrame(a) && OnFrame(b)
    ensures var vars := PlaceScope(cs, 0, map[]);
      !Apart(a, b, vars) && ScopeEnd(cs, 0) == a.size == b.size == 8
  {
    a, b := Leaf(Some("a"), 8, 8, false), Leaf(Some("b"), 8, 8, false);
    cs := [Node([a]), Node([b])];
    var va: Places := map["a" := OnStack(8)];
    OneLeaf(a, map[]);
    OneLeaf(b, va);
    hide LeavesEnd, PlaceLeaves;
    var last := cs[1..];
    assert last == [Node([b])] && last[1..] == [];
    assert Names(last) == NamesOf(last[0]) + Names([]) == {"b"} && Unique(last) && AllSized(last);
    assert PlaceNodes(last, 0, va) == PlaceNodes([], 0, va["b" := OnStack(8)]);
    assert NodesEnd(last, 0, 8) == NodesEnd([], 0, 8);
    NoLeaves(cs);
  }

  lemma NoLeaves(cs: seq<SizeTree>)
    requires |cs| == 2 && cs[0].Node? && cs[1].Node? && AllSized(cs)
    ensures LeavesEnd(cs, 0) == 0 && PlaceLeaves(cs, 0, map[]) == map[]
  {
    assert cs[1..][1..] == [];
    assert LeavesEnd(cs[1..], 0) == 0 && PlaceLeaves(cs[1..], 0, map[]) == map[];
  }
}
