/** Compile tasks in dependency order, by a depth-first search with three states. */
module BuildOrder {
  type Graph = map<string, seq<string>>

  datatype State = Unvisited | Visiting | Visited

  datatype Result = Done | UnknownFile(name: string) | Cycle(path: seq<string>)

  // ----- what is promised -----

  predicate Edge(g: Graph, a: string, b: string) {
    a in g && b in g && b in g[a]
  }

  predicate Path(g: Graph, p: seq<string>) {
    forall i | 0 <= i < |p| - 1 :: Edge(g, p[i], p[i + 1])
  }

  /** From a task along dependencies back to itself. */
  predicate IsCycle(g: Graph, p: seq<string>) {
    |p| >= 2 && p[0] == p[|p| - 1] && Path(g, p)
  }

  predicate AllKnown(g: Graph) {
    forall t, d | t in g && d in g[t] :: d in g
  }

  /** Some task depends on a name that is no task. */
  predicate IsMissing(g: Graph, name: string) {
    name !in g && exists t :: t in g && name in g[t]
  }

  ghost predicate Acyclic(g: Graph) {
    forall p: seq<string> :: !IsCycle(g, p)
  }

  predicate NoRepeats(s: seq<string>) {
    forall i, j | 0 <= i < j < |s| :: s[i] != s[j]
  }

  /** Everything comes after all it depends on. */
  predicate Ordered(g: Graph, out: seq<string>) {
    forall i | 0 <= i < |out| :: out[i] in g && forall d | d in g[out[i]] :: d in out[..i]
  }

  predicate IsOrder(g: Graph, out: seq<string>) {
    NoRepeats(out) && Ordered(g, out) && forall t | t in g :: t in out
  }

  /** Along an edge the position in an order goes down. */
  lemma EdgeGoesDown(g: Graph, out: seq<string>, i: nat, b: string) returns (j: nat)
    requires NoRepeats(out) && Ordered(g, out) && i < |out| && Edge(g, out[i], b)
    ensures j < i && out[j] == b
  {
    assert b in out[..i];
    j :| 0 <= j < i && out[..i][j] == b;
  }

  lemma {:induction false} PathGoesDown(g: Graph, out: seq<string>, p: seq<string>, i: nat) returns (j: nat)
    requires NoRepeats(out) && Ordered(g, out) && |p| >= 2 && Path(g, p) && i < |out| && out[i] == p[0]
    ensures j < i && out[j] == p[|p| - 1]
    decreases |p|
  {
    assert Edge(g, p[0], p[1]);
    j := EdgeGoesDown(g, out, i, p[1]);
    if |p| > 2 {
      forall k | 0 <= k < |p[1..]| - 1
        ensures Edge(g, p[1..][k], p[1..][k + 1])
      {
        assert Edge(g, p[k + 1], p[k + 2]);
      }
      j := PathGoesDown(g, out, p[1..], j);
    }
  }

  /** An order exists only without cycles and without unknown names. */
  lemma OrderNeedsAcyclic(g: Graph, out: seq<string>)
    requires IsOrder(g, out)
    ensures AllKnown(g) && Acyclic(g)
  {
    forall t, d | t in g && d in g[t]
      ensures d in g
    {
      var i :| 0 <= i < |out| && out[i] == t;
      assert d in out[..i];
      var j :| 0 <= j < i && out[..i][j] == d;
      assert out[j] in g;
    }
    forall p: seq<string>
      ensures !IsCycle(g, p)
    {
      if IsCycle(g, p) {
        assert Edge(g, p[0], p[1]);
        var i :| 0 <= i < |out| && out[i] == p[0];
        var j := PathGoesDown(g, out, p, i);
      }
    }
  }

  /** The stack is the path that led here; the output is ordered so far. */
  predicate Consistent(g: Graph, states: map<string, State>, out: seq<string>, stack: seq<string>) {
    && states.Keys == g.Keys
    && (forall t | t in out :: t in g) && (forall t | t in stack :: t in g)
    && (forall t | t in g :: (states[t] == Visited <==> t in out) && (states[t] == Visiting <==> t in stack))
    && NoRepeats(out) && NoRepeats(stack) && Ordered(g, out) && Path(g, stack)
  }

  function FreshOf(g: Graph, states: map<string, State>): set<string>
    requires states.Keys == g.Keys
  {
    set t | t in g && states[t] == Unvisited
  }

  /** Marking a task and putting it on the path. */
  lemma Entered(g: Graph, states: map<string, State>, out: seq<string>, stack: seq<string>, task: string)
    requires Consistent(g, states, out, stack) && task in g && states[task] == Unvisited
    requires stack != [] ==> Edge(g, stack[|stack| - 1], task)
    ensures Consistent(g, states[task := Visiting], out, stack + [task])
    ensures task in FreshOf(g, states) && FreshOf(g, states[task := Visiting]) == FreshOf(g, states) - {task}
  {
    PushPath(g, stack, task);
    OutGrows(stack, task);
  }

  /** Taking it from the path and appending it to the output. */
  lemma Left(g: Graph, states: map<string, State>, out: seq<string>, stack: seq<string>, task: string)
    requires Consistent(g, states, out, stack) && stack != [] && stack[|stack| - 1] == task
    requires task in g && forall d | d in g[task] :: d in out
    ensures Consistent(g, states[task := Visited], out + [task], stack[..|stack| - 1])
    ensures FreshOf(g, states[task := Visited]) == FreshOf(g, states)
  {
    var rest := stack[..|stack| - 1];
    OrderGrows(g, out, task);
    StackShrinks(g, stack);
    OutGrows(out, task);
    assert stack == rest + [task] && states[task] == Visiting && task !in out;
    hide Ordered, Path, NoRepeats;
    forall t | t in g
      ensures (states[task := Visited][t] == Visited <==> t in out + [task])
      ensures (states[task := Visited][t] == Visiting <==> t in rest)
    {
      assert t in stack <==> t in rest || t == task;
      assert t in out + [task] <==> t in out || t == task;
    }
  }

  // ----- the search -----

  /** The first n dependencies are in the output. */
  predicate DoneFirst(ds: seq<string>, n: nat, out: seq<string>) {
    n <= |ds| && forall k | 0 <= k < n :: ds[k] in out
  }

  lemma NoneDone(ds: seq<string>, out: seq<string>)
    ensures DoneFirst(ds, 0, out)
  {
  }

  lemma OneMoreDone(ds: seq<string>, n: nat, out: seq<string>, more: seq<string>)
    requires DoneFirst(ds, n, out) && n < |ds| && out <= more && ds[n] in more
    ensures DoneFirst(ds, n + 1, more)
  {
  }

  lemma AllDone(ds: seq<string>, out: seq<string>)
    requires DoneFirst(ds, |ds|, out)
    ensures forall d | d in ds :: d in out
  {
  }

  class Builder {
    const g: Graph
    var states: map<string, State>
    var out: seq<string>
    var stack: seq<string>

    constructor (g: Graph)
      ensures this.g == g && Valid() && out == [] && stack == []
    {
      this.g := g;
      states := map t | t in g :: Unvisited;
      out, stack := [], [];
    }

    predicate Valid()
      reads this
    {
      Consistent(g, states, out, stack)
    }

    function Fresh(): set<string>
      requires states.Keys == g.Keys
      reads this
    {
      FreshOf(g, states)
    }

    method FindCycle(task: string) returns (path: seq<string>)
      requires Valid() && task in stack && Edge(g, stack[|stack| - 1], task)
      modifies this`stack
      ensures IsCycle(g, path) && path[0] == task
    {
      path := Unwound(stack, task);
      ghost var at :| 0 <= at < |stack| && stack[at] == task && path == stack[at..] + [task];
      CyclePath(g, stack, at, task);
      stack := [];
    }

    method Dfs(task: string) returns (r: Result)
      requires Valid() && task in g && (stack != [] ==> Edge(g, stack[|stack| - 1], task))
      modifies this
      ensures r.Done? ==> Valid() && stack == old(stack) && old(out) <= out && task in out && Fresh() <= old(Fresh())
      ensures r.UnknownFile? ==> IsMissing(g, r.name)
      ensures r.Cycle? ==> IsCycle(g, r.path)
      decreases Fresh()
    {
      if states[task] == Visiting {
        var path := FindCycle(task);
        return Cycle(path);
      }
      if states[task] == Visited {
        return Done;
      }
      ghost var before, stack0 := Fresh(), stack;
      hide Ordered, NoRepeats, Path, DoneFirst;
      NoneDone(g[task], out);
      Entered(g, states, out, stack, task);
      states := states[task := Visiting];
      stack := stack + [task];
      for i := 0 to |g[task]|
        invariant Valid() && stack == stack0 + [task] && old(out) <= out && Fresh() <= before - {task}
        invariant DoneFirst(g[task], i, out)
      {
        var name := g[task][i];
        if name !in g {
          assert task in g && name in g[task];
          return UnknownFile(name);
        }
        ghost var out0 := out;
        var result := Dfs(name);
        if !result.Done? {
          return result;
        }
        OneMoreDone(g[task], i, out0, out);
      }
      AllDone(g[task], out);
      Left(g, states, out, stack, task);
      stack := stack[..|stack| - 1];
      assert stack == stack0;
      states := states[task := Visited];
      out := out + [task];
      return Done;
    }

    /** Starts a search at every task that none has reached yet, in the order of the task table. */
    method SortBuilds(names: seq<string>) returns (r: Result)
      requires Valid() && out == [] && stack == [] && forall t | t in g :: t in names
      requires forall t | t in names :: t in g
      modifies this
      ensures r.Done? <==> AllKnown(g) && Acyclic(g)
      ensures r.Done? ==> IsOrder(g, out)
      ensures r.UnknownFile? ==> IsMissing(g, r.name)
      ensures r.Cycle? ==> IsCycle(g, r.path)
    {
      for i := 0 to |names|
        invariant Valid() && stack == []
        invariant forall k | 0 <= k < i :: names[k] in out
      {
        assert names[i] in names;
        if states[names[i]] == Unvisited {
          var result := Dfs(names[i]);
          if !result.Done? {
            return result;
          }
        }
      }
      OrderNeedsAcyclic(g, out);
      return Done;
    }
  }

  function Reversed(s: seq<string>): seq<string> {
    if s == [] then [] else Reversed(s[1..]) + [s[0]]
  }

  lemma PushPath(g: Graph, stack: seq<string>, task: string)
    requires Path(g, stack) && (stack != [] ==> Edge(g, stack[|stack| - 1], task))
    ensures Path(g, stack + [task])
  {
  }

  lemma StackShrinks(g: Graph, stack: seq<string>)
    requires stack != [] && Path(g, stack) && NoRepeats(stack)
    ensures var rest, last := stack[..|stack| - 1], stack[|stack| - 1];
      Path(g, rest) && NoRepeats(rest) && last !in rest && forall t :: t in stack <==> t in rest || t == last
  {
    assert stack == stack[..|stack| - 1] + [stack[|stack| - 1]];
  }

  lemma OutGrows(out: seq<string>, task: string)
    requires NoRepeats(out)
    ensures task !in out ==> NoRepeats(out + [task])
  {
  }

  lemma OrderGrows(g: Graph, out: seq<string>, task: string)
    requires Ordered(g, out) && task in g && forall d | d in g[task] :: d in out
    ensures Ordered(g, out + [task])
  {
    var more := out + [task];
    forall i | 0 <= i < |more|
      ensures more[i] in g && forall d | d in g[more[i]] :: d in more[..i]
    {
      if i < |out| {
        assert more[..i] == out[..i];
      } else {
        assert more[..i] == out;
      }
    }
  }

  lemma CyclePath(g: Graph, stack: seq<string>, at: nat, task: string)
    requires Path(g, stack) && at < |stack| && stack[at] == task && Edge(g, stack[|stack| - 1], task)
    ensures IsCycle(g, stack[at..] + [task])
  {
    var p := stack[at..] + [task];
    forall i | 0 <= i < |p| - 1
      ensures Edge(g, p[i], p[i + 1])
    {
      assert p[i] == stack[at + i];
      if i < |p| - 2 {
        assert Edge(g, stack[at + i], stack[at + i + 1]);
      }
    }
  }

  method TurnOver(stack: seq<string>) returns (inverted: seq<string>)
    ensures inverted == Reversed(stack)
  {
    var rest := stack;
    inverted := [];
    assert stack[..|stack|] == stack && stack[|stack|..] == [];
    ReversedStep(stack, |stack|);
    hide Reversed;
    while rest != []
      invariant |rest| <= |stack| && rest == stack[..|rest|] && inverted == Reversed(stack[|rest|..])
      decreases |rest|
    {
      var n := |rest| - 1;
      ReversedStep(stack, n);
      inverted := inverted + [rest[n]];
      rest := rest[..n];
    }
    assert stack[0..] == stack;
  }

  /** Turns a stack over, drops what lies before the task, and walks down from there. */
  method Unwound(stack: seq<string>, task: string) returns (path: seq<string>)
    requires task in stack
    ensures exists at :: 0 <= at < |stack| && stack[at] == task && path == stack[at..] + [task]
  {
    var inverted := TurnOver(stack);
    hide Reversed;
    assert stack[0..] == stack;
    ghost var at := 0;
    while inverted != []
      invariant at <= |stack| && inverted == Reversed(stack[at..]) && task in stack[at..]
      decreases |inverted|
    {
      ReversedStep(stack, at);
      if inverted[|inverted| - 1] == task {
        break;
      }
      inverted := inverted[..|inverted| - 1];
      at := at + 1;
    }
    ReversedStep(stack, at);
    path := [];
    ghost var next := at;
    while inverted != []
      invariant at <= next <= |stack| && inverted == Reversed(stack[next..]) && path == stack[at..next]
      decreases |inverted|
    {
      ReversedStep(stack, next);
      path := path + [inverted[|inverted| - 1]];
      inverted := inverted[..|inverted| - 1];
      next := next + 1;
    }
    ReversedStep(stack, next);
    path := path + [task];
  }

  /** The last of the reversed rest is its first. */
  lemma ReversedStep(s: seq<string>, i: nat)
    requires i <= |s|
    ensures Reversed(s[i..]) == [] <==> i == |s|
    ensures i < |s| ==>
        var r := Reversed(s[i..]);
        r != [] && r[|r| - 1] == s[i] && r[..|r| - 1] == Reversed(s[i + 1..]) && s[i..] == [s[i]] + s[i + 1..]
  {
    if i < |s| {
      assert s[i..][1..] == s[i + 1..];
    }
  }
}
