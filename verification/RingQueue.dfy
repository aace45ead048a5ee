/** The ring buffer behind every token queue: first in, first out, through wrap-around and growth. */
module RingQueue {
  import opened Basics
  import opened Syntax

  /** A position that has passed the end at most once. */
  function Wrapped(a: nat, n: nat): (r: nat)
    requires a < 2 * n
    ensures r < n && r == a % n
  {
    ModOnce(a, n);
    if a < n then a else a - n
  }

  lemma ModOnce(a: nat, n: nat)
    requires a < 2 * n
    ensures a % n == if a < n then a else a - n
  {
    if a >= n {
      assert a == n + (a - n);
      assert a / n == 1;
    }
  }

  /** The cells of a ring from tail on. */
  function Ring<T>(cells: seq<T>, tail: nat, length: nat): (r: seq<T>)
    requires tail < |cells| && length <= |cells|
    ensures |r| == length && forall i | 0 <= i < length :: r[i] == cells[Wrapped(tail + i, |cells|)]
  {
    seq(length, i requires 0 <= i < length => cells[Wrapped(tail + i, |cells|)])
  }

  class Queue<T(0)> {
    var list: array<T>
    var length: nat
    var head: nat
    var tail: nat

    ghost predicate Valid()
      reads this
    {
      tail < list.Length && length <= list.Length && head == Wrapped(tail + length, list.Length)
    }

    function Contents(): (r: seq<T>)
      requires Valid()
      reads this, list
    {
      Ring(list[..], tail, length)
    }

    constructor ()
      ensures Valid() && Contents() == [] && fresh(list)
    {
      list := new T[4];
      length, head, tail := 0, 0, 0;
    }

    method Clear()
      requires Valid()
      modifies this
      ensures Valid() && list == old(list) && Contents() == []
    {
      length, tail, head := 0, 0, 0;
    }

    /** Copies the two parts of a full ring into one twice its size. */
    method Grow()
      requires Valid() && length == list.Length
      modifies this
      ensures Valid() && fresh(list) && list.Length == 2 * old(list.Length) && Contents() == old(Contents())
      ensures length == old(length) < list.Length
    {
      var bigger := new T[2 * list.Length];
      var first := length - tail;
      forall i | 0 <= i < first {
        bigger[i] := list[tail + i];
      }
      forall i | 0 <= i < tail {
        bigger[first + i] := list[i];
      }
      RingFull(list[..], tail);
      RingStraight(bigger[..], length);
      assert bigger[..][..length] == list[..][tail..] + list[..][..tail];
      tail, head, list := 0, length, bigger;
    }

    method Push(x: T)
      requires Valid()
      modifies this, list
      ensures Valid() && (list == old(list) || fresh(list))
      ensures Contents() == old(Contents()) + [x]
    {
      if length == list.Length {
        Grow();
      }
      RingPush(list[..], tail, length, x);
      ghost var cells := list[..];
      length := length + 1;
      list[head] := x;
      assert list[..] == cells[head := x];
      head := (head + 1) % list.Length;
    }

    method Peek() returns (x: Option<T>)
      requires Valid()
      ensures x == if Contents() == [] then None else Some(Contents()[0])
    {
      if length == 0 {
        return None;
      }
      RingPop(list[..], tail, length);
      x := Some(list[tail]);
    }

    /** The cell in front of the queue: what was popped last, unless something was pushed since. */
    function Before(): T
      requires Valid()
      reads this, list
    {
      list[(tail + list.Length - 1) % list.Length]
    }

    method Pop() returns (x: Option<T>)
      requires Valid()
      modifies this
      ensures Valid() && list == old(list) && length < list.Length
      ensures old(Contents()) == [] ==> x == None && Contents() == []
      ensures old(Contents()) != [] ==> x == Some(old(Contents())[0]) && Contents() == old(Contents())[1..]
      ensures x.Some? ==> Before() == x.value
    {
      if length == 0 {
        return None;
      }
      RingPop(list[..], tail, length);
      length := length - 1;
      x := Some(list[tail]);
      tail := (tail + 1) % list.Length;
    }

    /** Takes back a pop, but does nothing once the queue is empty. On a full ring, where nothing was
        popped, it leaves a queue that is no longer one. */
    method Rollback() returns (x: Option<T>)
      requires Valid()
      modifies this
      ensures list == old(list) && (Valid() <==> old(length) < list.Length)
      ensures !Valid() ==> length == list.Length + 1
      ensures old(Contents()) == [] ==> x == None && Valid() && Contents() == []
      ensures old(Contents()) != [] ==> x == Some(old(Before()))
      ensures old(Contents()) != [] && Valid() ==> Contents() == [old(Before())] + old(Contents())
    {
      if length == 0 {
        return None;
      }
      if length < list.Length {
        RingBack(list[..], tail, length);
      }
      length := length + 1;
      tail := (tail + list.Length - 1) % list.Length;
      x := Some(list[tail]);
    }

    /** A pop and a rollback restore the queue exactly if it held at least two items; the last one
        is lost. */
    method PopAndRollback()
      requires Valid()
      modifies this
      ensures Valid()
      ensures Contents() == old(Contents()) <==> |old(Contents())| != 1
      ensures |old(Contents())| == 1 ==> Contents() == []
    {
      var x := Pop();
      var _ := Rollback();
      assert |old(Contents())| > 1 ==> old(Contents()) == [x.value] + old(Contents())[1..];
    }
  }

  // ----- rings -----

  lemma RingStraight<T>(cells: seq<T>, length: nat)
    requires length < |cells|
    ensures Ring(cells, 0, length) == cells[..length]
  {
    var a, b := Ring(cells, 0, length), cells[..length];
    forall i | 0 <= i < |a|
      ensures a[i] == b[i]
    {
    }
  }

  /** A full ring is its later part and then its earlier part. */
  lemma RingFull<T>(cells: seq<T>, tail: nat)
    requires tail < |cells|
    ensures Ring(cells, tail, |cells|) == cells[tail..] + cells[..tail]
  {
    var a, b := Ring(cells, tail, |cells|), cells[tail..] + cells[..tail];
    forall i | 0 <= i < |a|
      ensures a[i] == b[i]
    {
    }
  }

  lemma RingPush<T>(cells: seq<T>, tail: nat, length: nat, x: T)
    requires tail < |cells| && length < |cells|
    ensures var head := Wrapped(tail + length, |cells|);
      && (head + 1) % |cells| == Wrapped(tail + length + 1, |cells|)
      && Ring(cells[head := x], tail, length + 1) == Ring(cells, tail, length) + [x]
  {
    var n, head := |cells|, Wrapped(tail + length, |cells|);
    ModOnce(head + 1, n);
    var a, b := Ring(cells[head := x], tail, length + 1), Ring(cells, tail, length) + [x];
    forall i | 0 <= i < |a|
      ensures a[i] == b[i]
    {
    }
  }

  lemma RingPop<T>(cells: seq<T>, tail: nat, length: nat)
    requires tail < |cells| && 0 < length <= |cells|
    ensures var n, t := |cells|, (tail + 1) % |cells|;
      && t == Wrapped(tail + 1, n) && Wrapped(tail + length, n) == Wrapped(t + length - 1, n) && (t + n - 1) % n == tail
      && Ring(cells, tail, length) == [cells[tail]] + Ring(cells, t, length - 1)
  {
    var n, t := |cells|, Wrapped(tail + 1, |cells|);
    ModOnce(t + n - 1, n);
    var a, b := Ring(cells, tail, length), [cells[tail]] + Ring(cells, t, length - 1);
    forall i | 0 <= i < |a|
      ensures a[i] == b[i]
    {
    }
  }

  lemma RingBack<T>(cells: seq<T>, tail: nat, length: nat)
    requires tail < |cells| && length < |cells|
    ensures var n, t := |cells|, (tail + |cells| - 1) % |cells|;
      && t < n && Wrapped(t + length + 1, n) == Wrapped(tail + length, n)
      && Ring(cells, t, length + 1) == [cells[t]] + Ring(cells, tail, length)
  {
    ModOnce(tail + |cells| - 1, |cells|);
    RingPop(cells, Wrapped(tail + |cells| - 1, |cells|), length + 1);
  }

  // ----- whole runs -----

  datatype Operation<T> = Push(x: T) | Pop | Peek | Clear

  /** What a list does. */
  function Step<T>(s: seq<T>, op: Operation<T>): (seq<T>, Option<T>) {
    match op
    case Push(x) => (s + [x], None)
    case Pop => if s == [] then (s, None) else (s[1..], Some(s[0]))
    case Peek => if s == [] then (s, None) else (s, Some(s[0]))
    case Clear => ([], None)
  }

  function Replay<T>(s: seq<T>, ops: seq<Operation<T>>): (seq<T>, seq<Option<T>>)
    decreases |ops|
  {
    if ops == [] then (s, [])
    else
      var first := Step(s, ops[0]);
      var rest := Replay(first.0, ops[1..]);
      (rest.0, [first.1] + rest.1)
  }

  /** Every run gives the answers of a list. */
  method Run<T(0)>(ops: seq<Operation<T>>) returns (answers: seq<Option<T>>)
    ensures answers == Replay([], ops).1
  {
    var q := new Queue<T>();
    hide Ring;
    answers := [];
    for i := 0 to |ops|
      invariant q.Valid() && fresh(q) && fresh(q.list)
      invariant Replay([], ops).1 == answers + Replay(q.Contents(), ops[i..]).1
    {
      ghost var s, rest := q.Contents(), ops[i..];
      assert rest[1..] == ops[i + 1..];
      var answer: Option<T> := None;
      match ops[i] {
        case Push(x) => q.Push(x);
        case Pop => answer := q.Pop();
        case Peek => answer := q.Peek();
        case Clear => q.Clear();
      }
      assert (q.Contents(), answer) == Step(s, rest[0]);
      Assoc(answers, [answer], Replay(q.Contents(), ops[i + 1..]).1);
      answers := answers + [answer];
    }
  }

  function Pushes<T>(xs: seq<T>): (r: seq<Operation<T>>)
    ensures |r| == |xs|
  {
    seq(|xs|, i requires 0 <= i < |xs| => Push(xs[i]))
  }

  /** What is pushed comes out again in the same order. */
  lemma {:induction false} FirstInFirstOut<T>(s: seq<T>, xs: seq<T>)
    ensures Replay(s, Pushes(xs)).0 == s + xs
    decreases |xs|
  {
    if xs == [] {
      assert s + xs == s;
    } else {
      assert Pushes(xs)[1..] == Pushes(xs[1..]);
      FirstInFirstOut(s + [xs[0]], xs[1..]);
      assert s + [xs[0]] + xs[1..] == s + xs;
    }
  }
}
