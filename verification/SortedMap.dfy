/** The sorted array behind every symbol table: entries are appended, then committed into place,
    and found by binary search. */
module SortedMap {
  import opened Basics
  import opened Syntax

  datatype Entry<V> = Entry(key: int, value: V)

  // ----- sorted entries and the map they stand for -----

  predicate Sorted<V>(s: seq<Entry<V>>) {
    forall i, j | 0 <= i < j < |s| :: s[i].key < s[j].key
  }

  predicate Holds<V>(s: seq<Entry<V>>, key: int) {
    exists i :: 0 <= i < |s| && s[i].key == key
  }

  function ToMap<V>(s: seq<Entry<V>>): map<int, V> {
    if s == [] then map[]
    else
      var n := |s| - 1;
      ToMap(s[..n])[s[n].key := s[n].value]
  }

  lemma {:induction false} MapHolds<V>(s: seq<Entry<V>>, key: int)
    ensures key in ToMap(s) <==> Holds(s, key)
    decreases |s|
  {
    if s == [] {
    } else {
      var n := |s| - 1;
      MapHolds(s[..n], key);
      if Holds(s[..n], key) {
        var i :| 0 <= i < n && s[..n][i].key == key;
        assert s[i].key == key;
      }
      if Holds(s, key) && s[n].key != key {
        var i :| 0 <= i < |s| && s[i].key == key;
        assert s[..n][i].key == key;
      }
    }
  }

  lemma {:induction false} MapAt<V>(s: seq<Entry<V>>, i: nat)
    requires Sorted(s) && i < |s|
    ensures s[i].key in ToMap(s) && ToMap(s)[s[i].key] == s[i].value
    decreases |s|
  {
    if i < |s| - 1 {
      MapAt(s[..|s| - 1], i);
    }
  }

  /** A map that agrees with every entry and has no other keys is the one they stand for. */
  lemma MapIs<V>(s: seq<Entry<V>>, m: map<int, V>)
    requires Sorted(s) && forall i | 0 <= i < |s| :: s[i].key in m && m[s[i].key] == s[i].value
    requires forall k | k in m :: Holds(s, k)
    ensures ToMap(s) == m
  {
    forall k
      ensures k in ToMap(s) <==> k in m
      ensures k in m ==> ToMap(s)[k] == m[k]
    {
      MapHolds(s, k);
      if Holds(s, k) {
        var i :| 0 <= i < |s| && s[i].key == k;
        MapAt(s, i);
      }
    }
  }

  lemma AllAt<V>(s: seq<Entry<V>>)
    requires Sorted(s)
    ensures forall i | 0 <= i < |s| :: s[i].key in ToMap(s) && ToMap(s)[s[i].key] == s[i].value
    ensures forall k :: k in ToMap(s) <==> Holds(s, k)
  {
    forall i | 0 <= i < |s|
      ensures s[i].key in ToMap(s) && ToMap(s)[s[i].key] == s[i].value
    {
      MapAt(s, i);
    }
    forall k
      ensures k in ToMap(s) <==> Holds(s, k)
    {
      MapHolds(s, k);
    }
  }

  /** Where a key belongs: behind all smaller ones. */
  predicate Place<V>(s: seq<Entry<V>>, i: nat, key: int) {
    i <= |s| && (forall j | 0 <= j < i :: s[j].key < key) && (forall j | i <= j < |s| :: key < s[j].key)
  }

  function Insert<V>(s: seq<Entry<V>>, i: nat, e: Entry<V>): (t: seq<Entry<V>>)
    requires i <= |s|
    ensures |t| == |s| + 1
  {
    s[..i] + [e] + s[i..]
  }

  lemma InsertAt<V>(s: seq<Entry<V>>, i: nat, e: Entry<V>, j: nat)
    requires i <= |s| && j <= |s|
    ensures Insert(s, i, e)[j] == if j < i then s[j] else if j == i then e else s[j - 1]
  {
  }

  lemma InsertSorted<V>(s: seq<Entry<V>>, i: nat, e: Entry<V>)
    requires Sorted(s) && Place(s, i, e.key)
    ensures Sorted(Insert(s, i, e))
  {
    hide Insert;
    var t := Insert(s, i, e);
    forall j, k | 0 <= j < k < |t|
      ensures t[j].key < t[k].key
    {
      InsertAt(s, i, e, j);
      InsertAt(s, i, e, k);
    }
  }

  lemma Inserted<V>(s: seq<Entry<V>>, i: nat, e: Entry<V>)
    requires Sorted(s) && Place(s, i, e.key)
    ensures Sorted(Insert(s, i, e)) && ToMap(Insert(s, i, e)) == ToMap(s)[e.key := e.value]
    ensures Holds(Insert(s, i, e), e.key)
  {
    var t, m := Insert(s, i, e), ToMap(s)[e.key := e.value];
    AllAt(s);
    InsertSorted(s, i, e);
    hide ToMap, Insert, Sorted;
    InsertAt(s, i, e, i);
    assert t[i].key == e.key;
    forall j | 0 <= j < |t|
      ensures t[j].key in m && m[t[j].key] == t[j].value
    {
      InsertAt(s, i, e, j);
    }
    forall k | k in m
      ensures Holds(t, k)
    {
      if k != e.key {
        var j :| 0 <= j < |s| && s[j].key == k;
        var at := if j < i then j else j + 1;
        InsertAt(s, i, e, at);
        assert t[at].key == k;
      }
    }
    MapIs(t, m);
  }

  lemma Updated<V>(s: seq<Entry<V>>, i: nat, v: V)
    requires Sorted(s) && i < |s|
    ensures var t := s[i := Entry(s[i].key, v)];
      Sorted(t) && ToMap(t) == ToMap(s)[s[i].key := v]
  {
    var t, m := s[i := Entry(s[i].key, v)], ToMap(s)[s[i].key := v];
    AllAt(s);
    forall k | k in m
      ensures Holds(t, k)
    {
      if k != s[i].key {
        var j :| 0 <= j < |s| && s[j].key == k;
        assert t[j].key == k;
      } else {
        assert t[i].key == k;
      }
    }
    MapIs(t, m);
  }

  function Drop<V>(s: seq<Entry<V>>, i: nat): (t: seq<Entry<V>>)
    requires i < |s|
    ensures |t| == |s| - 1
  {
    s[..i] + s[i + 1..]
  }

  lemma DropAt<V>(s: seq<Entry<V>>, i: nat, j: nat)
    requires i < |s| && j < |s| - 1
    ensures Drop(s, i)[j] == if j < i then s[j] else s[j + 1]
  {
  }

  lemma DropSorted<V>(s: seq<Entry<V>>, i: nat)
    requires Sorted(s) && i < |s|
    ensures Sorted(Drop(s, i))
  {
    hide Drop;
    var t := Drop(s, i);
    forall j, k | 0 <= j < k < |t|
      ensures t[j].key < t[k].key
    {
      DropAt(s, i, j);
      DropAt(s, i, k);
    }
  }

  lemma Dropped<V>(s: seq<Entry<V>>, i: nat)
    requires Sorted(s) && i < |s|
    ensures Sorted(Drop(s, i)) && ToMap(Drop(s, i)) == ToMap(s) - {s[i].key}
  {
    var t, m := Drop(s, i), ToMap(s) - {s[i].key};
    AllAt(s);
    DropSorted(s, i);
    KeysDiffer(s, i);
    hide ToMap, Drop, Sorted;
    forall j | 0 <= j < |t|
      ensures t[j].key in m && m[t[j].key] == t[j].value
    {
      DropAt(s, i, j);
    }
    forall k | k in m
      ensures Holds(t, k)
    {
      var j :| 0 <= j < |s| && s[j].key == k;
      var at := if j < i then j else j - 1;
      DropAt(s, i, at);
      assert t[at].key == k;
    }
    MapIs(t, m);
  }

  lemma KeysDiffer<V>(s: seq<Entry<V>>, i: nat)
    requires Sorted(s) && i < |s|
    ensures forall j | 0 <= j < |s| && j != i :: s[j].key != s[i].key
  {
  }

  /** Binary search over the first n entries. */
  method Search<V>(entries: array<Entry<V>>, n: nat, key: int) returns (at: Option<nat>)
    requires n <= entries.Length && Sorted(entries[..n])
    ensures at.Some? ==> at.value < n && entries[at.value].key == key
    ensures at.None? ==> !Holds(entries[..n], key)
  {
    var lo, hi := 0, n;
    while lo < hi
      invariant 0 <= lo <= hi <= n
      invariant forall i | 0 <= i < lo :: entries[i].key < key
      invariant forall i | hi <= i < n :: key < entries[i].key
    {
      var mid := (lo + hi) / 2;
      if entries[mid].key == key {
        return Some(mid);
      }
      assert entries[..n][mid] == entries[mid];
      assert forall i | 0 <= i < n :: entries[..n][i] == entries[i];
      if entries[mid].key < key {
        lo := mid + 1;
      } else {
        hi := mid;
      }
    }
    at := None;
  }

  // ----- the order of the keys -----

  /** The key has exactly i smaller ones beside it. */
  ghost predicate IsNth<V>(m: map<int, V>, i: nat, key: int) {
    key in m && |set k | k in m && k < key| == i
  }

  lemma {:induction false} MapSize<V>(s: seq<Entry<V>>)
    requires Sorted(s)
    ensures |ToMap(s)| == |s|
    decreases |s|
  {
    if s == [] {
    } else {
      var n := |s| - 1;
      MapSize(s[..n]);
      MapHolds(s[..n], s[n].key);
      assert ToMap(s).Keys == ToMap(s[..n]).Keys + {s[n].key};
    }
  }

  lemma NthEntry<V>(s: seq<Entry<V>>, i: nat)
    requires Sorted(s) && i < |s|
    ensures IsNth(ToMap(s), i, s[i].key)
  {
    var key, below := s[i].key, s[..i];
    hide ToMap;
    MapAt(s, i);
    MapSize(below);
    forall k
      ensures k in ToMap(s) && k < key <==> k in ToMap(below)
    {
      MapHolds(s, k);
      MapHolds(below, k);
      HoldsBelow(s, i, k);
    }
    assert (set k | k in ToMap(s) && k < key) == ToMap(below).Keys;
  }

  lemma HoldsBelow<V>(s: seq<Entry<V>>, i: nat, key: int)
    requires Sorted(s) && i < |s|
    ensures Holds(s[..i], key) <==> Holds(s, key) && key < s[i].key
  {
    if Holds(s[..i], key) {
      var j :| 0 <= j < i && s[..i][j].key == key;
      assert s[j].key == key;
    }
    if Holds(s, key) && key < s[i].key {
      var j :| 0 <= j < |s| && s[j].key == key;
      assert s[..i][j].key == key;
    }
  }

  lemma NthOnce<V>(m: map<int, V>, i: nat, a: int, b: int)
    requires IsNth(m, i, a) && IsNth(m, i, b)
    ensures a == b
  {
    var x, y := (set k | k in m && k < a), (set k | k in m && k < b);
    if a < b {
      Fewer(x, y, a);
    } else if b < a {
      Fewer(y, x, b);
    }
  }

  lemma Fewer(x: set<int>, y: set<int>, a: int)
    requires x <= y && a in y && a !in x
    ensures |x| < |y|
  {
    assert |y - x| == |y| - |x|;
    assert a in y - x;
  }

  // ----- the map -----

  class Map<V(0)> {
    var entries: array<Entry<V>>
    var length: nat
    var cursor: Option<nat>

    constructor ()
      ensures Valid() && Model() == map[] && Key() == None && fresh(entries)
    {
      entries := new Entry<V>[4];
      length, cursor := 0, None;
    }

    predicate Valid()
      reads this, entries
    {
      length <= entries.Length && entries.Length > 0 && (cursor.Some? ==> cursor.value < length)
      && Sorted(entries[..length])
    }

    function Model(): map<int, V>
      requires Valid()
      reads this, entries
    {
      ToMap(entries[..length])
    }

    /** The key under the cursor. */
    function Key(): Option<int>
      requires Valid()
      reads this, entries
    {
      if cursor.Some? then Some(entries[cursor.value].key) else None
    }

    method Size() returns (n: nat)
      requires Valid()
      ensures n == length == |Model()|
    {
      MapSize(entries[..length]);
      n := length;
    }

    method GetKey() returns (key: Option<int>)
      requires Valid()
      ensures key == Key() && (key.Some? ==> key.value in Model())
    {
      if cursor.None? {
        return None;
      }
      assert entries[..length][cursor.value] == entries[cursor.value];
      MapAt(entries[..length], cursor.value);
      key := Some(entries[cursor.value].key);
    }

    method Find(key: int) returns (found: bool)
      requires Valid()
      modifies this`cursor
      ensures Valid() && found == (key in Model()) && found == cursor.Some?
      ensures found ==> entries[cursor.value] == Entry(key, Model()[key])
    {
      cursor := Search(entries, length, key);
      found := cursor.Some?;
      MapHolds(entries[..length], key);
      if found {
        assert entries[..length][cursor.value] == entries[cursor.value];
        MapAt(entries[..length], cursor.value);
      }
    }

    /** Puts the cursor on the entry with the index, if there is one. */
    method Index(index: nat)
      requires Valid()
      modifies this`cursor
      ensures Valid() && cursor == if index < length then Some(index) else old(cursor)
      ensures index < |Model()| ==> Key().Some? && IsNth(Model(), index, Key().value)
      ensures index >= |Model()| ==> Key() == old(Key())
    {
      MapSize(entries[..length]);
      if index >= length {
        return;
      }
      NthEntry(entries[..length], index);
      cursor := Some(index);
    }

    method GetValue() returns (value: Option<V>)
      requires Valid()
      ensures value.Some? <==> cursor.Some?
      ensures cursor.Some? ==>
        entries[cursor.value].key in Model() && value == Some(Model()[entries[cursor.value].key])
    {
      if cursor.None? {
        return None;
      }
      assert entries[..length][cursor.value] == entries[cursor.value];
      MapAt(entries[..length], cursor.value);
      value := Some(entries[cursor.value].value);
    }

    method SetValue(v: V)
      requires Valid() && cursor.Some?
      modifies entries
      ensures Valid() && Model() == old(Model())[old(entries[cursor.value].key) := v]
      ensures entries[cursor.value].key == old(entries[cursor.value].key)
    {
      ghost var s := entries[..length];
      Updated(s, cursor.value, v);
      entries[cursor.value] := Entry(entries[cursor.value].key, v);
      assert entries[..length] == s[cursor.value := Entry(s[cursor.value].key, v)];
    }

    /** All entries but the last are in place. */
    predicate Pending()
      reads this, entries
    {
      0 < length <= entries.Length && Sorted(entries[..length - 1])
    }

    /** Appends an entry that has no value yet. */
    method Add(key: int)
      requires Valid()
      modifies this, entries
      ensures Pending() && length == old(length) + 1 && entries[..length - 1] == old(entries[..length])
      ensures entries[length - 1].key == key && cursor == Some(length - 1)
      ensures if old(length < entries.Length) then entries == old(entries)
              else fresh(entries) && entries.Length == 2 * old(entries.Length)
    {
      if length == entries.Length {
        var bigger := new Entry<V>[2 * entries.Length];
        forall i | 0 <= i < length {
          bigger[i] := entries[i];
        }
        assert bigger[..length] == entries[..length];
        entries := bigger;
      }
      ghost var s := entries[..length];
      assert s == old(entries[..length]);
      hide Sorted;
      entries[length] := entries[length].(key := key);
      assert entries[..length] == s;
      cursor := Some(length);
      length := length + 1;
      assert entries[..length - 1] == s;
    }

    /** Moves the last entry into place, or drops it if its key is there already. */
    method Commit() returns (isNew: bool)
      requires Pending()
      modifies this, entries
      ensures Valid() && entries == old(entries) && cursor.Some?
      ensures Key() == Some(old(entries[length - 1].key))
      ensures isNew <==> old(entries[length - 1].key) !in ToMap(old(entries[..length - 1]))
      ensures var s, last := old(entries[..length - 1]), old(entries[length - 1]);
        Model() == if isNew then ToMap(s)[last.key := last.value] else ToMap(s)
    {
      var last := entries[length - 1];
      ghost var s := entries[..length - 1];
      MapHolds(s, last.key);
      cursor := Search(entries, length - 1, last.key);
      if cursor.Some? {
        assert s[cursor.value].key == last.key;
        length := length - 1;
        return false;
      }
      Settle(last, s);
      cursor := Search(entries, length, last.key);
      isNew := true;
    }

    /** Sorts the entries, of which only the last may be out of place. */
    method Settle(last: Entry<V>, ghost s: seq<Entry<V>>)
      requires Pending() && s == entries[..length - 1] && entries[length - 1] == last && !Holds(s, last.key)
      modifies entries
      ensures Sorted(entries[..length]) && Holds(entries[..length], last.key)
      ensures ToMap(entries[..length]) == ToMap(s)[last.key := last.value]
    {
      hide ToMap, Sorted, Holds, Above;
      var i := length - 1;
      NoneAbove(s, last.key);
      while i > 0 && entries[i - 1].key > last.key
        invariant 0 <= i < length
        invariant entries[..i] == s[..i] && entries[i + 1..length] == s[i..]
        invariant Above(s, i, last.key)
      {
        assert entries[..i][i - 1] == s[..i][i - 1];
        AboveMore(s, i, last.key);
        SliceBack(s, i);
        entries[i] := entries[i - 1];
        i := i - 1;
      }
      if i > 0 {
        assert entries[..i][i - 1] == s[..i][i - 1];
      }
      entries[i] := last;
      assert entries[..length] == Insert(s, i, last);
      AfterSmaller(s, i, last.key);
      Inserted(s, i, last);
    }

    /** Removes the entry under the cursor. */
    method Remove()
      requires Valid()
      modifies this, entries
      ensures Valid() && entries == old(entries) && cursor == None
      ensures old(cursor.None?) ==> Model() == old(Model())
      ensures old(cursor.Some?) ==> Model() == old(Model()) - {old(entries[cursor.value].key)}
    {
      if cursor.None? {
        return;
      }
      var index := cursor.value;
      ghost var s := entries[..length];
      Dropped(s, index);
      length := length - 1;
      forall i | index <= i < length {
        entries[i] := entries[i + 1];
      }
      assert entries[..length] == Drop(s, index);
      cursor := None;
    }

    /** The idiom of all callers: add, commit, set the value. */
    method Assign(key: int, v: V)
      requires Valid()
      modifies this, entries
      ensures Valid() && (entries == old(entries) || fresh(entries))
      ensures Model() == old(Model())[key := v] && Key() == Some(key)
    {
      Add(key);
      var _ := Commit();
      SetValue(v);
    }
  }

  /** All entries from the i-th on have larger keys. */
  predicate Above<V>(s: seq<Entry<V>>, i: nat, key: int) {
    i <= |s| && forall j | i <= j < |s| :: key < s[j].key
  }

  lemma NoneAbove<V>(s: seq<Entry<V>>, key: int)
    ensures Above(s, |s|, key)
  {
  }

  lemma AboveMore<V>(s: seq<Entry<V>>, i: nat, key: int)
    requires Above(s, i, key) && i > 0 && key < s[i - 1].key
    ensures Above(s, i - 1, key)
  {
  }

  lemma SliceBack<V>(s: seq<Entry<V>>, i: nat)
    requires 0 < i <= |s|
    ensures s[i - 1..] == [s[i - 1]] + s[i..]
  {
  }

  /** Not larger than what comes before, and not equal to anything, is in its place. */
  lemma AfterSmaller<V>(s: seq<Entry<V>>, i: nat, key: int)
    requires Sorted(s) && !Holds(s, key) && Above(s, i, key) && (i > 0 ==> s[i - 1].key <= key)
    ensures Place(s, i, key)
  {
    if i > 0 {
      assert s[i - 1].key != key;
    }
  }

  // ----- whole runs -----

  /** All that callers do. Commit adds a key and commits it, which may or may not be followed by
      setting a value. */
  datatype Operation<V> =
    | Commit(key: int)
    | Set(v: V)
    | Find(key: int)
    | Index(i: nat)
    | GetKey
    | Get
    | Remove
    | Size

  datatype Answer<V> = Done | Flag(b: bool) | Key(key: Option<int>) | Got(v: Option<V>) | Unset | Count(n: nat)

  /** A finite map with a key that the cursor is on. A committed key has no value until one is set. */
  datatype Abstract<V> = Abstract(m: map<int, Option<V>>, at: Option<int>)

  ghost predicate Consistent<V>(a: Abstract<V>) {
    a.at.Some? ==> a.at.value in a.m
  }

  /** What an operation does to the finite map and the cursor, and what it answers. */
  ghost function Step<V>(a: Abstract<V>, op: Operation<V>): (r: (Abstract<V>, Answer<V>))
    requires Consistent(a)
    ensures Consistent(r.0)
  {
    match op
    case Commit(k) => (Abstract(if k in a.m then a.m else a.m[k := None], Some(k)), Flag(k !in a.m))
    case Set(v) => (if a.at.Some? then a.(m := a.m[a.at.value := Some(v)]) else a, Done)
    case Find(k) => (a.(at := if k in a.m then Some(k) else None), Flag(k in a.m))
    case Index(i) =>
      (if exists k :: IsNth(a.m, i, k) then
         var k :| IsNth(a.m, i, k);
         a.(at := Some(k))
       else a, Done)
    case GetKey => (a, Key(a.at))
    case Get =>
      (a, if a.at.None? then Got(None) else if a.m[a.at.value].None? then Unset else Got(a.m[a.at.value]))
    case Remove => (if a.at.Some? then Abstract(a.m - {a.at.value}, None) else a, Done)
    case Size => (a, Count(|a.m|))
  }

  ghost function Replay<V>(a: Abstract<V>, ops: seq<Operation<V>>): seq<Answer<V>>
    requires Consistent(a)
    decreases |ops|
  {
    if ops == [] then [] else [Step(a, ops[0]).1] + Replay(Step(a, ops[0]).0, ops[1..])
  }

  /** Of a value that was never set only this is known: that there is one. */
  ghost predicate Fits<V>(answer: Answer<V>, expected: Answer<V>) {
    if expected.Unset? then answer.Got? && answer.v.Some? else answer == expected
  }

  ghost predicate AllFit<V>(answers: seq<Answer<V>>, expected: seq<Answer<V>>) {
    |answers| == |expected| && forall i | 0 <= i < |answers| :: Fits(answers[i], expected[i])
  }

  /** The entries and the cursor are those of the abstract map, wherever a value was set. */
  ghost predicate Shows<V>(m: map<int, V>, at: Option<int>, a: Abstract<V>) {
    m.Keys == a.m.Keys && at == a.at && Consistent(a)
    && forall k | k in m && a.m[k].Some? :: m[k] == a.m[k].value
  }

  lemma ShowsIndex<V>(m: map<int, V>, at: Option<int>, a: Abstract<V>, i: nat, at': Option<int>)
    requires Shows(m, at, a)
    requires if i < |m| then at'.Some? && IsNth(m, i, at'.value) else at' == at
    ensures Shows(m, at', Step(a, Index(i)).0)
  {
    forall k
      ensures IsNth(m, i, k) <==> IsNth(a.m, i, k)
    {
      assert (set j | j in m && j < k) == (set j | j in a.m && j < k);
    }
    if i < |m| {
      assert IsNth(a.m, i, at'.value);
      var k :| IsNth(a.m, i, k) && Step(a, Index(i)).0 == a.(at := Some(k));
      NthOnce(a.m, i, k, at'.value);
    } else {
      forall k
        ensures !IsNth(a.m, i, k)
      {
        if k in m {
          var below := set j | j in m && j < k;
          Fewer(below, m.Keys, k);
        }
      }
    }
  }

  /** One operation: the map goes on showing what the abstract one becomes. */
  method Perform<V(0)>(m: Map<V>, op: Operation<V>, ghost a: Abstract<V>) returns (answer: Answer<V>)
    requires m.Valid() && Shows(m.Model(), m.Key(), a)
    modifies m, m.entries
    ensures m.Valid() && (m.entries == old(m.entries) || fresh(m.entries))
    ensures Shows(m.Model(), m.Key(), Step(a, op).0) && Fits(answer, Step(a, op).1)
  {
    hide ToMap, Sorted, IsNth;
    answer := Done;
    match op {
      case Commit(k) =>
        m.Add(k);
        var isNew := m.Commit();
        answer := Flag(isNew);
      case Set(v) =>
        if m.cursor.Some? {
          m.SetValue(v);
        }
      case Find(k) =>
        var found := m.Find(k);
        answer := Flag(found);
      case Index(i) =>
        m.Index(i);
        ShowsIndex(old(m.Model()), old(m.Key()), a, i, m.Key());
      case GetKey =>
        var key := m.GetKey();
        answer := Key(key);
      case Get =>
        var value := m.GetValue();
        answer := Got(value);
      case Remove =>
        m.Remove();
      case Size =>
        var n := m.Size();
        assert |m.Model().Keys| == |a.m.Keys|;
        answer := Count(n);
    }
  }

  /** Every run gives the answers of a finite map with a cursor. */
  method Run<V(0)>(ops: seq<Operation<V>>) returns (answers: seq<Answer<V>>)
    ensures AllFit(answers, Replay(Abstract(map[], None), ops))
  {
    var m := new Map<V>();
    ghost var a: Abstract<V> := Abstract(map[], None);
    assert Shows(m.Model(), m.Key(), a);
    hide ToMap, Sorted, Step, Shows, Fits;
    answers := [];
    ghost var expected: seq<Answer<V>> := [];
    for i := 0 to |ops|
      invariant m.Valid() && fresh(m) && fresh(m.entries) && Consistent(a)
      invariant Shows(m.Model(), m.Key(), a) && AllFit(answers, expected)
      invariant Replay(Abstract(map[], None), ops) == expected + Replay(a, ops[i..])
    {
      ghost var rest := ops[i..];
      assert rest[1..] == ops[i + 1..];
      var answer := Perform(m, ops[i], a);
      Assoc(expected, [Step(a, ops[i]).1], Replay(Step(a, ops[i]).0, ops[i + 1..]));
      expected := expected + [Step(a, ops[i]).1];
      a := Step(a, ops[i]).0;
      answers := answers + [answer];
    }
  }
}
