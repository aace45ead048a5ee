/** Struct and union layout, and four separate recursions over a type that have to agree on it:
    the list of leaves for initializers, their number, designators, and field lookup. */
module Layout {
  import opened Basics
  import opened Syntax
  import FL = FrameLayout

  /** A field's name is part of its type. An array count of -1 stands for an array without a size. */
  datatype Type =
    | Scalar(name: Option<string>, size: nat, align: nat)
    | Aggregate(name: Option<string>, isUnion: bool, fields: seq<Type>)
    | Array(name: Option<string>, base: Type, count: int)

  /** Alignments are positive. */
  predicate Proper(t: Type) {
    match t
    case Scalar(_, _, a) => a > 0
    case Aggregate(_, _, fs) => AllProper(fs)
    case Array(_, b, n) => Proper(b) && n >= -1
  }

  predicate AllProper(fs: seq<Type>) {
    fs == [] || (Proper(fs[0]) && AllProper(fs[1..]))
  }

  // ----- layout -----

  function AlignOf(t: Type): (r: nat)
    requires Proper(t)
    ensures r > 0
  {
    match t
    case Scalar(_, _, a) => a
    case Aggregate(_, _, fs) => MaxAlign(fs, 1)
    case Array(_, b, _) => AlignOf(b)
  }

  function MaxAlign(fs: seq<Type>, m: nat): (r: nat)
    requires AllProper(fs)
    ensures r >= m
  {
    if fs == [] then m else MaxAlign(fs[1..], Max(m, AlignOf(fs[0])))
  }

  function AtLeastOne(n: nat): nat {
    if n == 0 then 1 else n
  }

  function SizeOf(t: Type): nat
    requires Proper(t)
    decreases t, 0
  {
    match t
    case Scalar(_, n, _) => n
    case Aggregate(_, false, fs) => AtLeastOne(FL.AlignUp(FieldsEnd(fs, 0), MaxAlign(fs, 1)))
    case Aggregate(_, true, fs) => AtLeastOne(FL.AlignUp(MaxSize(fs, 0), MaxAlign(fs, 1)))
    case Array(_, b, n) => if n < 0 then 0 else SizeOf(b) * n
  }

  function MaxSize(fs: seq<Type>, m: nat): (r: nat)
    requires AllProper(fs)
    ensures r >= m
    decreases fs, 1
  {
    if fs == [] then m else MaxSize(fs[1..], Max(m, SizeOf(fs[0])))
  }

  /** Where the first of the fields starts if the ones before end at ptr. */
  function Start(fs: seq<Type>, ptr: nat): (r: nat)
    requires AllProper(fs) && fs != []
    ensures r >= ptr
  {
    FL.AlignUp(ptr, AlignOf(fs[0]))
  }

  function FieldsEnd(fs: seq<Type>, ptr: nat): (r: nat)
    requires AllProper(fs)
    ensures r >= ptr
    decreases fs, 1
  {
    if fs == [] then ptr else FieldsEnd(fs[1..], Start(fs, ptr) + SizeOf(fs[0]))
  }

  function Offsets(fs: seq<Type>, ptr: nat): (r: seq<nat>)
    requires AllProper(fs)
    ensures |r| == |fs|
  {
    if fs == [] then [] else [Start(fs, ptr)] + Offsets(fs[1..], Start(fs, ptr) + SizeOf(fs[0]))
  }

  function Zeros(n: nat): (r: seq<nat>)
    ensures |r| == n
  {
    if n == 0 then [] else Zeros(n - 1) + [0]
  }

  function OffsetsOf(t: Type): (r: seq<nat>)
    requires t.Aggregate? && Proper(t)
    ensures |r| == |t.fields|
  {
    if t.isUnion then Zeros(|t.fields|) else Offsets(t.fields, 0)
  }

  // ----- layout as the source computes it -----

  class Record {
    const isUnion: bool
    const fields: seq<Type>
    const offsets: array<nat>
    var size: nat
    var alignment: nat

    constructor (isUnion: bool, fields: seq<Type>)
      ensures this.isUnion == isUnion && this.fields == fields
      ensures fresh(offsets) && offsets.Length == |fields|
    {
      this.isUnion, this.fields := isUnion, fields;
      offsets := new nat[|fields|];
      size, alignment := 0, 0;
    }

    /** Lays the fields out. */
    method Update()
      requires offsets.Length == |fields| && AllProper(fields)
      modifies this, offsets
      ensures var t := Aggregate(None, isUnion, fields);
        size == SizeOf(t) && alignment == AlignOf(t) && offsets[..] == OffsetsOf(t)
    {
      if isUnion {
        UpdateUnion();
      } else {
        UpdateStruct();
      }
    }

    method UpdateStruct()
      requires offsets.Length == |fields| && AllProper(fields)
      modifies this, offsets
      ensures size == AtLeastOne(FL.AlignUp(FieldsEnd(fields, 0), MaxAlign(fields, 1)))
      ensures alignment == MaxAlign(fields, 1) && offsets[..] == Offsets(fields, 0)
    {
      var maxAlignment: nat, ptr: nat := 1, 0;
      LoopStarts(fields);
      hide FieldsEnd, Offsets, MaxAlign, AllProper, SizeOf, AlignOf, FL.AlignUp;
      for i := 0 to |fields|
        invariant AllProper(fields[i..])
        invariant MaxAlign(fields[i..], maxAlignment) == MaxAlign(fields, 1)
        invariant FieldsEnd(fields[i..], ptr) == FieldsEnd(fields, 0)
        invariant offsets[..i] + Offsets(fields[i..], ptr) == Offsets(fields, 0)
      {
        LoopStep(fields[i..], ptr, maxAlignment);
        assert fields[i..][1..] == fields[i + 1..];
        ghost var done := offsets[..i];
        var field := fields[i];
        var align := AlignOf(field);
        ghost var at := FL.AlignUp(ptr, align);
        PadsUp(ptr, align);
        if ptr % align != 0 {
          ptr := ptr + (align - ptr % align);
        }
        assert ptr == at;
        if maxAlignment < align {
          maxAlignment := align;
        }
        offsets[i] := ptr;
        assert offsets[..i + 1] == done + [ptr];
        Assoc(done, [ptr], Offsets(fields[i + 1..], ptr + SizeOf(field)));
        ptr := ptr + SizeOf(field);
      }
      LoopEnds(fields[|fields|..], ptr, maxAlignment);
      assert offsets[..] == offsets[..|fields|] + [];
      PadsUp(ptr, maxAlignment);
      if ptr % maxAlignment != 0 {
        ptr := ptr + (maxAlignment - ptr % maxAlignment);
      }
      if ptr == 0 {
        ptr := ptr + 1;
      }
      alignment, size := maxAlignment, ptr;
    }

    method UpdateUnion()
      requires offsets.Length == |fields| && AllProper(fields)
      modifies this, offsets
      ensures size == AtLeastOne(FL.AlignUp(MaxSize(fields, 0), MaxAlign(fields, 1)))
      ensures alignment == MaxAlign(fields, 1) && offsets[..] == Zeros(|fields|)
    {
      var maxAlignment: nat, maxSize: nat := 1, 0;
      for i := 0 to |fields|
        invariant AllProper(fields[i..])
        invariant MaxAlign(fields[i..], maxAlignment) == MaxAlign(fields, 1)
        invariant MaxSize(fields[i..], maxSize) == MaxSize(fields, 0)
        invariant offsets[..i] == Zeros(i)
      {
        assert fields[i..][1..] == fields[i + 1..];
        var field := fields[i];
        if maxAlignment < AlignOf(field) {
          maxAlignment := AlignOf(field);
        }
        if maxSize < SizeOf(field) {
          maxSize := SizeOf(field);
        }
        offsets[i] := 0;
      }
      if maxSize % maxAlignment != 0 {
        maxSize := maxSize + (maxAlignment - maxSize % maxAlignment);
      }
      if maxSize == 0 {
        maxSize := maxSize + 1;
      }
      alignment, size := maxAlignment, maxSize;
    }
  }

  lemma LoopStarts(fs: seq<Type>)
    ensures fs[0..] == fs
  {
  }

  lemma PadsUp(ptr: nat, align: nat)
    requires align > 0
    ensures FL.AlignUp(ptr, align) == if ptr % align != 0 then ptr + (align - ptr % align) else ptr
  {
  }

  lemma LoopStep(fs: seq<Type>, ptr: nat, m: nat)
    requires AllProper(fs) && fs != []
    ensures Proper(fs[0]) && AllProper(fs[1..])
    ensures var a, n := AlignOf(fs[0]), SizeOf(fs[0]);
      var at := FL.AlignUp(ptr, a);
      && MaxAlign(fs, m) == MaxAlign(fs[1..], if m < a then a else m)
      && FieldsEnd(fs, ptr) == FieldsEnd(fs[1..], at + n)
      && Offsets(fs, ptr) == [at] + Offsets(fs[1..], at + n)
  {
    PadsUp(ptr, AlignOf(fs[0]));
  }

  lemma LoopEnds(fs: seq<Type>, ptr: nat, m: nat)
    requires fs == []
    ensures MaxAlign(fs, m) == m && FieldsEnd(fs, ptr) == ptr && Offsets(fs, ptr) == []
  {
  }

  // ----- what the layout guarantees -----

  lemma {:induction false} ProperAt(fs: seq<Type>, i: nat)
    requires AllProper(fs) && i < |fs|
    ensures Proper(fs[i])
    decreases |fs|
  {
    if i > 0 {
      ProperAt(fs[1..], i - 1);
    }
  }

  /** A field of a struct starts aligned, behind the field before it, and ends inside. */
  lemma {:induction false} FieldPlaced(fs: seq<Type>, ptr: nat, i: nat)
    requires AllProper(fs) && i < |fs|
    ensures Proper(fs[i])
    ensures var o, end := Offsets(fs, ptr), Offsets(fs, ptr)[i] + SizeOf(fs[i]);
      && o[i] >= ptr && o[i] % AlignOf(fs[i]) == 0
      && end <= FieldsEnd(fs, ptr) && (i + 1 < |fs| ==> end <= o[i + 1])
    decreases |fs|
  {
    var next := Start(fs, ptr) + SizeOf(fs[0]);
    if i > 0 {
      FieldPlaced(fs[1..], next, i - 1);
    } else if |fs| > 1 {
      FieldPlaced(fs[1..], next, 0);
    }
  }

  lemma {:induction false} FieldsDisjoint(fs: seq<Type>, ptr: nat, i: nat, j: nat)
    requires AllProper(fs) && i < j < |fs|
    ensures Proper(fs[i]) && Offsets(fs, ptr)[i] + SizeOf(fs[i]) <= Offsets(fs, ptr)[j]
    decreases j
  {
    FieldPlaced(fs, ptr, i);
    if i + 1 < j {
      FieldsDisjoint(fs, ptr, i, j - 1);
      ProperAt(fs, j - 1);
      FieldPlaced(fs, ptr, j - 1);
    }
  }

  lemma {:induction false} ZerosAt(n: nat, i: nat)
    requires i < n
    ensures Zeros(n)[i] == 0
    decreases n
  {
    if i < n - 1 {
      ZerosAt(n - 1, i);
    }
  }

  lemma {:induction false} MemberFits(fs: seq<Type>, m: nat, a: nat, i: nat)
    requires AllProper(fs) && i < |fs|
    ensures Proper(fs[i]) && SizeOf(fs[i]) <= MaxSize(fs, m) && AlignOf(fs[i]) <= MaxAlign(fs, a)
    decreases |fs|
  {
    if i > 0 {
      MemberFits(fs[1..], Max(m, SizeOf(fs[0])), Max(a, AlignOf(fs[0])), i - 1);
    }
  }

  /** Every field lies aligned inside its aggregate; those of a struct do not overlap. */
  lemma FieldsLaidOut(t: Type, i: nat)
    requires t.Aggregate? && Proper(t) && i < |t.fields|
    ensures Proper(t.fields[i])
    ensures var o, f := OffsetsOf(t), t.fields[i];
      && o[i] % AlignOf(f) == 0 && o[i] + SizeOf(f) <= SizeOf(t) && AlignOf(f) <= AlignOf(t)
      && (t.isUnion ==> o[i] == 0)
      && (!t.isUnion ==> forall j | i < j < |t.fields| :: o[i] + SizeOf(f) <= o[j])
  {
    ProperAt(t.fields, i);
    MemberFits(t.fields, 0, 1, i);
    if t.isUnion {
      ZerosAt(|t.fields|, i);
    } else {
      FieldPlaced(t.fields, 0, i);
      forall j | i < j < |t.fields|
        ensures OffsetsOf(t)[i] + SizeOf(t.fields[i]) <= OffsetsOf(t)[j]
      {
        FieldsDisjoint(t.fields, 0, i, j);
      }
    }
  }

  /** The content of an aggregate before padding. */
  function Content(t: Type): nat
    requires t.Aggregate? && Proper(t)
  {
    if t.isUnion then MaxSize(t.fields, 0) else FieldsEnd(t.fields, 0)
  }

  /** An aggregate's size is a multiple of its alignment exactly unless it has no content but an
      alignment above one: then it still gets one byte. */
  lemma SizeMultipleExactly(t: Type)
    requires t.Aggregate? && Proper(t)
    ensures SizeOf(t) % AlignOf(t) == 0 <==> Content(t) > 0 || AlignOf(t) == 1
    ensures SizeOf(t) > 0
  {
    var a := AlignOf(t);
    if Content(t) == 0 {
      assert FL.AlignUp(0, a) == 0;
      if a > 1 {
        assert 1 % a == 1;
      }
    }
  }

  // ----- leaves -----

  /** What one item of an initializer initializes. */
  datatype Leaf = Leaf(ty: Type, offset: nat)

  function Leaves(t: Type, base: nat): (r: seq<Leaf>)
    requires Proper(t)
    decreases t, 0, 0
  {
    if t.Aggregate? && t.fields != [] then FieldLeaves(t.fields, OffsetsOf(t), base)
    else if t.Array? && t.count != 0 then ElementLeaves(t.base, base, if t.count == -1 then 1 else t.count)
    else [Leaf(t, base)]
  }

  function FieldLeaves(fs: seq<Type>, offsets: seq<nat>, base: nat): seq<Leaf>
    requires AllProper(fs) && |offsets| == |fs|
    decreases fs, 1, 0
  {
    if fs == [] then [] else Leaves(fs[0], base + offsets[0]) + FieldLeaves(fs[1..], offsets[1..], base)
  }

  /** The leaves of n array elements, the last one behind those before it. */
  function ElementLeaves(b: Type, base: nat, n: nat): seq<Leaf>
    requires Proper(b)
    decreases b, 1, n
  {
    if n == 0 then [] else ElementLeaves(b, base, n - 1) + Leaves(b, base + (n - 1) * SizeOf(b))
  }

  function NumElements(t: Type): int {
    match t
    case Scalar(_, _, _) => 1
    case Aggregate(_, _, fs) => TotalElements(fs)
    case Array(_, b, n) => NumElements(b) * n
  }

  function TotalElements(fs: seq<Type>): int {
    if fs == [] then 0 else NumElements(fs[0]) + TotalElements(fs[1..])
  }

  /** A non-negative result is the index of a leaf; a negative one is the complement of a count. */
  function Designate(t: Type, name: string): int
    requires t.Aggregate?
    decreases t
  {
    DesignateFrom(t.fields, name, 0)
  }

  function DesignateFrom(fs: seq<Type>, name: string, offset: int): int
    decreases fs
  {
    if fs == [] then -offset - 1
    else if fs[0].Aggregate? && fs[0].name.None? then
      var off := Designate(fs[0], name);
      if off >= 0 then offset + off else DesignateFrom(fs[1..], name, offset + (-off - 1))
    else if fs[0].name == Some(name) then offset
    else DesignateFrom(fs[1..], name, offset + NumElements(fs[0]))
  }

  /** Field lookup: the type and the byte offset. */
  function Walk(t: Type, name: string): Option<Leaf>
    requires t.Aggregate? && Proper(t)
    decreases t
  {
    WalkFrom(t.fields, OffsetsOf(t), name)
  }

  function WalkFrom(fs: seq<Type>, offsets: seq<nat>, name: string): Option<Leaf>
    requires AllProper(fs) && |offsets| == |fs|
    decreases fs
  {
    if fs == [] then None
    else if fs[0].name.None? then
      var inner := if fs[0].Aggregate? then Walk(fs[0], name) else None;
      if inner.Some? then Some(Leaf(inner.value.ty, inner.value.offset + offsets[0]))
      else WalkFrom(fs[1..], offsets[1..], name)
    else if fs[0].name == Some(name) then Some(Leaf(fs[0], offsets[0]))
    else WalkFrom(fs[1..], offsets[1..], name)
  }

  // ----- the four as the source has them -----

  class Elements {
    var list: seq<Leaf>

    constructor ()
      ensures list == []
    {
      list := [];
    }

    method Append(t: Type, base: nat)
      requires Proper(t)
      modifies this
      ensures list == old(list) + Leaves(t, base)
      decreases t, 1
    {
      if t.Aggregate? && t.fields != [] {
        AppendFields(t, base);
      } else if t.Array? && t.count != 0 {
        AppendElements(t.base, base, if t.count == -1 then 1 else t.count);
      } else {
        list := list + [Leaf(t, base)];
      }
    }

    method AppendFields(t: Type, base: nat)
      requires Proper(t) && t.Aggregate?
      modifies this
      ensures list == old(list) + FieldLeaves(t.fields, OffsetsOf(t), base)
      decreases t, 0
    {
      var offsets := OffsetsOf(t);
      for i := 0 to |t.fields|
        invariant AllProper(t.fields[i..])
        invariant list + FieldLeaves(t.fields[i..], offsets[i..], base)
          == old(list) + FieldLeaves(t.fields, offsets, base)
      {
        assert t.fields[i..][1..] == t.fields[i + 1..] && offsets[i..][1..] == offsets[i + 1..];
        ghost var before := list;
        Append(t.fields[i], base + offsets[i]);
        Assoc(before, Leaves(t.fields[i], base + offsets[i]),
              FieldLeaves(t.fields[i + 1..], offsets[i + 1..], base));
      }
      assert list + [] == list;
    }

    method AppendElements(b: Type, base: nat, n: nat)
      requires Proper(b)
      modifies this
      ensures list == old(list) + ElementLeaves(b, base, n)
      decreases b, 2
    {
      assert list + [] == list;
      for i := 0 to n
        invariant list == old(list) + ElementLeaves(b, base, i)
      {
        Multiplies(i, SizeOf(b));
        Append(b, base + i * SizeOf(b));
        Assoc(old(list), ElementLeaves(b, base, i), Leaves(b, base + i * SizeOf(b)));
      }
    }
  }

  lemma Multiplies(i: nat, n: nat)
    ensures i * n >= 0
  {
  }

  method CountElements(t: Type) returns (total: int)
    ensures total == NumElements(t)
    decreases t
  {
    total := 0;
    if t.Aggregate? {
      for i := 0 to |t.fields|
        invariant total + TotalElements(t.fields[i..]) == NumElements(t)
      {
        assert t.fields[i..][1..] == t.fields[i + 1..];
        var inner := CountElements(t.fields[i]);
        total := total + inner;
      }
    } else if t.Array? {
      var inner := CountElements(t.base);
      total := inner * t.count;
    } else {
      total := 1;
    }
  }

  method DesignateStruct(t: Type, name: string) returns (index: int)
    requires t.Aggregate?
    ensures index == Designate(t, name)
    decreases t
  {
    var offset := 0;
    for i := 0 to |t.fields|
      invariant DesignateFrom(t.fields[i..], name, offset) == Designate(t, name)
    {
      assert t.fields[i..][1..] == t.fields[i + 1..];
      var field := t.fields[i];
      if field.Aggregate? && field.name.None? {
        var off := DesignateStruct(field, name);
        if off >= 0 {
          return offset + off;
        }
        offset := offset + (-off - 1);
      } else {
        if field.name == Some(name) {
          return offset;
        }
        var inner := CountElements(field);
        offset := offset + inner;
      }
    }
    index := -offset - 1;
  }

  method WalkStruct(t: Type, name: string) returns (found: Option<Leaf>)
    requires t.Aggregate? && Proper(t)
    ensures found == Walk(t, name)
    decreases t
  {
    var offsets := OffsetsOf(t);
    for i := 0 to |t.fields|
      invariant AllProper(t.fields[i..])
      invariant WalkFrom(t.fields[i..], offsets[i..], name) == Walk(t, name)
    {
      assert t.fields[i..][1..] == t.fields[i + 1..] && offsets[i..][1..] == offsets[i + 1..];
      var field := t.fields[i];
      if field.name.None? {
        if field.Aggregate? {
          var inner := WalkStruct(field, name);
          if inner.Some? {
            return Some(Leaf(inner.value.ty, inner.value.offset + offsets[i]));
          }
        }
      } else if field.name == Some(name) {
        return Some(Leaf(field, offsets[i]));
      }
    }
    found := None;
  }

  // ----- counting leaves -----

  /** Neither empty aggregates nor empty or unsized arrays. */
  predicate Full(t: Type) {
    match t
    case Scalar(_, _, _) => true
    case Aggregate(_, _, fs) => fs != [] && AllFull(fs)
    case Array(_, b, n) => n > 0 && Full(b)
  }

  predicate AllFull(fs: seq<Type>) {
    fs == [] || (Full(fs[0]) && AllFull(fs[1..]))
  }

  predicate Sized(t: Type) {
    match t
    case Scalar(_, _, _) => true
    case Aggregate(_, _, fs) => AllSized(fs)
    case Array(_, b, n) => n >= 0 && Sized(b)
  }

  predicate AllSized(fs: seq<Type>) {
    fs == [] || (Sized(fs[0]) && AllSized(fs[1..]))
  }

  /** The number of leaves, wherever the object lies. */
  function CountOf(t: Type): (r: nat)
    ensures r > 0
  {
    if t.Aggregate? && t.fields != [] then CountAll(t.fields)
    else if t.Array? && t.count > 0 then
      Product(CountOf(t.base), t.count);
      CountOf(t.base) * t.count
    else if t.Array? && t.count < 0 then CountOf(t.base)
    else 1
  }

  lemma Product(a: nat, n: nat)
    requires a > 0 && n > 0
    ensures a * n >= n
  {
    assert a * n == (a - 1) * n + n;
    Multiplies(a - 1, n);
  }

  function CountAll(fs: seq<Type>): (r: nat)
    ensures fs != [] ==> r > 0
  {
    if fs == [] then 0 else CountOf(fs[0]) + CountAll(fs[1..])
  }

  lemma {:induction false} LeavesCounted(t: Type, base: nat)
    requires Proper(t)
    ensures |Leaves(t, base)| == CountOf(t)
    decreases t, 0, 0
  {
    if t.Aggregate? && t.fields != [] {
      FieldLeavesCounted(t.fields, OffsetsOf(t), base);
    } else if t.Array? && t.count != 0 {
      ElementLeavesCounted(t.base, base, if t.count == -1 then 1 else t.count);
    }
  }

  lemma {:induction false} FieldLeavesCounted(fs: seq<Type>, offsets: seq<nat>, base: nat)
    requires AllProper(fs) && |offsets| == |fs|
    ensures |FieldLeaves(fs, offsets, base)| == CountAll(fs)
    decreases fs, 1, 0
  {
    if fs == [] {
    } else {
      LeavesCounted(fs[0], base + offsets[0]);
      FieldLeavesCounted(fs[1..], offsets[1..], base);
    }
  }

  lemma OneMore(a: int, n: int)
    ensures a * n == a * (n - 1) + a
  {
  }

  lemma {:induction false} ElementLeavesCounted(b: Type, base: nat, n: nat)
    requires Proper(b)
    ensures |ElementLeaves(b, base, n)| == CountOf(b) * n
    decreases b, 1, n
  {
    if n == 0 {
    } else {
      ElementLeavesCounted(b, base, n - 1);
      Multiplies(n - 1, SizeOf(b));
      LeavesCounted(b, base + (n - 1) * SizeOf(b));
      OneMore(CountOf(b), n);
    }
  }

  lemma {:induction false} CountExactly(t: Type)
    requires Sized(t)
    ensures 0 <= NumElements(t) <= CountOf(t) && (NumElements(t) == CountOf(t) <==> Full(t))
    decreases t
  {
    match t
    case Scalar(_, _, _) =>
    case Aggregate(_, _, fs) => CountAllExactly(fs);
    case Array(_, b, n) =>
      CountExactly(b);
      if n > 0 {
        Scaled(NumElements(b), CountOf(b), n);
      }
  }

  lemma Scaled(a: nat, b: nat, n: nat)
    requires a <= b && n > 0
    ensures 0 <= a * n <= b * n && (a * n == b * n <==> a == b)
  {
    Multiplies(a, n);
    assert b * n - a * n == (b - a) * n;
    if a < b {
      Product(b - a, n);
    }
  }

  lemma {:induction false} CountAllExactly(fs: seq<Type>)
    requires AllSized(fs)
    ensures 0 <= TotalElements(fs) <= CountAll(fs) && (TotalElements(fs) == CountAll(fs) <==> AllFull(fs))
    decreases fs
  {
    if fs == [] {
    } else {
      CountExactly(fs[0]);
      CountAllExactly(fs[1..]);
    }
  }

  /** The parts of a type are always complete; only the whole may be an array without a size. */
  predicate Declarable(t: Type) {
    Sized(t) || (t.Array? && Sized(t.base))
  }

  /** The number of elements is the number of leaves if and only if nothing in the type is empty. */
  lemma ElementsAreLeaves(t: Type, base: nat)
    requires Proper(t) && Declarable(t)
    ensures NumElements(t) == |Leaves(t, base)| <==> Full(t)
  {
    LeavesCounted(t, base);
    if Sized(t) {
      CountExactly(t);
    } else {
      CountExactly(t.base);
    }
  }

  // ----- where the leaves lie -----

  ghost predicate LieWithin(ls: seq<Leaf>, lo: nat, hi: nat) {
    forall l | l in ls :: Proper(l.ty) && lo <= l.offset && l.offset + SizeOf(l.ty) <= hi
  }

  /** Each leaf ends before the next ones begin. */
  ghost predicate InOrder(ls: seq<Leaf>) {
    forall i, j | 0 <= i < j < |ls| :: Proper(ls[i].ty) && ls[i].offset + SizeOf(ls[i].ty) <= ls[j].offset
  }

  predicate NoUnions(t: Type) {
    match t
    case Scalar(_, _, _) => true
    case Aggregate(_, isUnion, fs) => !isUnion && AllNoUnions(fs)
    case Array(_, b, _) => NoUnions(b)
  }

  predicate AllNoUnions(fs: seq<Type>) {
    fs == [] || (NoUnions(fs[0]) && AllNoUnions(fs[1..]))
  }

  lemma JoinWithin(a: seq<Leaf>, b: seq<Leaf>, lo: nat, mid: nat, hi: nat)
    requires LieWithin(a, lo, mid) && LieWithin(b, mid, hi) && lo <= mid <= hi
    ensures LieWithin(a + b, lo, hi)
    ensures InOrder(a) && InOrder(b) ==> InOrder(a + b)
  {
    if InOrder(a) && InOrder(b) {
      var ls := a + b;
      forall i, j | 0 <= i < j < |ls|
        ensures Proper(ls[i].ty) && ls[i].offset + SizeOf(ls[i].ty) <= ls[j].offset
      {
        if i < |a| {
          assert ls[i] in a;
          if j >= |a| {
            assert ls[j] in b;
          }
        } else {
          assert ls[i] == b[i - |a|] && ls[j] == b[j - |a|];
        }
      }
    }
  }

  lemma WiderWithin(ls: seq<Leaf>, lo: nat, hi: nat, lo': nat, hi': nat)
    requires LieWithin(ls, lo, hi) && lo' <= lo && hi <= hi'
    ensures LieWithin(ls, lo', hi')
  {
  }

  lemma OneWithin(t: Type, base: nat)
    requires Proper(t)
    ensures LieWithin([Leaf(t, base)], base, base + SizeOf(t)) && InOrder([Leaf(t, base)])
  {
  }

  /** Every leaf lies inside the object; without unions no two of them overlap, and they follow each
      other. */
  lemma {:induction false} LeavesPlaced(t: Type, base: nat)
    requires Proper(t) && Sized(t)
    ensures LieWithin(Leaves(t, base), base, base + SizeOf(t))
    ensures NoUnions(t) ==> InOrder(Leaves(t, base))
    decreases t, 2, 0
  {
    if t.Aggregate? && t.fields != [] {
      if t.isUnion {
        UnionLeavesPlaced(t.fields, base, SizeOf(t));
      } else {
        StructLeavesPlaced(t.fields, 0, base);
        WiderWithin(Leaves(t, base), base, base + FieldsEnd(t.fields, 0), base, base + SizeOf(t));
      }
    } else if t.Array? && t.count != 0 {
      ElementLeavesPlaced(t.base, base, t.count);
    } else {
      OneWithin(t, base);
    }
  }

  lemma {:induction false} StructLeavesPlaced(fs: seq<Type>, ptr: nat, base: nat)
    requires AllProper(fs) && AllSized(fs)
    ensures LieWithin(FieldLeaves(fs, Offsets(fs, ptr), base), base + ptr, base + FieldsEnd(fs, ptr))
    ensures AllNoUnions(fs) ==> InOrder(FieldLeaves(fs, Offsets(fs, ptr), base))
    decreases fs, 1, 0
  {
    if fs == [] {
      return;
    }
    var at := Start(fs, ptr);
    var next := at + SizeOf(fs[0]);
    LeavesPlaced(fs[0], base + at);
    StructLeavesPlaced(fs[1..], next, base);
    var first, rest := Leaves(fs[0], base + at), FieldLeaves(fs[1..], Offsets(fs[1..], next), base);
    assert Offsets(fs, ptr)[1..] == Offsets(fs[1..], next);
    assert FieldLeaves(fs, Offsets(fs, ptr), base) == first + rest;
    hide LieWithin, InOrder, Leaves, FieldLeaves, SizeOf;
    JoinWithin(first, rest, base + at, base + next, base + FieldsEnd(fs[1..], next));
    WiderWithin(first + rest, base + at, base + FieldsEnd(fs, ptr), base + ptr, base + FieldsEnd(fs, ptr));
  }

  lemma {:induction false} UnionLeavesPlaced(fs: seq<Type>, base: nat, size: nat)
    requires AllProper(fs) && AllSized(fs) && MaxSize(fs, 0) <= size
    ensures LieWithin(FieldLeaves(fs, Zeros(|fs|), base), base, base + size)
    decreases fs, 1, 0
  {
    UnionFrom(fs, base, size, 0);
  }

  lemma {:induction false} UnionFrom(fs: seq<Type>, base: nat, size: nat, m: nat)
    requires AllProper(fs) && AllSized(fs) && MaxSize(fs, m) <= size
    ensures LieWithin(FieldLeaves(fs, Zeros(|fs|), base), base, base + size)
    decreases fs, 0, 0
  {
    if fs == [] {
      return;
    }
    MemberFits(fs, m, 1, 0);
    LeavesPlaced(fs[0], base);
    UnionFrom(fs[1..], base, size, Max(m, SizeOf(fs[0])));
    ZerosAt(|fs|, 0);
    ZerosRest(|fs|);
  }

  lemma {:induction false} ZerosRest(n: nat)
    requires n > 0
    ensures Zeros(n)[1..] == Zeros(n - 1)
    decreases n
  {
    if n > 1 {
      ZerosRest(n - 1);
    }
  }

  lemma {:induction false} ElementLeavesPlaced(b: Type, base: nat, n: nat)
    requires Proper(b) && Sized(b)
    ensures SizeOf(b) * n >= 0 && LieWithin(ElementLeaves(b, base, n), base, base + SizeOf(b) * n)
    ensures NoUnions(b) ==> InOrder(ElementLeaves(b, base, n))
    decreases b, 3, n
  {
    Multiplies(n, SizeOf(b));
    if n == 0 {
      return;
    }
    Multiplies(n - 1, SizeOf(b));
    OneMore(SizeOf(b), n);
    var at := base + (n - 1) * SizeOf(b);
    ElementLeavesPlaced(b, base, n - 1);
    LeavesPlaced(b, at);
    assert ElementLeaves(b, base, n) == ElementLeaves(b, base, n - 1) + Leaves(b, at);
    hide LieWithin, InOrder, Leaves, ElementLeaves, SizeOf;
    JoinWithin(ElementLeaves(b, base, n - 1), Leaves(b, at), base, at, at + SizeOf(b));
  }

  function Moved(ls: seq<Leaf>, d: nat): (r: seq<Leaf>)
    ensures |r| == |ls|
  {
    seq(|ls|, i requires 0 <= i < |ls| => Leaf(ls[i].ty, ls[i].offset + d))
  }

  lemma MovedJoin(a: seq<Leaf>, b: seq<Leaf>, d: nat)
    ensures Moved(a + b, d) == Moved(a, d) + Moved(b, d)
  {
  }

  /** The leaves of an object elsewhere are the same, moved. */
  lemma {:induction false} LeavesMoved(t: Type, base: nat, d: nat)
    requires Proper(t)
    ensures Leaves(t, base + d) == Moved(Leaves(t, base), d)
    decreases t, 0, 0
  {
    if t.Aggregate? && t.fields != [] {
      FieldLeavesMoved(t.fields, OffsetsOf(t), base, d);
    } else if t.Array? && t.count != 0 {
      ElementLeavesMoved(t.base, base, if t.count == -1 then 1 else t.count, d);
    }
  }

  lemma {:induction false} FieldLeavesMoved(fs: seq<Type>, offsets: seq<nat>, base: nat, d: nat)
    requires AllProper(fs) && |offsets| == |fs|
    ensures FieldLeaves(fs, offsets, base + d) == Moved(FieldLeaves(fs, offsets, base), d)
    decreases fs, 1, 0
  {
    if fs == [] {
    } else {
      LeavesMoved(fs[0], base + offsets[0], d);
      assert base + offsets[0] + d == base + d + offsets[0];
      FieldLeavesMoved(fs[1..], offsets[1..], base, d);
      MovedJoin(Leaves(fs[0], base + offsets[0]), FieldLeaves(fs[1..], offsets[1..], base), d);
    }
  }

  lemma {:induction false} ElementLeavesMoved(b: Type, base: nat, n: nat, d: nat)
    requires Proper(b)
    ensures ElementLeaves(b, base + d, n) == Moved(ElementLeaves(b, base, n), d)
    decreases b, 1, n
  {
    if n == 0 {
    } else {
      Multiplies(n - 1, SizeOf(b));
      var at := base + (n - 1) * SizeOf(b);
      LeavesMoved(b, at, d);
      assert at + d == base + d + (n - 1) * SizeOf(b);
      ElementLeavesMoved(b, base, n - 1, d);
      MovedJoin(ElementLeaves(b, base, n - 1), Leaves(b, at), d);
    }
  }

  /** Leaf j of element k of an array is leaf j of the element type, k elements further on. The array
      ends where its last element does. */
  lemma ArrayLeaf(t: Type, base: nat, k: nat, j: nat)
    requires t.Array? && Proper(t) && k < t.count && j < CountOf(t.base)
    ensures |Leaves(t.base, 0)| == CountOf(t.base) && k * SizeOf(t.base) >= 0
    ensures 0 <= k * CountOf(t.base) + j < |Leaves(t, base)|
    ensures var l := Leaves(t.base, 0)[j];
      Leaves(t, base)[k * CountOf(t.base) + j] == Leaf(l.ty, l.offset + base + k * SizeOf(t.base))
    ensures k == t.count - 1 ==> SizeOf(t) == k * SizeOf(t.base) + SizeOf(t.base)
  {
    LeavesCounted(t.base, 0);
    Multiplies(k, SizeOf(t.base));
    Multiplies(k, CountOf(t.base));
    ElementLeaf(t.base, base, t.count, k, j, base + k * SizeOf(t.base), k * CountOf(t.base) + j);
    OneMore(SizeOf(t.base), t.count);
  }

  lemma {:induction false} ElementLeaf(b: Type, base: nat, n: nat, k: nat, j: nat, at: nat, index: nat)
    requires Proper(b) && k < n && j < CountOf(b)
    requires at == base + k * SizeOf(b) && index == k * CountOf(b) + j
    ensures |Leaves(b, 0)| == CountOf(b) && index < |ElementLeaves(b, base, n)|
    ensures var l := Leaves(b, 0)[j];
      ElementLeaves(b, base, n)[index] == Leaf(l.ty, l.offset + at)
    decreases n
  {
    hide *;
    LeavesCounted(b, 0);
    var last := ElementStep(b, base, n);
    if k < n - 1 {
      ElementLeaf(b, base, n - 1, k, j, at, index);
    } else {
      LastElement(b, base, n, at);
      LaterLeaf(ElementLeaves(b, base, n - 1), Leaves(b, 0), at, j);
    }
  }

  lemma ElementStep(b: Type, base: nat, n: nat) returns (last: nat)
    requires Proper(b) && n > 0
    ensures last == base + (n - 1) * SizeOf(b)
    ensures ElementLeaves(b, base, n) == ElementLeaves(b, base, n - 1) + Leaves(b, last)
  {
    Multiplies(n - 1, SizeOf(b));
    last := base + (n - 1) * SizeOf(b);
  }

  lemma LastElement(b: Type, base: nat, n: nat, at: nat)
    requires Proper(b) && n > 0
    ensures |ElementLeaves(b, base, n - 1)| == CountOf(b) * (n - 1) && Leaves(b, at) == Moved(Leaves(b, 0), at)
  {
    hide *;
    ElementLeavesCounted(b, base, n - 1);
    LeavesMoved(b, 0, at);
  }

  lemma LaterLeaf(before: seq<Leaf>, ls: seq<Leaf>, d: nat, j: nat)
    requires j < |ls|
    ensures (before + Moved(ls, d))[|before| + j] == Leaf(ls[j].ty, ls[j].offset + d)
  {
  }

  // ----- how tightly fields are packed -----

  lemma {:induction false} FieldsTight(fs: seq<Type>, ptr: nat, i: nat)
    requires AllProper(fs) && i < |fs|
    ensures Proper(fs[i]) && (i > 0 ==> Proper(fs[i - 1]))
    ensures var o := Offsets(fs, ptr);
      o[i] < (if i == 0 then ptr else o[i - 1] + SizeOf(fs[i - 1])) + AlignOf(fs[i])
    ensures i == |fs| - 1 ==> FieldsEnd(fs, ptr) == Offsets(fs, ptr)[i] + SizeOf(fs[i])
    decreases |fs|
  {
    if i > 0 {
      FieldsTight(fs[1..], Start(fs, ptr) + SizeOf(fs[0]), i - 1);
    }
  }

  lemma {:induction false} AlignFound(fs: seq<Type>, m: nat)
    requires AllProper(fs)
    ensures MaxAlign(fs, m) == m || exists i :: 0 <= i < |fs| && Proper(fs[i]) && AlignOf(fs[i]) == MaxAlign(fs, m)
    decreases |fs|
  {
    if fs == [] {
    } else {
      AlignFound(fs[1..], Max(m, AlignOf(fs[0])));
      assert Proper(fs[0]);
      if i :| 0 <= i < |fs| - 1 && Proper(fs[1..][i]) && AlignOf(fs[1..][i]) == MaxAlign(fs, m) {
        assert fs[i + 1] == fs[1..][i];
      }
    }
  }

  lemma {:induction false} SizeFound(fs: seq<Type>, m: nat)
    requires AllProper(fs)
    ensures MaxSize(fs, m) == m || exists i :: 0 <= i < |fs| && Proper(fs[i]) && SizeOf(fs[i]) == MaxSize(fs, m)
    decreases |fs|
  {
    if fs == [] {
    } else {
      SizeFound(fs[1..], Max(m, SizeOf(fs[0])));
      assert Proper(fs[0]);
      if i :| 0 <= i < |fs| - 1 && Proper(fs[1..][i]) && SizeOf(fs[1..][i]) == MaxSize(fs, m) {
        assert fs[i + 1] == fs[1..][i];
      }
    }
  }

  /** In a struct no padding is longer than it has to be: each field starts at the first aligned place
      behind the one before it. */
  lemma StructPacked(t: Type, i: nat)
    requires t.Aggregate? && !t.isUnion && Proper(t) && i < |t.fields|
    ensures Proper(t.fields[i]) && (i > 0 ==> Proper(t.fields[i - 1]))
    ensures var o, free := OffsetsOf(t), if i == 0 then 0 else OffsetsOf(t)[i - 1] + SizeOf(t.fields[i - 1]);
      free <= o[i] < free + AlignOf(t.fields[i])
    ensures i == |t.fields| - 1 ==> Content(t) == OffsetsOf(t)[i] + SizeOf(t.fields[i])
  {
    FieldsTight(t.fields, 0, i);
    FieldPlaced(t.fields, 0, i);
    if i > 0 {
      FieldPlaced(t.fields, 0, i - 1);
    }
  }

  /** An aggregate's alignment is one or that of some field, its size the content padded as little as
      possible, and the content of a union is its largest field. */
  lemma PackedTightly(t: Type)
    requires t.Aggregate? && Proper(t)
    ensures AlignOf(t) == 1 || exists f :: f in t.fields && Proper(f) && AlignOf(f) == AlignOf(t)
    ensures SizeOf(t) == 1 || SizeOf(t) < Content(t) + AlignOf(t)
    ensures t.isUnion ==> Content(t) == 0 || exists f :: f in t.fields && Proper(f) && SizeOf(f) == Content(t)
  {
    AlignFound(t.fields, 1);
    SizeFound(t.fields, 0);
  }

  // ----- designators and lookup -----

  lemma {:induction false} FullSized(t: Type)
    requires Full(t)
    ensures Sized(t)
    decreases t
  {
    match t
    case Scalar(_, _, _) =>
    case Aggregate(_, _, fs) => AllFullSized(fs);
    case Array(_, b, _) => FullSized(b);
  }

  lemma {:induction false} AllFullSized(fs: seq<Type>)
    requires AllFull(fs)
    ensures AllSized(fs)
    decreases fs
  {
    if fs == [] {
    } else {
      FullSized(fs[0]);
      AllFullSized(fs[1..]);
    }
  }

  /** The leaves from index d on begin with those of what was looked up. */
  predicate Found(leaves: seq<Leaf>, d: int, w: Leaf, base: nat)
    requires Proper(w.ty)
  {
    var part := Leaves(w.ty, base + w.offset);
    0 <= d && d + |part| <= |leaves| && leaves[d..d + |part|] == part
  }

  lemma FoundLater(a: seq<Leaf>, b: seq<Leaf>, d: int, w: Leaf, base: nat)
    requires Proper(w.ty) && Found(b, d, w, base)
    ensures Found(a + b, |a| + d, w, base)
  {
    var n := |Leaves(w.ty, base + w.offset)|;
    assert (a + b)[|a| + d..|a| + d + n] == b[d..d + n];
  }

  lemma FoundFirst(a: seq<Leaf>, b: seq<Leaf>, d: int, w: Leaf, base: nat)
    requires Proper(w.ty) && Found(a, d, w, base)
    ensures Found(a + b, d, w, base)
  {
    var n := |Leaves(w.ty, base + w.offset)|;
    assert (a + b)[d..d + n] == a[d..d + n];
  }

  predicate Anonymous(t: Type) {
    t.Aggregate? && t.name.None?
  }

  /** One of the fields has the name, or an anonymous one contains it. */
  predicate HasFrom(fs: seq<Type>, name: string) {
    fs != [] &&
    ((Anonymous(fs[0]) && HasFrom(fs[0].fields, name)) || fs[0].name == Some(name) || HasFrom(fs[1..], name))
  }

  /** How many leaves come before those of the field, through anonymous aggregates. */
  function FirstLeaf(fs: seq<Type>, name: string): nat {
    if fs == [] then 0
    else if Anonymous(fs[0]) && HasFrom(fs[0].fields, name) then FirstLeaf(fs[0].fields, name)
    else if fs[0].name == Some(name) then 0
    else CountOf(fs[0]) + FirstLeaf(fs[1..], name)
  }

  /** Every part passed on the way to the field is full, at each level; without such a field, all
      of them. */
  predicate FullBefore(fs: seq<Type>, name: string) {
    fs == [] ||
    (if Anonymous(fs[0]) && HasFrom(fs[0].fields, name) then FullBefore(fs[0].fields, name)
     else fs[0].name == Some(name) || (Full(fs[0]) && FullBefore(fs[1..], name)))
  }

  lemma {:induction false} AllFullBefore(fs: seq<Type>, name: string)
    requires AllFull(fs)
    ensures FullBefore(fs, name)
    decreases fs
  {
    if fs == [] {
    } else {
      if Anonymous(fs[0]) {
        AllFullBefore(fs[0].fields, name);
      }
      AllFullBefore(fs[1..], name);
    }
  }

  /** A designator never counts too many leaves. */
  lemma {:induction false} FieldsDesignated(fs: seq<Type>, name: string, offset: nat)
    requires AllSized(fs)
    ensures var d, first := DesignateFrom(fs, name, offset), offset + FirstLeaf(fs, name);
      if HasFrom(fs, name) then offset <= d <= first && (d == first <==> FullBefore(fs, name))
      else d == -(offset + TotalElements(fs)) - 1
    decreases fs
  {
    if fs == [] {
      return;
    }
    CountExactly(fs[0]);
    CountAllExactly(fs);
    if Anonymous(fs[0]) {
      FieldsDesignated(fs[0].fields, name, 0);
    }
    FieldsDesignated(fs[1..], name, offset + NumElements(fs[0]));
    hide Full, CountOf;
  }

  /** A field found inside the first of some fields. */
  lemma FoundInside(first: seq<Leaf>, rest: seq<Leaf>, d: int, inner: Leaf, offset: nat, base: nat)
    requires Proper(inner.ty) && Found(first, d, inner, base + offset)
    ensures Found(first + rest, d, Leaf(inner.ty, inner.offset + offset), base)
  {
    var moved := Leaf(inner.ty, inner.offset + offset);
    assert base + offset + inner.offset == base + moved.offset;
    FoundFirst(first, rest, d, moved, base);
  }

  /** Lookup finds exactly the fields there are. */
  lemma {:induction false} WalkFinds(fs: seq<Type>, offsets: seq<nat>, name: string)
    requires AllProper(fs) && |offsets| == |fs|
    ensures WalkFrom(fs, offsets, name).Some? <==> HasFrom(fs, name)
    decreases fs
  {
    if fs == [] {
      return;
    }
    if Anonymous(fs[0]) {
      WalkFinds(fs[0].fields, OffsetsOf(fs[0]), name);
    }
    WalkFinds(fs[1..], offsets[1..], name);
  }

  /** The first of the fields: one that contains the name, one that has it, or another one. */
  lemma WalkStep(fs: seq<Type>, offsets: seq<nat>, name: string, base: nat)
    requires AllProper(fs) && |offsets| == |fs| && HasFrom(fs, name)
    ensures Proper(fs[0]) && AllProper(fs[1..])
    ensures var f, at, w := fs[0], base + offsets[0], WalkFrom(fs, offsets, name);
      && FieldLeaves(fs, offsets, base) == Leaves(f, at) + FieldLeaves(fs[1..], offsets[1..], base)
      && (if Anonymous(f) && HasFrom(f.fields, name) then
            var inner := WalkFrom(f.fields, OffsetsOf(f), name);
            && AllProper(f.fields) && Leaves(f, at) == FieldLeaves(f.fields, OffsetsOf(f), at)
            && FirstLeaf(fs, name) == FirstLeaf(f.fields, name)
            && inner.Some? && w == Some(Leaf(inner.value.ty, inner.value.offset + offsets[0]))
          else if f.name == Some(name) then FirstLeaf(fs, name) == 0 && w == Some(Leaf(f, offsets[0]))
          else
            && HasFrom(fs[1..], name) && FirstLeaf(fs, name) == |Leaves(f, at)| + FirstLeaf(fs[1..], name)
            && w == WalkFrom(fs[1..], offsets[1..], name))
  {
    LeavesCounted(fs[0], base + offsets[0]);
    if Anonymous(fs[0]) {
      WalkFinds(fs[0].fields, OffsetsOf(fs[0]), name);
    }
    hide CountOf;
  }

  /** The leaves of a field begin at the offset that lookup returns. */
  lemma {:induction false} FieldsWalked(fs: seq<Type>, offsets: seq<nat>, name: string, base: nat)
    requires AllProper(fs) && |offsets| == |fs| && HasFrom(fs, name)
    ensures var w := WalkFrom(fs, offsets, name);
      w.Some? && Proper(w.value.ty) && Found(FieldLeaves(fs, offsets, base), FirstLeaf(fs, name), w.value, base)
    decreases fs
  {
    WalkStep(fs, offsets, name, base);
    var f, at := fs[0], base + offsets[0];
    var first, rest := Leaves(f, at), FieldLeaves(fs[1..], offsets[1..], base);
    hide *;
    if Anonymous(f) && HasFrom(f.fields, name) {
      FieldsWalked(f.fields, OffsetsOf(f), name, at);
      var inner := WalkFrom(f.fields, OffsetsOf(f), name).value;
      FoundInside(first, rest, FirstLeaf(f.fields, name), inner, offsets[0], base);
    } else if f.name == Some(name) {
      WholeFound(first, rest, Leaf(f, offsets[0]), base);
    } else {
      FieldsWalked(fs[1..], offsets[1..], name, base);
      FoundLater(first, rest, FirstLeaf(fs[1..], name), WalkFrom(fs[1..], offsets[1..], name).value, base);
    }
  }

  lemma WholeFound(first: seq<Leaf>, rest: seq<Leaf>, w: Leaf, base: nat)
    requires Proper(w.ty) && first == Leaves(w.ty, base + w.offset)
    ensures Found(first + rest, 0, w, base)
  {
    assert first[0..|first|] == first;
    FoundFirst(first, rest, 0, w, base);
  }

  /** A designator finds a field exactly when lookup does. The leaves of the field lie at the offset
      that lookup returns, and the designator is the index of the first of them if and only if every
      part before it is full; if there is no such field, it encodes the number of leaves if and only
      if the whole type is full. */
  lemma DesignatorsExactly(t: Type, name: string, base: nat)
    requires t.Aggregate? && Proper(t) && Sized(t)
    ensures var d, w, leaves := Designate(t, name), Walk(t, name), Leaves(t, base);
      && (d >= 0 <==> w.Some?)
      && (w.Some? ==>
            && Proper(w.value.ty) && Found(leaves, FirstLeaf(t.fields, name), w.value, base)
            && d <= FirstLeaf(t.fields, name)
            && (d == FirstLeaf(t.fields, name) <==> FullBefore(t.fields, name)))
      && (w.None? ==> (d == -|leaves| - 1 <==> Full(t)))
  {
    FieldsDesignated(t.fields, name, 0);
    WalkFinds(t.fields, OffsetsOf(t), name);
    if HasFrom(t.fields, name) {
      FieldsWalked(t.fields, OffsetsOf(t), name, base);
    }
    CountExactly(t);
    LeavesCounted(t, base);
    hide Found;
  }

  /** So in a type without empty parts the two always agree. */
  lemma DesignatorsAgree(t: Type, name: string, base: nat)
    requires t.Aggregate? && Proper(t) && Full(t)
    ensures var d, w, leaves := Designate(t, name), Walk(t, name), Leaves(t, base);
      if w.Some? then Proper(w.value.ty) && Found(leaves, d, w.value, base) else d == -|leaves| - 1
  {
    FullSized(t);
    AllFullBefore(t.fields, name);
    DesignatorsExactly(t, name, base);
    hide Found;
  }

  /** With an empty struct in front, the designator of x names the leaf of that struct. */
  lemma EmptyMisleads() returns (t: Type, x: Type)
    ensures t.Aggregate? && Proper(t) && !Full(t) && x.Scalar? && x.name == Some("x")
    ensures Designate(t, "x") == 0 && |Leaves(t, 0)| == 2 && Leaves(t, 0)[1].ty == x
  {
    var e := Aggregate(Some("e"), false, []);
    x := Scalar(Some("x"), 4, 4);
    t := Aggregate(None, false, [e, x]);
    assert t.fields[1..] == [x] && [x][1..] == [];
    assert Proper(x) && AllProper([]) && AllProper([x][1..]);
    assert AllProper([x]);
    assert Proper(e) && AllProper(t.fields);
    assert !Full(e) && !AllFull(t.fields);
    assert DesignateFrom([x], "x", 0) == 0;
    var o := OffsetsOf(t);
    assert o[1..][1..] == [] && o[1..][0] == o[1];
    assert FieldLeaves([x], o[1..], 0) == Leaves(x, o[1]) + FieldLeaves([], [], 0);
    assert FieldLeaves([], [], 0) == [];
    assert Leaves(x, o[1]) == [Leaf(x, o[1])] && Leaves(e, o[0]) == [Leaf(e, o[0])];
    assert FieldLeaves(t.fields, o, 0) == Leaves(e, o[0]) + FieldLeaves([x], o[1..], 0);
    assert Leaves(t, 0) == FieldLeaves(t.fields, OffsetsOf(t), 0);
    assert Leaves(t, 0) == Leaves(e, o[0]) + FieldLeaves([x], o[1..], 0);
  }
}
