/**
 Expansion of a shader variable into the items of the variable tree: arrays into elements, structs
 into members, matrices into cells, vectors into components. Every item has a full name, by which
 uniform values find it later.
 */
module VarExpand {
  import opened Wrappers
  import opened VarFlags

  /** What the compiler says about a variable. There are at most two array dimensions; -1 is none. */
  datatype ShVariable = ShVariable(name: string, id: int, builtIn: bool, sampler: bool, size: int,
                                   isMatrix: bool, rows: int, columns: int, isArray: bool, arraySize0: int,
                                   arraySize1: int, fields: seq<ShVariable>)

  datatype Force = NoForce | ForceArray(i: nat) | ForceStruct(i: nat) | ForceMatrix(i: nat, j: nat)
                 | ForceVector(i: nat)

  datatype Item = Item(name: string, fullName: string, id: int, kind: Option<IndexKind>, indexA: Option<nat>,
                       indexB: Option<nat>, builtIn: bool, selectable: bool, children: seq<Item>)

  // ---------- Names ----------

  function Digit(d: nat): char
    requires d < 10
  {
    ['0', '1', '2', '3', '4', '5', '6', '7', '8', '9'][d]
  }

  function Decimal(n: nat): (r: string)
    ensures r != []
  {
    if n < 10 then [Digit(n)] else Decimal(n / 10) + [Digit(n % 10)]
  }

  /** The components behind the fourth have no name of their own. */
  function ComponentName(i: nat): string {
    match i
    case 0 => "x"
    case 1 => "y"
    case 2 => "z"
    case 3 => "w"
    case _ => ""
  }

  function ShortName(v: ShVariable, f: Force): string {
    match f
    case NoForce => v.name
    case ForceArray(i) => "[" + Decimal(i) + "]"
    case ForceStruct(_) => v.name
    case ForceMatrix(i, j) => "[" + Decimal(i) + "]" + "[" + Decimal(j) + "]"
    case ForceVector(i) => ComponentName(i)
  }

  /** What an item's full name adds to the full name of its parent. */
  function Segment(v: ShVariable, f: Force): string {
    if f.ForceStruct? || f.ForceVector? then "." + ShortName(v, f) else ShortName(v, f)
  }

  // ---------- Expansion ----------

  /** The variable without its first array dimension. */
  function ArrayAtom(v: ShVariable): ShVariable {
    v.(arraySize0 := v.arraySize1, arraySize1 := -1, isArray := v.arraySize1 != -1)
  }

  function MatrixAtom(v: ShVariable): ShVariable {
    v.(isMatrix := false, rows := 0, columns := 0)
  }

  function VectorAtom(v: ShVariable): ShVariable {
    v.(size := 1)
  }

  /** How many array dimensions are still to be expanded. */
  function ArraysLeft(v: ShVariable): nat {
    if !v.isArray then 0 else if v.arraySize1 == -1 then 1 else 2
  }

  function OneIf(b: bool): nat {
    if b then 1 else 0
  }

  function KindOf(f: Force): Option<IndexKind> {
    match f
    case NoForce => None
    case ForceArray(_) => Some(ArrayIndirect)
    case ForceStruct(_) => Some(Member)
    case ForceMatrix(_, _) => Some(ArrayIndirect)
    case ForceVector(_) => Some(ArrayDirect)
  }

  function IndexA(f: Force): Option<nat> {
    if f.NoForce? then None else Some(f.i)
  }

  function IndexB(f: Force): Option<nat> {
    if f.ForceMatrix? then Some(f.j) else None
  }

  function AtLeast0(n: int): nat {
    if n < 0 then 0 else n
  }

  /** `r` rows of `c` cells. */
  function Product(r: nat, c: nat): nat {
    if r == 0 then 0 else Product(r - 1, c) + c
  }

  /** The number of items right below a variable. */
  function PartCount(v: ShVariable): nat
  {
    if v.isArray then AtLeast0(v.arraySize0)
    else if v.fields != [] then |v.fields|
    else if v.isMatrix then Product(AtLeast0(v.rows), AtLeast0(v.columns))
    else if 1 < v.size then v.size
    else 0
  }

  function Expand(v: ShVariable, base: string, forceBuiltIn: bool, f: Force): Item
    decreases v.fields, ArraysLeft(v), OneIf(v.isMatrix), OneIf(v.size > 1), 1
  {
    var full := if f.NoForce? then v.name else base + Segment(v, f);
    Item(ShortName(v, f), full, if f.NoForce? then v.id else -1,
         KindOf(f), IndexA(f), IndexB(f), forceBuiltIn || v.builtIn, !v.sampler,
           Parts(v, full, forceBuiltIn, PartCount(v)))
  }

  lemma {:induction false} ProductIsTimes(r: nat, c: nat)
    ensures Product(r, c) == r * c
  {
    if r == 0 {
    } else {
      ProductIsTimes(r - 1, c);
    }
  }

  lemma {:induction false} ProductGrows(r: nat, s: nat, c: nat)
    requires r <= s
    ensures Product(r, c) <= Product(s, c)
  {
    if r == s {
    } else {
      ProductGrows(r, s - 1, c);
    }
  }

  lemma {:induction false} NoCells(r: nat)
    ensures Product(r, 0) == 0
  {
    if r == 0 {
    } else {
      NoCells(r - 1);
    }
  }

  /** Row and column of cell `k`, counting row by row. */
  function CellOf(c: nat, k: nat): (r: (nat, nat))
    requires c > 0
    ensures r.1 < c && k == Product(r.0, c) + r.1
    decreases k
  {
    if k < c then (0, k)
    else
      var r := CellOf(c, k - c);
      (r.0 + 1, r.1)
  }

  lemma {:induction false} CellAt(c: nat, i: nat, j: nat)
    requires j < c
    ensures CellOf(c, Product(i, c) + j) == (i, j)
    decreases i
  {
    if i == 0 {
    } else {
      CellAt(c, i - 1, j);
    }
  }

  /** Fewer array dimensions, or no matrix any more, or no vector any more. */
  predicate Simpler(a: ShVariable, v: ShVariable) {
    || ArraysLeft(a) < ArraysLeft(v)
    || (ArraysLeft(a) == ArraysLeft(v)
        && (OneIf(a.isMatrix) < OneIf(v.isMatrix)
            || (OneIf(a.isMatrix) == OneIf(v.isMatrix) && OneIf(a.size > 1) < OneIf(v.size > 1))))
  }

  /** The variable that part `k` stands for, and how it is reached. Matrix cells come row by row. */
  function PartOf(v: ShVariable, k: nat): (r: (ShVariable, Force))
    requires k < PartCount(v)
    ensures !r.1.NoForce?
    ensures if !v.isArray && v.fields != [] then r.0 == v.fields[k] else r.0.fields == v.fields && Simpler(r.0, v)
  {
    if v.isArray then (ArrayAtom(v), ForceArray(k))
    else if v.fields != [] then
      (v.fields[k], ForceStruct(k))
    else if v.isMatrix then
      assert v.columns > 0 by { NoCells(AtLeast0(v.rows)); }
      var cell := CellOf(v.columns, k);
      (MatrixAtom(v), ForceMatrix(cell.0, cell.1))
    else (VectorAtom(v), ForceVector(k))
  }

  /** Array elements and struct members take the flag of their parent variable, matrix cells and
      vector components the flag that was forced on the parent. */
  function ForcedBelow(v: ShVariable, forceBuiltIn: bool): bool {
    if v.isArray || v.fields != [] then v.builtIn else forceBuiltIn
  }

  /** The first `k` items below a variable. */
  function Parts(v: ShVariable, full: string, forceBuiltIn: bool, k: nat): (r: seq<Item>)
    requires k <= PartCount(v)
    ensures |r| == k
    decreases v.fields, ArraysLeft(v), OneIf(v.isMatrix), OneIf(v.size > 1), 0
  {
    seq(k, i requires 0 <= i < k => Expand(PartOf(v, i).0, full, ForcedBelow(v, forceBuiltIn), PartOf(v, i).1))
  }

  predicate IsMatrix(v: ShVariable) {
    !v.isArray && v.fields == [] && v.isMatrix
  }

  predicate IsVector(v: ShVariable) {
    !v.isArray && v.fields == [] && !v.isMatrix && 1 < v.size
  }

  /** The recursive insertion into the tree: the items below a variable are appended one by one. */
  method AddShVariable(v: ShVariable, base: string, forceBuiltIn: bool, f: Force) returns (item: Item)
    ensures item == Expand(v, base, forceBuiltIn, f)
    decreases v.fields, ArraysLeft(v), OneIf(v.isMatrix), OneIf(v.size > 1), 2
  {
    var full := if f.NoForce? then v.name else base + Segment(v, f);
    var id := if f.NoForce? then v.id else -1;
    var children: seq<Item> := [];
    if v.isArray {
      children := AddElements(v, full, forceBuiltIn);
    } else if v.fields != [] {
      children := AddMembers(v, full, forceBuiltIn);
    } else if v.isMatrix {
      children := AddCells(v, full, forceBuiltIn);
    } else if 1 < v.size {
      children := AddComponents(v, full, forceBuiltIn);
    }
    item := Item(ShortName(v, f), full, id, KindOf(f), IndexA(f), IndexB(f), forceBuiltIn || v.builtIn, !v.sampler,
      children);
  }

  /** Item `k` below a variable. */
  ghost predicate PartIs(item: Item, v: ShVariable, full: string, forceBuiltIn: bool, k: nat)
  {
    k < PartCount(v) && item == Expand(PartOf(v, k).0, full, ForcedBelow(v, forceBuiltIn), PartOf(v, k).1)
  }

  /** The items so far are those of the expansion. */
  ghost predicate PartsSoFar(children: seq<Item>, v: ShVariable, full: string, forceBuiltIn: bool) {
    |children| <= PartCount(v) && children == Parts(v, full, forceBuiltIn, |children|)
  }

  lemma {:induction false} PartAt(v: ShVariable, full: string, forceBuiltIn: bool, n: nat, k: nat)
    requires k < n <= PartCount(v)
    ensures PartIs(Parts(v, full, forceBuiltIn, n)[k], v, full, forceBuiltIn, k)
  {
  }

  lemma {:induction false} OneMore(children: seq<Item>, child: Item, v: ShVariable, full: string, forceBuiltIn: bool)
    requires PartsSoFar(children, v, full, forceBuiltIn) && PartIs(child, v, full, forceBuiltIn, |children|)
    ensures PartsSoFar(children + [child], v, full, forceBuiltIn)
  {
    var all := Parts(v, full, forceBuiltIn, |children| + 1);
    forall k: nat | k <= |children| ensures (children + [child])[k] == all[k] {
      PartAt(v, full, forceBuiltIn, |children| + 1, k);
      if k < |children| {
        PartAt(v, full, forceBuiltIn, |children|, k);
      }
    }
  }

  method AddElements(v: ShVariable, full: string, forceBuiltIn: bool) returns (children: seq<Item>)
    requires v.isArray
    ensures |children| == PartCount(v) && PartsSoFar(children, v, full, forceBuiltIn)
    decreases v.fields, ArraysLeft(v), OneIf(v.isMatrix), OneIf(v.size > 1), 0
  {
    var atom := ArrayAtom(v);
    children := [];
    var i := 0;
    while i < v.arraySize0
      invariant 0 <= i == |children| <= PartCount(v) && PartsSoFar(children, v, full, forceBuiltIn)
    {
      var child := AddShVariable(atom, full, v.builtIn, ForceArray(i));
      OneMore(children, child, v, full, forceBuiltIn);
      children := children + [child];
      i := i + 1;
    }
  }

  method AddMembers(v: ShVariable, full: string, forceBuiltIn: bool) returns (children: seq<Item>)
    requires !v.isArray && v.fields != []
    ensures |children| == PartCount(v) && PartsSoFar(children, v, full, forceBuiltIn)
    decreases v.fields, ArraysLeft(v), OneIf(v.isMatrix), OneIf(v.size > 1), 0
  {
    children := [];
    var i := 0;
    while i < |v.fields|
      invariant 0 <= i == |children| <= PartCount(v) && PartsSoFar(children, v, full, forceBuiltIn)
    {
      var child := AddShVariable(v.fields[i], full, v.builtIn, ForceStruct(i));
      OneMore(children, child, v, full, forceBuiltIn);
      children := children + [child];
      i := i + 1;
    }
  }

  /** One item per cell, row by row. */
  method AddCells(v: ShVariable, full: string, forceBuiltIn: bool) returns (children: seq<Item>)
    requires !v.isArray && v.fields == [] && v.isMatrix
    ensures |children| == PartCount(v) && PartsSoFar(children, v, full, forceBuiltIn)
    decreases v.fields, ArraysLeft(v), OneIf(v.isMatrix), OneIf(v.size > 1), 1
  {
    children := [];
    var i := 0;
    while i < v.rows
      invariant 0 <= i <= AtLeast0(v.rows) && |children| == Product(i, AtLeast0(v.columns)) <= PartCount(v)
      invariant PartsSoFar(children, v, full, forceBuiltIn)
    {
      ProductGrows(i + 1, v.rows, AtLeast0(v.columns));
      children := AddRow(v, full, forceBuiltIn, i, children);
      i := i + 1;
    }
  }

  lemma {:induction false} CellPart(v: ShVariable, i: nat, j: nat, k: nat)
    requires !v.isArray && v.fields == [] && v.isMatrix && j < v.columns
    requires k == Product(i, v.columns) + j && k < PartCount(v)
    ensures PartOf(v, k) == (MatrixAtom(v), ForceMatrix(i, j))
  {
    CellAt(v.columns, i, j);
  }

  method AddRow(v: ShVariable, full: string, forceBuiltIn: bool, i: nat, before: seq<Item>)
    returns (children: seq<Item>)
    requires !v.isArray && v.fields == [] && v.isMatrix && i < v.rows
    requires |before| == Product(i, AtLeast0(v.columns)) && |before| + AtLeast0(v.columns) <= PartCount(v)
    requires PartsSoFar(before, v, full, forceBuiltIn)
    ensures |children| == |before| + AtLeast0(v.columns) && PartsSoFar(children, v, full, forceBuiltIn)
    decreases v.fields, ArraysLeft(v), OneIf(v.isMatrix), OneIf(v.size > 1), 0
  {
    var atom := MatrixAtom(v);
    children := before;
    var j := 0;
    while j < v.columns
      invariant 0 <= j <= AtLeast0(v.columns) && |children| == |before| + j
      invariant PartsSoFar(children, v, full, forceBuiltIn)
    {
      CellPart(v, i, j, |children|);
      var child := AddShVariable(atom, full, forceBuiltIn, ForceMatrix(i, j));
      OneMore(children, child, v, full, forceBuiltIn);
      children := children + [child];
      j := j + 1;
    }
  }

  method AddComponents(v: ShVariable, full: string, forceBuiltIn: bool) returns (children: seq<Item>)
    requires IsVector(v)
    ensures |children| == PartCount(v) && PartsSoFar(children, v, full, forceBuiltIn)
    decreases v.fields, ArraysLeft(v), OneIf(v.isMatrix), OneIf(v.size > 1), 0
  {
    var atom := VectorAtom(v);
    children := [];
    var i := 0;
    while i < v.size
      invariant 0 <= i == |children| <= PartCount(v) && PartsSoFar(children, v, full, forceBuiltIn)
    {
      var child := AddShVariable(atom, full, forceBuiltIn, ForceVector(i));
      OneMore(children, child, v, full, forceBuiltIn);
      children := children + [child];
      i := i + 1;
    }
  }

  // ---------- Full names tell items apart ----------

  /** The full names of an item and everything below it, in tree order. */
  function Names(item: Item): seq<string> {
    [item.fullName] + NamesOf(item.children, |item.children|)
  }

  function NamesOf(items: seq<Item>, n: nat): seq<string>
    requires n <= |items|
  {
    if n == 0 then [] else NamesOf(items, n - 1) + Names(items[n - 1])
  }

  ghost predicate Distinct(names: seq<string>) {
    forall i, j :: 0 <= i < j < |names| ==> names[i] != names[j]
  }

  ghost predicate Apart(a: seq<string>, b: seq<string>) {
    forall x :: x in a ==> x !in b
  }

  lemma {:induction false} DistinctConcat(a: seq<string>, b: seq<string>)
    ensures Distinct(a + b) <==> Distinct(a) && Distinct(b) && Apart(a, b)
  {
    if Distinct(a + b) {
      forall i, j | 0 <= i < j < |b| ensures b[i] != b[j] {
        assert (a + b)[|a| + i] != (a + b)[|a| + j];
      }
      forall i, j | 0 <= i < j < |a| ensures a[i] != a[j] {
        assert (a + b)[i] != (a + b)[j];
      }
      forall x | x in a ensures x !in b {
        var i :| 0 <= i < |a| && a[i] == x;
        forall j | 0 <= j < |b| ensures b[j] != x {
          assert (a + b)[i] != (a + b)[|a| + j];
        }
      }
    } else if Distinct(a) && Distinct(b) && Apart(a, b) {
      forall i, j | 0 <= i < j < |a + b| ensures (a + b)[i] != (a + b)[j] {
        if i < |a| && |a| <= j {
          assert a[i] in a && b[j - |a|] in b;
        }
      }
    }
  }

  predicate Free(a: string, stops: set<char>) {
    forall i :: 0 <= i < |a| ==> a[i] !in stops
  }

  predicate StopsAt(r: string, stops: set<char>) {
    r == [] || r[0] in stops
  }

  /** A text is cut at its first stop character in one way only. */
  lemma {:induction false} CutOnce(a: string, r: string, b: string, s: string, stops: set<char>)
    requires Free(a, stops) && Free(b, stops) && StopsAt(r, stops) && StopsAt(s, stops) && a + r == b + s
    ensures a == b && r == s
  {
    assert a == (a + r)[..|a|] && b == (b + s)[..|b|];
    assert r == (a + r)[|a|..] && s == (b + s)[|b|..];
  }

  lemma {:induction false} DecimalFree(n: nat)
    ensures Free(Decimal(n), {'.', '[', ']'})
  {
    if n < 10 {
    } else {
      DecimalFree(n / 10);
    }
  }

  lemma {:induction false} DecimalInjective(m: nat, n: nat)
    requires Decimal(m) == Decimal(n)
    ensures m == n
  {
    if m >= 10 && n >= 10 {
      assert Decimal(m)[..|Decimal(m)| - 1] == Decimal(m / 10) && Decimal(n)[..|Decimal(n)| - 1] == Decimal(n / 10);
      assert Decimal(m)[|Decimal(m)| - 1] == Digit(m % 10) && Decimal(n)[|Decimal(n)| - 1] == Digit(n % 10);
      DecimalInjective(m / 10, n / 10);
    }
  }

  /** Field names are identifiers, and the fields of a struct have different names. */
  predicate Named(v: ShVariable) {
    && (forall f :: f in v.fields ==> Free(f.name, {'.', '['}) && Named(f))
    && (forall i, j :: 0 <= i < j < |v.fields| ==> v.fields[i].name != v.fields[j].name)
  }

  /** Below the variable a vector with more than five components is expanded. */
  ghost predicate HasWideVector(v: ShVariable)
    decreases v.fields, ArraysLeft(v), OneIf(v.isMatrix), OneIf(v.size > 1)
  {
    if IsVector(v) then v.size > 5
    else exists k :: 0 <= k < PartCount(v) && HasWideVector(PartOf(v, k).0)
  }

  lemma {:induction false} BracketsApart(i: nat, r: string, j: nat, s: string)
    requires "[" + Decimal(i) + "]" + r == "[" + Decimal(j) + "]" + s
    ensures i == j && r == s
  {
    DecimalFree(i);
    DecimalFree(j);
    var a, b := Decimal(i) + ("]" + r), Decimal(j) + ("]" + s);
    assert "[" + Decimal(i) + "]" + r == "[" + a && "[" + Decimal(j) + "]" + s == "[" + b;
    assert a == ("[" + a)[1..] && b == ("[" + b)[1..];
    CutOnce(Decimal(i), "]" + r, Decimal(j), "]" + s, {']'});
    DecimalInjective(i, j);
    assert r == ("]" + r)[1..] && s == ("]" + s)[1..];
  }

  lemma {:induction false} CellsApart(i: nat, j: nat, r: string, k: nat, l: nat, s: string)
    requires "[" + Decimal(i) + "]" + "[" + Decimal(j) + "]" + r == "[" + Decimal(k) + "]" + "[" + Decimal(l) + "]" + s
    ensures i == k && j == l
  {
    var a, b := "[" + Decimal(j) + "]" + r, "[" + Decimal(l) + "]" + s;
    assert "[" + Decimal(i) + "]" + "[" + Decimal(j) + "]" + r == "[" + Decimal(i) + "]" + a;
    assert "[" + Decimal(k) + "]" + "[" + Decimal(l) + "]" + s == "[" + Decimal(k) + "]" + b;
    BracketsApart(i, a, k, b);
    BracketsApart(j, r, l, s);
  }

  lemma {:induction false} FieldsApart(a: string, r: string, b: string, s: string)
    requires Free(a, {'.', '['}) && Free(b, {'.', '['}) && StopsAt(r, {'.', '['}) && StopsAt(s, {'.', '['})
    requires "." + a + r == "." + b + s
    ensures a == b
  {
    assert "." + a + r == "." + (a + r) && "." + b + s == "." + (b + s);
    assert a + r == ("." + (a + r))[1..] && b + s == ("." + (b + s))[1..];
    CutOnce(a, r, b, s, {'.', '['});
  }

  /** The segments of two parts of a variable that is no vector cannot begin the same name. */
  lemma {:induction false} SegmentsApart(v: ShVariable, k: nat, l: nat, r: string, s: string)
    requires Named(v) && k < PartCount(v) && l < PartCount(v) && !IsVector(v)
    requires StopsAt(r, {'.', '['}) && StopsAt(s, {'.', '['})
    requires Segment(PartOf(v, k).0, PartOf(v, k).1) + r == Segment(PartOf(v, l).0, PartOf(v, l).1) + s
    ensures k == l
  {
    if v.isArray {
      BracketsApart(k, r, l, s);
    } else if v.fields != [] {
      FieldsApart(v.fields[k].name, r, v.fields[l].name, s);
    } else {
      var x, y := CellOf(v.columns, k), CellOf(v.columns, l);
      CellsApart(x.0, x.1, r, y.0, y.1, s);
    }
  }

  // ---------- Names below a variable ----------

  /** The names that part `k` contributes. */
  function PartNames(v: ShVariable, full: string, forceBuiltIn: bool, k: nat): seq<string>
    requires k < PartCount(v)
  {
    Names(Expand(PartOf(v, k).0, full, ForcedBelow(v, forceBuiltIn), PartOf(v, k).1))
  }

  lemma {:induction false} NameOfPart(items: seq<Item>, n: nat, x: string) returns (k: nat)
    requires n <= |items| && x in NamesOf(items, n)
    ensures k < n && x in Names(items[k])
  {
    if x in Names(items[n - 1]) {
      k := n - 1;
    } else {
      k := NameOfPart(items, n - 1, x);
    }
  }

  lemma {:induction false} PartHasName(items: seq<Item>, n: nat, k: nat, x: string)
    requires k < n <= |items| && x in Names(items[k])
    ensures x in NamesOf(items, n)
  {
    if k == n - 1 {
    } else {
      PartHasName(items, n - 1, k, x);
    }
  }

  /** The name `x` is the full name `full`, or goes on with a segment behind it. */
  predicate Extends(x: string, full: string) {
    full <= x && StopsAt(x[|full|..], {'.', '['})
  }

  /** The full name of an expanded item. */
  function FullName(v: ShVariable, base: string, f: Force): string {
    if f.NoForce? then v.name else base + Segment(v, f)
  }

  /** Every name in an expansion extends the name of the item on top. */
  lemma {:induction false} NamesExtend(v: ShVariable, base: string, forceBuiltIn: bool, f: Force, x: string)
    requires x in Names(Expand(v, base, forceBuiltIn, f))
    ensures Extends(x, FullName(v, base, f))
    decreases v.fields, ArraysLeft(v), OneIf(v.isMatrix), OneIf(v.size > 1)
  {
    var full, item := FullName(v, base, f), Expand(v, base, forceBuiltIn, f);
    if x != full {
      var k := NameOfPart(item.children, |item.children|, x);
      PartAt(v, full, forceBuiltIn, PartCount(v), k);
      PartExtends(v, full, forceBuiltIn, k, x);
    }
  }

  lemma {:induction false} PartExtends(v: ShVariable, full: string, forceBuiltIn: bool, k: nat, x: string)
    requires k < PartCount(v) && x in PartNames(v, full, forceBuiltIn, k)
    ensures Extends(x, full) && full < x
    ensures Extends(x, full + Segment(PartOf(v, k).0, PartOf(v, k).1))
    decreases v.fields, ArraysLeft(v), OneIf(v.isMatrix), OneIf(v.size > 1), 0
  {
    var p := PartOf(v, k);
    NamesExtend(p.0, full, ForcedBelow(v, forceBuiltIn), p.1, x);
  }

  // ---------- Distinct names ----------

  /** A name below a part starts with the part's full name. */
  ghost predicate BelowPart(v: ShVariable, full: string, k: nat, x: string) {
    && k < PartCount(v) && full < x
    && Extends(x, full + Segment(PartOf(v, k).0, PartOf(v, k).1))
  }

  lemma {:induction false} Behind(x: string, full: string, a: string)
    requires Extends(x, full + a)
    ensures |full + a| <= |x| && x[|full|..] == a + x[|full + a|..]
  {
    assert x[..|full + a|] == full + a;
    assert x == full + a + x[|full + a|..];
  }

  lemma {:induction false} BelowTwoParts(v: ShVariable, full: string, k: nat, l: nat, x: string)
    requires Named(v) && !IsVector(v) && BelowPart(v, full, k, x) && BelowPart(v, full, l, x)
    ensures k == l
  {
    var a, b := Segment(PartOf(v, k).0, PartOf(v, k).1), Segment(PartOf(v, l).0, PartOf(v, l).1);
    Behind(x, full, a);
    Behind(x, full, b);
    SegmentsApart(v, k, l, x[|full + a|..], x[|full + b|..]);
  }

  /** A vector component is a single item. */
  lemma {:induction false} ComponentNames(v: ShVariable, full: string, forceBuiltIn: bool, k: nat)
    requires IsVector(v) && k < PartCount(v)
    ensures PartNames(v, full, forceBuiltIn, k)
            == [full + ("." + ComponentName(k))]
  {
    var item := Expand(PartOf(v, k).0, full, ForcedBelow(v, forceBuiltIn), PartOf(v, k).1);
    assert item.children == [] && NamesOf(item.children, 0) == [];
    assert Names(item) == [item.fullName];
  }

  lemma {:induction false} ComponentsApart(full: string, k: nat, l: nat)
    requires k < l
    ensures full + ("." + ComponentName(k)) == full + ("." + ComponentName(l)) <==> k >= 4
  {
    var a, b := "." + ComponentName(k), "." + ComponentName(l);
    assert a == (full + a)[|full|..] && b == (full + b)[|full|..];
    assert ComponentName(k) == a[1..] && ComponentName(l) == b[1..];
  }

  /** No name lies below two different parts, unless a wide vector is expanded. */
  lemma {:induction false} PartsApart(v: ShVariable, full: string, forceBuiltIn: bool, k: nat, l: nat, x: string)
    requires Named(v) && k < l < PartCount(v) && !(IsVector(v) && v.size > 5)
    ensures x in PartNames(v, full, forceBuiltIn, k) ==> x !in PartNames(v, full, forceBuiltIn, l)
  {
    if IsVector(v) {
      ComponentNames(v, full, forceBuiltIn, k);
      ComponentNames(v, full, forceBuiltIn, l);
      ComponentsApart(full, k, l);
    } else if x in PartNames(v, full, forceBuiltIn, k) && x in PartNames(v, full, forceBuiltIn, l) {
      PartExtends(v, full, forceBuiltIn, k, x);
      PartExtends(v, full, forceBuiltIn, l, x);
      BelowTwoParts(v, full, k, l, x);
    }
  }

  lemma {:induction false} ItemsDistinct(items: seq<Item>, n: nat)
    requires n <= |items| && forall k :: 0 <= k < n ==> Distinct(Names(items[k]))
    requires forall k, l :: 0 <= k < l < n ==> Apart(Names(items[k]), Names(items[l]))
    ensures Distinct(NamesOf(items, n))
  {
    if n == 0 {
    } else {
      ItemsDistinct(items, n - 1);
      var before, last := NamesOf(items, n - 1), Names(items[n - 1]);
      forall x | x in before ensures x !in last {
        var k := NameOfPart(items, n - 1, x);
        assert Apart(Names(items[k]), Names(items[n - 1]));
      }
      DistinctConcat(before, last);
    }
  }

  lemma {:induction false} ApartAt(v: ShVariable, full: string, forceBuiltIn: bool, k: nat, l: nat)
    requires Named(v) && k < l < PartCount(v) && !(IsVector(v) && v.size > 5)
    ensures Apart(PartNames(v, full, forceBuiltIn, k), PartNames(v, full, forceBuiltIn, l))
  {
    var a, b := PartNames(v, full, forceBuiltIn, k), PartNames(v, full, forceBuiltIn, l);
    forall x | x in a ensures x !in b {
      PartsApart(v, full, forceBuiltIn, k, l, x);
    }
  }

  lemma {:induction false} AllPartsDistinct(v: ShVariable, full: string, forceBuiltIn: bool, parts: seq<Item>)
    requires Named(v) && !(IsVector(v) && v.size > 5) && parts == Parts(v, full, forceBuiltIn, PartCount(v))
    requires forall k: nat :: k < PartCount(v) ==> Distinct(PartNames(v, full, forceBuiltIn, k))
    ensures Distinct(NamesOf(parts, |parts|))
  {
    forall k: nat | k < |parts| ensures Names(parts[k]) == PartNames(v, full, forceBuiltIn, k) {
    }
    forall k: nat, l: nat | k < l < |parts| ensures Apart(Names(parts[k]), Names(parts[l])) {
      ApartAt(v, full, forceBuiltIn, k, l);
    }
    ItemsDistinct(parts, |parts|);
  }

  lemma {:induction false} RepeatedInPart(items: seq<Item>, n: nat, k: nat)
    requires k < n <= |items| && !Distinct(Names(items[k]))
    ensures !Distinct(NamesOf(items, n))
  {
    DistinctConcat(NamesOf(items, n - 1), Names(items[n - 1]));
    if k == n - 1 {
    } else {
      RepeatedInPart(items, n - 1, k);
    }
  }

  lemma {:induction false} NamelessComponent(v: ShVariable, full: string, forceBuiltIn: bool, k: nat)
    requires IsVector(v) && 4 <= k < PartCount(v)
    ensures full + "." in Names(Parts(v, full, forceBuiltIn, PartCount(v))[k])
  {
    ComponentNames(v, full, forceBuiltIn, k);
    var x := full + ("." + ComponentName(k));
    assert x == full + ".";
    assert x in [x];
  }

  lemma {:induction false} SharedName(items: seq<Item>, n: nat, k: nat, l: nat, x: string)
    requires k < l < n <= |items| && x in Names(items[k]) && x in Names(items[l])
    ensures !Distinct(NamesOf(items, n))
  {
    DistinctConcat(NamesOf(items, n - 1), Names(items[n - 1]));
    if l == n - 1 {
      PartHasName(items, n - 1, k, x);
    } else {
      SharedName(items, n - 1, k, l, x);
    }
  }

  /** The fifth and the sixth component of a wide vector have the same full name. */
  lemma {:induction false} WideVectorRepeats(v: ShVariable, full: string, forceBuiltIn: bool, parts: seq<Item>)
    requires IsVector(v) && v.size > 5 && parts == Parts(v, full, forceBuiltIn, PartCount(v))
    ensures !Distinct(NamesOf(parts, |parts|))
  {
    NamelessComponent(v, full, forceBuiltIn, 4);
    NamelessComponent(v, full, forceBuiltIn, 5);
    SharedName(parts, |parts|, 4, 5, full + ".");
  }

  /** The names below an item are longer than the item's own name. */
  lemma {:induction false} NameOnTop(v: ShVariable, full: string, forceBuiltIn: bool)
    ensures full !in NamesOf(Parts(v, full, forceBuiltIn, PartCount(v)), PartCount(v))
  {
    var parts := Parts(v, full, forceBuiltIn, PartCount(v));
    if full in NamesOf(parts, PartCount(v)) {
      var k := NameOfPart(parts, PartCount(v), full);
      PartAt(v, full, forceBuiltIn, PartCount(v), k);
      PartExtends(v, full, forceBuiltIn, k, full);
    }
  }

  /** For field names that are identifiers: all items of a variable have different full names if and
      only if no vector with more than five components is expanded. */
  lemma {:induction false} NamesDistinctIff(v: ShVariable, base: string, forceBuiltIn: bool, f: Force)
    requires Named(v)
    ensures Distinct(Names(Expand(v, base, forceBuiltIn, f))) <==> !HasWideVector(v)
    decreases v.fields, ArraysLeft(v), OneIf(v.isMatrix), OneIf(v.size > 1), 1
  {
    var full := FullName(v, base, f);
    var parts := Parts(v, full, forceBuiltIn, PartCount(v));
    assert Names(Expand(v, base, forceBuiltIn, f)) == [full] + NamesOf(parts, PartCount(v));
    NameOnTop(v, full, forceBuiltIn);
    DistinctConcat([full], NamesOf(parts, PartCount(v)));
    PartsDistinctIff(v, full, forceBuiltIn);
  }

  lemma {:induction false} PartsDistinctIff(v: ShVariable, full: string, forceBuiltIn: bool)
    requires Named(v)
    ensures Distinct(NamesOf(Parts(v, full, forceBuiltIn, PartCount(v)), PartCount(v))) <==> !HasWideVector(v)
    decreases v.fields, ArraysLeft(v), OneIf(v.isMatrix), OneIf(v.size > 1), 0
  {
    forall k: nat | k < PartCount(v)
      ensures Distinct(PartNames(v, full, forceBuiltIn, k)) <==> !HasWideVector(PartOf(v, k).0)
    {
      NamesDistinctIff(PartOf(v, k).0, full, ForcedBelow(v, forceBuiltIn), PartOf(v, k).1);
    }
    if IsVector(v) && v.size > 5 {
      WideVectorRepeats(v, full, forceBuiltIn, Parts(v, full, forceBuiltIn, PartCount(v)));
    } else if HasWideVector(v) {
      var k: nat :| k < PartCount(v) && HasWideVector(PartOf(v, k).0);
      PartAt(v, full, forceBuiltIn, PartCount(v), k);
      RepeatedInPart(Parts(v, full, forceBuiltIn, PartCount(v)), PartCount(v), k);
    } else {
      forall k: nat | k < PartCount(v) ensures !HasWideVector(PartOf(v, k).0) {
        if IsVector(v) {
        }
      }
      AllPartsDistinct(v, full, forceBuiltIn, Parts(v, full, forceBuiltIn, PartCount(v)));
    }
  }

  /** No dimension of the variable is empty. */
  predicate NotEmpty(v: ShVariable) {
    && (v.isArray ==> 0 < v.arraySize0 && (v.arraySize1 == -1 || 0 < v.arraySize1))
    && (v.isMatrix ==> 0 < v.rows && 0 < v.columns)
  }

  lemma {:induction false} AllPartsAlike(v: ShVariable, atom: ShVariable)
    requires !IsVector(v) && forall k: nat :: k < PartCount(v) ==> PartOf(v, k).0 == atom
    ensures HasWideVector(v) <==> PartCount(v) > 0 && HasWideVector(atom)
  {
    if PartCount(v) > 0 {
      assert PartOf(v, 0).0 == atom;
    }
  }

  /** A variable that is no struct has a wide vector below it if and only if it says that it has more
      than five components: the cells of a matrix and the elements of an array keep its size. */
  lemma {:induction false} WideIff(v: ShVariable)
    requires v.fields == []
    ensures HasWideVector(v) <==> v.size > 5 && NotEmpty(v)
    decreases ArraysLeft(v), OneIf(v.isMatrix)
  {
    if v.isArray {
      WideIff(ArrayAtom(v));
      AllPartsAlike(v, ArrayAtom(v));
    } else if v.isMatrix {
      WideIff(MatrixAtom(v));
      AllPartsAlike(v, MatrixAtom(v));
    }
  }

  /** The names of a matrix: different if the compiler gives it the size 1 of a scalar, and some of
      them equal if it gives it the number of its cells and there are more than five. */
  lemma {:induction false} MatrixNames(v: ShVariable, base: string, forceBuiltIn: bool, f: Force)
    requires !v.isArray && v.fields == [] && v.isMatrix && 0 < v.rows && 0 < v.columns
    ensures Distinct(Names(Expand(v, base, forceBuiltIn, f))) <==> v.size <= 5
  {
    WideIff(v);
    NamesDistinctIff(v, base, forceBuiltIn, f);
  }

  // ---------- Leaves ----------

  function Leaves(item: Item): nat {
    if item.children == [] then 1 else LeavesOf(item.children, |item.children|)
  }

  function LeavesOf(items: seq<Item>, n: nat): nat
    requires n <= |items|
  {
    if n == 0 then 0 else LeavesOf(items, n - 1) + Leaves(items[n - 1])
  }

  /** The sizes of a matrix or a vector multiply; a scalar is one value. */
  function CellVolume(v: ShVariable): nat {
    var components := if v.size > 1 then v.size else 1;
    if !v.isMatrix then components
    else if v.rows <= 0 || v.columns <= 0 then 1
    else v.rows * v.columns * components
  }

  /** What the compiler says about the size of a variable: the dimensions of arrays and matrices and the
      sizes of vectors multiply, fields add up. Without any part, as for an array of no elements, the
      item itself is the only leaf. */
  function Volume(v: ShVariable): nat
    decreases v.fields, |v.fields| + 1
  {
    var one := if v.fields == [] then CellVolume(v) else VolumeOf(v.fields, |v.fields|);
    if !v.isArray then one
    else if v.arraySize0 <= 0 then 1
    else if v.arraySize1 == -1 then v.arraySize0 * one
    else if v.arraySize1 <= 0 then v.arraySize0
    else v.arraySize0 * (v.arraySize1 * one)
  }

  function VolumeOf(fields: seq<ShVariable>, n: nat): nat
    requires n <= |fields|
    decreases fields, n
  {
    if n == 0 then 0 else VolumeOf(fields, n - 1) + Volume(fields[n - 1])
  }

  lemma {:induction false} LeavesOfEqualParts(items: seq<Item>, n: nat, each: nat)
    requires n <= |items| && forall k :: 0 <= k < n ==> Leaves(items[k]) == each
    ensures LeavesOf(items, n) == Product(n, each)
  {
    if n == 0 {
    } else {
      LeavesOfEqualParts(items, n - 1, each);
    }
  }

  lemma {:induction false} LeavesOfFields(items: seq<Item>, fields: seq<ShVariable>, n: nat)
    requires n <= |items| == |fields| && forall k :: 0 <= k < n ==> Leaves(items[k]) == Volume(fields[k])
    ensures LeavesOf(items, n) == VolumeOf(fields, n)
  {
    if n == 0 {
    } else {
      LeavesOfFields(items, fields, n - 1);
    }
  }

  lemma {:induction false} ArrayVolume(v: ShVariable)
    requires v.isArray && 0 < v.arraySize0
    ensures Volume(v) == Product(v.arraySize0, Volume(ArrayAtom(v)))
  {
    ProductIsTimes(v.arraySize0, Volume(ArrayAtom(v)));
  }

  lemma {:induction false} MatrixVolume(v: ShVariable)
    requires IsMatrix(v) && 0 < v.rows && 0 < v.columns
    ensures Volume(v) == Product(Product(v.rows, v.columns), Volume(MatrixAtom(v)))
  {
    ProductIsTimes(v.rows, v.columns);
    ProductIsTimes(Product(v.rows, v.columns), Volume(MatrixAtom(v)));
  }

  /** Where a matrix has cells, it has rows and columns. */
  lemma {:induction false} CellsOfMatrix(v: ShVariable)
    requires IsMatrix(v)
    ensures PartCount(v) > 0 <==> 0 < v.rows && 0 < v.columns
  {
    NoCells(AtLeast0(v.rows));
  }

  lemma {:induction false} PartsVolume(v: ShVariable, parts: seq<Item>)
    requires |parts| == PartCount(v) > 0 && forall k: nat :: k < |parts| ==> Leaves(parts[k]) == Volume(PartOf(v, k).0)
    ensures LeavesOf(parts, |parts|) == Volume(v)
  {
    if v.isArray {
      LeavesOfEqualParts(parts, |parts|, Volume(ArrayAtom(v)));
      ArrayVolume(v);
    } else if v.fields != [] {
      LeavesOfFields(parts, v.fields, |parts|);
    } else if v.isMatrix {
      LeavesOfEqualParts(parts, |parts|, Volume(MatrixAtom(v)));
      CellsOfMatrix(v);
      MatrixVolume(v);
    } else {
      LeavesOfEqualParts(parts, |parts|, 1);
      ProductIsTimes(|parts|, 1);
    }
  }

  lemma {:induction false} NoParts(v: ShVariable)
    requires PartCount(v) == 0
    ensures Volume(v) == 1
  {
    if IsMatrix(v) {
      CellsOfMatrix(v);
    }
  }

  /** The leaves of an expansion are as many as the dimensions, sizes and fields say. */
  lemma {:induction false} LeafPerValue(v: ShVariable, base: string, forceBuiltIn: bool, f: Force)
    ensures Leaves(Expand(v, base, forceBuiltIn, f)) == Volume(v)
    decreases v.fields, ArraysLeft(v), OneIf(v.isMatrix), OneIf(v.size > 1)
  {
    var full, count := FullName(v, base, f), PartCount(v);
    var parts := Parts(v, full, forceBuiltIn, count);
    forall k: nat | k < count ensures Leaves(parts[k]) == Volume(PartOf(v, k).0) {
      PartAt(v, full, forceBuiltIn, count, k);
      LeafPerValue(PartOf(v, k).0, full, ForcedBelow(v, forceBuiltIn), PartOf(v, k).1);
    }
    if count > 0 {
      PartsVolume(v, parts);
    } else {
      NoParts(v);
    }
  }

  lemma {:induction false} TimesOne(n: nat, m: nat)
    requires n > 0
    ensures n * m == n <==> m == 1
  {
    if m > 1 {
      assert n * m == n + n * (m - 1);
    }
  }

  /** A matrix has one leaf per value if and only if the compiler gives it the size of a scalar; the cells
      of a larger one are expanded once more. */
  lemma {:induction false} MatrixLeaves(v: ShVariable, base: string, forceBuiltIn: bool, f: Force)
    requires !v.isArray && v.fields == [] && v.isMatrix && 0 < v.rows && 0 < v.columns
    ensures Leaves(Expand(v, base, forceBuiltIn, f)) == v.rows * v.columns <==> v.size <= 1
  {
    var cells := Product(v.rows, v.columns);
    LeafPerValue(v, base, forceBuiltIn, f);
    ProductIsTimes(v.rows, v.columns);
    TimesOne(cells, Volume(MatrixAtom(v)));
  }

  // ---------- Labels ----------

  /** A part of a variable that is no matrix stands at the position its label says, as the access
      paths of the tree expect. */
  lemma {:induction false} PartsArePlaced(v: ShVariable, base: string, forceBuiltIn: bool, f: Force, k: nat)
    requires k < PartCount(v) && !IsMatrix(v)
    ensures |Expand(v, base, forceBuiltIn, f).children| == PartCount(v)
    ensures var part := Expand(v, base, forceBuiltIn, f).children[k];
            && part.id == -1 && part.indexA == Some(k) && part.indexB == None
            && part.kind.Some? && Steps(part.kind.value)
  {
    PartAt(v, FullName(v, base, f), forceBuiltIn, PartCount(v), k);
  }

  // ---------- Names and labels, part by part ----------

  /** The value of a decimal numeral, read digit by digit. */
  function ReadNumeral(d: string): int {
    if d == [] then 0 else 10 * ReadNumeral(d[..|d| - 1]) + (d[|d| - 1] as int - '0' as int)
  }

  /** An index is written with decimal digits, the shortest way. */
  lemma {:induction false} DecimalReads(n: nat)
    ensures ReadNumeral(Decimal(n)) == n
    ensures forall i :: 0 <= i < |Decimal(n)| ==> '0' <= Decimal(n)[i] <= '9'
    ensures |Decimal(n)| > 1 ==> Decimal(n)[0] != '0'
  {
    var d := Decimal(n);
    if n < 10 {
      assert d[..|d| - 1] == [];
    } else {
      DecimalReads(n / 10);
      assert d[..|d| - 1] == Decimal(n / 10);
      if n / 10 < 10 {
        assert Decimal(n / 10) == [Digit(n / 10)];
      }
    }
  }

  /** A variable itself, and whether it can be watched. */
  lemma {:induction false} WholeVariable(v: ShVariable, base: string, forced: bool, f: Force)
    ensures Expand(v, base, forced, f).selectable <==> !v.sampler
    ensures Expand(v, base, forced, f).builtIn <==> forced || v.builtIn
    ensures var item := Expand(v, base, forced, NoForce);
            && item.name == item.fullName == v.name && item.id == v.id
            && item.kind == None && item.indexA == None && item.indexB == None
  {
  }

  lemma {:induction false} ComponentNamed(full: string, i: nat)
    ensures i == 0 ==> ComponentName(i) == "x" && full + ("." + ComponentName(i)) == full + ".x"
    ensures i == 1 ==> ComponentName(i) == "y" && full + ("." + ComponentName(i)) == full + ".y"
    ensures i == 2 ==> ComponentName(i) == "z" && full + ("." + ComponentName(i)) == full + ".z"
    ensures i == 3 ==> ComponentName(i) == "w" && full + ("." + ComponentName(i)) == full + ".w"
    ensures i > 3 ==> ComponentName(i) == "" && full + ("." + ComponentName(i)) == full + "."
  {
  }

  lemma {:induction false} ComponentItem(v: ShVariable, full: string, forced: bool, i: nat, part: Item)
    requires IsVector(v) && part == Expand(VectorAtom(v), full, forced, ForceVector(i))
    ensures part.name == ComponentName(i) && part.fullName == full + ("." + ComponentName(i))
    ensures part.kind == Some(ArrayDirect) && part.indexA == Some(i) && part.indexB == None
    ensures part.children == [] && (part.selectable <==> !v.sampler)
  {
  }

  /** The components of a vector: the first four are called x, y, z and w. */
  lemma {:induction false} VectorParts(v: ShVariable, base: string, forced: bool, f: Force, i: nat)
    requires !v.isArray && v.fields == [] && !v.isMatrix && 1 < v.size && i < v.size
    ensures var item := Expand(v, base, forced, f);
            && |item.children| == v.size
            && var part := item.children[i];
               && (i == 0 ==> part.name == "x" && part.fullName == item.fullName + ".x")
               && (i == 1 ==> part.name == "y" && part.fullName == item.fullName + ".y")
               && (i == 2 ==> part.name == "z" && part.fullName == item.fullName + ".z")
               && (i == 3 ==> part.name == "w" && part.fullName == item.fullName + ".w")
               && (i > 3 ==> part.name == "" && part.fullName == item.fullName + ".")
               && part.kind == Some(ArrayDirect) && part.indexA == Some(i) && part.indexB == None
               && part.children == [] && (part.selectable <==> !v.sampler)
  {
    var full := FullName(v, base, f);
    PartAt(v, full, forced, PartCount(v), i);
    ComponentItem(v, full, ForcedBelow(v, forced), i, Expand(v, base, forced, f).children[i]);
    ComponentNamed(full, i);
  }

  /** The elements of an array. */
  lemma {:induction false} ArrayParts(v: ShVariable, base: string, forced: bool, f: Force, i: nat)
    requires v.isArray && i < v.arraySize0
    ensures var item := Expand(v, base, forced, f);
            && |item.children| == v.arraySize0
            && var part := item.children[i];
               && part.name == "[" + Decimal(i) + "]" && part.fullName == item.fullName + "[" + Decimal(i) + "]"
               && part.kind == Some(ArrayIndirect) && part.indexA == Some(i) && part.indexB == None
               && (part.selectable <==> !v.sampler)
  {
    PartAt(v, FullName(v, base, f), forced, PartCount(v), i);
    Joined(FullName(v, base, f), Decimal(i));
  }

  lemma {:induction false} Joined(full: string, d: string)
    ensures full + ("[" + d + "]") == full + "[" + d + "]"
  {
  }

  /** The elements of an array of arrays. */
  lemma {:induction false} GridParts(v: ShVariable, base: string, forced: bool, f: Force, i: nat, j: nat)
    requires v.isArray && i < v.arraySize0 && j < v.arraySize1
    ensures var item := Expand(v, base, forced, f);
            && i < |item.children| && |item.children[i].children| == v.arraySize1
            && var part := item.children[i].children[j];
               && part.fullName == item.fullName + "[" + Decimal(i) + "]" + "[" + Decimal(j) + "]"
               && part.kind == Some(ArrayIndirect) && part.indexA == Some(j) && part.indexB == None
  {
    ArrayParts(v, base, forced, f, i);
    PartAt(v, FullName(v, base, f), forced, PartCount(v), i);
    ArrayParts(ArrayAtom(v), FullName(v, base, f), v.builtIn, ForceArray(i), j);
  }

  /** The members of a struct. */
  lemma {:induction false} MemberParts(v: ShVariable, base: string, forced: bool, f: Force, k: nat)
    requires !v.isArray && k < |v.fields|
    ensures var item := Expand(v, base, forced, f);
            && |item.children| == |v.fields|
            && var part := item.children[k];
               && part.name == v.fields[k].name && part.fullName == item.fullName + "." + v.fields[k].name
               && part.kind == Some(Member) && part.indexA == Some(k) && part.indexB == None
               && (part.selectable <==> !v.fields[k].sampler)
  {
    PartAt(v, FullName(v, base, f), forced, PartCount(v), k);
    var full, name := FullName(v, base, f), v.fields[k].name;
    assert full + ("." + name) == full + "." + name;
  }

  /** The members of the elements of an array of structs. */
  lemma {:induction false} ElementMembers(v: ShVariable, base: string, forced: bool, f: Force, i: nat, k: nat)
    requires v.isArray && i < v.arraySize0 && v.arraySize1 == -1 && k < |v.fields|
    ensures var item := Expand(v, base, forced, f);
            && i < |item.children| && |item.children[i].children| == |v.fields|
            && var part := item.children[i].children[k];
               && part.fullName == item.fullName + "[" + Decimal(i) + "]" + "." + v.fields[k].name
               && part.kind == Some(Member) && part.indexA == Some(k) && part.indexB == None
  {
    ArrayParts(v, base, forced, f, i);
    PartAt(v, FullName(v, base, f), forced, PartCount(v), i);
    MemberParts(ArrayAtom(v), FullName(v, base, f), v.builtIn, ForceArray(i), k);
  }

  /** The position of cell (i, j). */
  lemma {:induction false} CellPosition(v: ShVariable, i: nat, j: nat)
    requires IsMatrix(v) && i < v.rows && j < v.columns
    ensures PartCount(v) == v.rows * v.columns && 0 <= i * v.columns + j < v.rows * v.columns
    ensures PartOf(v, i * v.columns + j) == (MatrixAtom(v), ForceMatrix(i, j))
  {
    ProductIsTimes(v.rows, v.columns);
    ProductIsTimes(i, v.columns);
    ProductGrows(i + 1, v.rows, v.columns);
    CellPart(v, i, j, Product(i, v.columns) + j);
  }

  lemma {:induction false} CellItem(v: ShVariable, full: string, forced: bool, i: nat, j: nat)
    ensures var part := Expand(MatrixAtom(v), full, forced, ForceMatrix(i, j));
            && part.name == "[" + Decimal(i) + "]" + "[" + Decimal(j) + "]"
            && part.fullName == full + "[" + Decimal(i) + "]" + "[" + Decimal(j) + "]"
            && part.kind == Some(ArrayIndirect) && part.indexA == Some(i) && part.indexB == Some(j)
            && (part.selectable <==> !v.sampler)
  {
    assert full + ("[" + Decimal(i) + "]" + "[" + Decimal(j) + "]")
        == full + "[" + Decimal(i) + "]" + "[" + Decimal(j) + "]";
  }

  /** The cells of a matrix stand row by row and carry both indices. */
  lemma {:induction false} MatrixParts(v: ShVariable, base: string, forced: bool, f: Force, i: nat, j: nat)
    requires !v.isArray && v.fields == [] && v.isMatrix && i < v.rows && j < v.columns
    ensures var item := Expand(v, base, forced, f);
            && |item.children| == v.rows * v.columns && 0 <= i * v.columns + j < |item.children|
            && var part := item.children[i * v.columns + j];
               && part.name == "[" + Decimal(i) + "]" + "[" + Decimal(j) + "]"
               && part.fullName == item.fullName + "[" + Decimal(i) + "]" + "[" + Decimal(j) + "]"
               && part.kind == Some(ArrayIndirect) && part.indexA == Some(i) && part.indexB == Some(j)
               && (part.selectable <==> !v.sampler)
  {
    var k := i * v.columns + j;
    CellPosition(v, i, j);
    PartAt(v, FullName(v, base, f), forced, PartCount(v), k);
    CellItem(v, FullName(v, base, f), ForcedBelow(v, forced), i, j);
  }

  // ---------- The built-in flag ----------

  predicate AllBuiltIn(item: Item) {
    item.builtIn && forall k :: 0 <= k < |item.children| ==> AllBuiltIn(item.children[k])
  }

  /** The compiler flags a variable as built in, and not the members of its struct type. */
  predicate MembersUnflagged(v: ShVariable) {
    forall f :: f in v.fields ==> !f.builtIn && MembersUnflagged(f)
  }

  predicate HasElementsOrMembers(v: ShVariable) {
    (v.isArray || v.fields != []) && PartCount(v) > 0
  }

  /** Some expanded member of the struct is itself an array or a struct. */
  predicate LosesFlag(v: ShVariable)
    decreases ArraysLeft(v)
  {
    if v.isArray then PartCount(v) > 0 && LosesFlag(ArrayAtom(v))
    else exists k :: 0 <= k < |v.fields| && HasElementsOrMembers(v.fields[k])
  }

  predicate PartBuiltIn(v: ShVariable, full: string, forced: bool, k: nat)
    requires k < PartCount(v)
  {
    AllBuiltIn(Expand(PartOf(v, k).0, full, ForcedBelow(v, forced), PartOf(v, k).1))
  }

  lemma {:induction false} BuiltInParts(v: ShVariable, base: string, forced: bool, f: Force)
    ensures AllBuiltIn(Expand(v, base, forced, f)) <==>
              && (forced || v.builtIn)
              && forall k: nat :: k < PartCount(v) ==> PartBuiltIn(v, FullName(v, base, f), forced, k)
  {
    var full, item := FullName(v, base, f), Expand(v, base, forced, f);
    forall k: nat | k < PartCount(v) ensures AllBuiltIn(item.children[k]) <==> PartBuiltIn(v, full, forced, k) {
      PartAt(v, full, forced, PartCount(v), k);
    }
  }

  /** Without struct members the flag reaches every item. */
  lemma {:induction false} FlagReachesAll(v: ShVariable, base: string, forced: bool, f: Force)
    requires v.fields == [] && (forced || v.builtIn) && (v.isArray ==> v.builtIn)
    ensures AllBuiltIn(Expand(v, base, forced, f))
    decreases ArraysLeft(v), OneIf(v.isMatrix), OneIf(v.size > 1)
  {
    forall k: nat | k < PartCount(v) ensures PartBuiltIn(v, FullName(v, base, f), forced, k) {
      FlagReachesAll(PartOf(v, k).0, FullName(v, base, f), ForcedBelow(v, forced), PartOf(v, k).1);
    }
    BuiltInParts(v, base, forced, f);
  }

  /** A member of a built-in struct has the flag; its elements and members do not. */
  lemma {:induction false} MemberFlags(v: ShVariable, base: string, f: Force)
    requires !v.builtIn && MembersUnflagged(v)
    ensures AllBuiltIn(Expand(v, base, true, f)) <==> !HasElementsOrMembers(v)
  {
    BuiltInParts(v, base, true, f);
    if HasElementsOrMembers(v) {
      var p := PartOf(v, 0);
      assert !p.0.builtIn && !ForcedBelow(v, true);
      BuiltInParts(p.0, FullName(v, base, f), false, p.1);
      assert !PartBuiltIn(v, FullName(v, base, f), true, 0);
    } else if PartCount(v) > 0 {
      FlagReachesAll(v, base, true, f);
    }
  }

  /** All items of a built-in variable carry the flag if and only if no member of its struct is
      expanded as an array or a struct. */
  lemma {:induction false} BuiltInIff(v: ShVariable, base: string, forced: bool, f: Force)
    requires v.builtIn && MembersUnflagged(v)
    ensures AllBuiltIn(Expand(v, base, forced, f)) <==> !LosesFlag(v)
    decreases ArraysLeft(v)
  {
    var full := FullName(v, base, f);
    BuiltInParts(v, base, forced, f);
    if v.isArray {
      forall k: nat | k < PartCount(v) ensures PartBuiltIn(v, full, forced, k) <==> !LosesFlag(ArrayAtom(v)) {
        BuiltInIff(ArrayAtom(v), full, v.builtIn, ForceArray(k));
      }
      assert PartCount(v) > 0 ==> (PartBuiltIn(v, full, forced, 0) <==> !LosesFlag(ArrayAtom(v)));
    } else if v.fields != [] {
      forall k: nat | k < PartCount(v) ensures PartBuiltIn(v, full, forced, k) <==> !HasElementsOrMembers(v.fields[k]) {
        assert v.fields[k] in v.fields;
        MemberFlags(v.fields[k], full, ForceStruct(k));
      }
    } else {
      FlagReachesAll(v, base, forced, f);
    }
  }

  /** The members of the struct are scalars, vectors and matrices. */
  predicate PlainMembers(v: ShVariable) {
    forall f :: f in v.fields ==> !f.isArray && f.fields == []
  }

  lemma {:induction false} PlainKeepFlag(v: ShVariable)
    requires PlainMembers(v)
    ensures !LosesFlag(v)
    decreases ArraysLeft(v)
  {
    if v.isArray {
      PlainKeepFlag(ArrayAtom(v));
    } else {
      forall k: nat | k < |v.fields| ensures !HasElementsOrMembers(v.fields[k]) {
        assert v.fields[k] in v.fields;
      }
    }
  }

  /** All items of a built-in variable whose struct has plain members carry the flag, in arrays of
      such structs too. */
  lemma {:induction false} PlainBuiltIns(v: ShVariable, base: string, forced: bool, f: Force)
    requires v.builtIn && MembersUnflagged(v) && PlainMembers(v)
    ensures AllBuiltIn(Expand(v, base, forced, f))
  {
    PlainKeepFlag(v);
    BuiltInIff(v, base, forced, f);
  }
}
