/**
 The packed stream of uniform values that the debuggee writes and the debugger parses: per uniform
 the length of its name, the name, the type, the array size, the size of the value and the value.
 */
module UniformStream {
  import opened Wrappers

  newtype Byte = x: int | 0 <= x < 256

  // ---------- Integers in memory ----------

  const TWO_TO_32: int := 0x1_0000_0000
  const TWO_TO_31: int := 0x8000_0000

  predicate IsInt32(x: int) {
    -TWO_TO_31 <= x < TWO_TO_31
  }

  /** A 32-bit integer in two's complement, least significant byte first. */
  function IntBytes(x: int): (r: seq<Byte>)
    requires IsInt32(x)
    ensures |r| == 4
  {
    var u := if x < 0 then x + TWO_TO_32 else x;
    var u1 := u / 256;
    var u2 := u1 / 256;
    [(u % 256) as Byte, (u1 % 256) as Byte, (u2 % 256) as Byte, (u2 / 256) as Byte]
  }

  /** The weights of the bytes. */
  lemma {:induction false} IntWeights(x: int)
    requires IsInt32(x)
    ensures var r := IntBytes(x);
            r[0] as int + 256 * r[1] as int + 65536 * r[2] as int + 16777216 * r[3] as int
            == if x < 0 then x + 4294967296 else x
  {
  }

  function IntAt(b: seq<Byte>, at: nat): (r: int)
    requires at + 4 <= |b|
    ensures IsInt32(r)
  {
    var u := b[at] as int + 256 * b[at + 1] as int + 65536 * b[at + 2] as int + 16777216 * b[at + 3] as int;
    if u < TWO_TO_31 then u else u - TWO_TO_32
  }

  lemma {:induction false} IntRoundTrip(b: seq<Byte>, at: nat, x: int)
    requires IsInt32(x) && at + 4 <= |b| && b[at..at + 4] == IntBytes(x)
    ensures IntAt(b, at) == x
  {
    var r := b[at..at + 4];
    assert b[at] == r[0] && b[at + 1] == r[1] && b[at + 2] == r[2] && b[at + 3] == r[3];
  }

  // ---------- Types ----------

  datatype Base = FloatBase | IntBase | UIntBase | BoolBase

  function Width(b: Base): nat {
    if b.BoolBase? then 1 else 4
  }

  /** What the type of a uniform says about its value. */
  datatype Shape = Shape(base: Base, isVector: bool, isMatrix: bool, rows: nat, columns: nat)

  function ScalarShape(b: Base): Shape {
    Shape(b, false, false, 1, 1)
  }

  function VectorShape(b: Base, n: nat): Shape {
    Shape(b, true, false, 1, n)
  }

  function MatrixShape(rows: nat, columns: nat): Shape {
    Shape(FloatBase, false, true, rows, columns)
  }

  predicate IsSampler(code: int) {
    0x8B5D <= code <= 0x8B64 || 0x8DC0 <= code <= 0x8DC5 || 0x8DC9 <= code <= 0x8DD8
  }

  /** The types that are known; None is an unknown type. */
  function ShapeOf(code: int): Option<Shape> {
    match code
    case 0x1406 => Some(ScalarShape(FloatBase))
    case 0x8B50 => Some(VectorShape(FloatBase, 2))
    case 0x8B51 => Some(VectorShape(FloatBase, 3))
    case 0x8B52 => Some(VectorShape(FloatBase, 4))
    case 0x8B5A => Some(MatrixShape(2, 2))
    case 0x8B65 => Some(MatrixShape(2, 3))
    case 0x8B66 => Some(MatrixShape(2, 4))
    case 0x8B5B => Some(MatrixShape(3, 3))
    case 0x8B67 => Some(MatrixShape(3, 2))
    case 0x8B68 => Some(MatrixShape(3, 4))
    case 0x8B5C => Some(MatrixShape(4, 4))
    case 0x8B69 => Some(MatrixShape(4, 2))
    case 0x8B6A => Some(MatrixShape(4, 3))
    case 0x1404 => Some(ScalarShape(IntBase))
    case 0x8B53 => Some(VectorShape(IntBase, 2))
    case 0x8B54 => Some(VectorShape(IntBase, 3))
    case 0x8B55 => Some(VectorShape(IntBase, 4))
    case 0x8B56 => Some(ScalarShape(BoolBase))
    case 0x8B57 => Some(VectorShape(BoolBase, 2))
    case 0x8B58 => Some(VectorShape(BoolBase, 3))
    case 0x8B59 => Some(VectorShape(BoolBase, 4))
    case 0x1405 => Some(ScalarShape(UIntBase))
    case 0x8DC6 => Some(VectorShape(UIntBase, 2))
    case 0x8DC7 => Some(VectorShape(UIntBase, 3))
    case 0x8DC8 => Some(VectorShape(UIntBase, 4))
    case _ => if IsSampler(code) then Some(ScalarShape(IntBase)) else None
  }

  /** The codes of the OpenGL types count up: vectors by size, square matrices by size, and the other
      matrices by rows and then by columns. */
  lemma {:induction false} CodesOfShapes(r: nat, c: nat)
    requires 2 <= r <= 4 && 2 <= c <= 4
    ensures ShapeOf(0x1406) == Some(Shape(FloatBase, false, false, 1, 1))
    ensures ShapeOf(0x1404) == Some(Shape(IntBase, false, false, 1, 1))
    ensures ShapeOf(0x1405) == Some(Shape(UIntBase, false, false, 1, 1))
    ensures ShapeOf(0x8B56) == Some(Shape(BoolBase, false, false, 1, 1))
    ensures ShapeOf(0x8B50 + c - 2) == Some(Shape(FloatBase, true, false, 1, c))
    ensures ShapeOf(0x8B53 + c - 2) == Some(Shape(IntBase, true, false, 1, c))
    ensures ShapeOf(0x8DC6 + c - 2) == Some(Shape(UIntBase, true, false, 1, c))
    ensures ShapeOf(0x8B57 + c - 2) == Some(Shape(BoolBase, true, false, 1, c))
    ensures r == c ==> ShapeOf(0x8B5A + r - 2) == Some(Shape(FloatBase, false, true, r, r))
    ensures r != c ==>
              ShapeOf(0x8B65 + 2 * (r - 2) + (if c < r then c - 2 else c - 3))
              == Some(Shape(FloatBase, false, true, r, c))
  {
  }

  /** The number of bytes the reader takes for one array element; an unknown type has none. */
  function TypeSize(code: int): nat {
    match ShapeOf(code)
    case None => 0
    case Some(s) => s.rows * s.columns * Width(s.base)
  }

  /** Samplers are integers, and boolean values take one byte; the codes of the known types lie in three
      ranges. */
  lemma {:induction false} SamplersAndSizes(code: int)
    ensures ShapeOf(code).Some? <==>
              0x1404 <= code <= 0x1406 || 0x8B50 <= code <= 0x8B6A || 0x8DC0 <= code <= 0x8DD8
    ensures 0x8B5D <= code <= 0x8B64 || 0x8DC0 <= code <= 0x8DC5 || 0x8DC9 <= code <= 0x8DD8 ==>
              ShapeOf(code) == Some(Shape(IntBase, false, false, 1, 1))
    ensures ShapeOf(code).Some? ==>
              var s := ShapeOf(code).value;
              TypeSize(code) == (if s.base == BoolBase then 1 else 4) * (s.rows * s.columns)
  {
  }

  /** The writer's own table of sizes. */
  function ShaderTypeSize(code: int): nat {
    match code
    case 0x1406 => 4
    case 0x8B50 => 8
    case 0x8B51 => 12
    case 0x8B52 => 16
    case 0x8B5A => 16
    case 0x8B65 => 24
    case 0x8B66 => 32
    case 0x8B5B => 36
    case 0x8B67 => 24
    case 0x8B68 => 48
    case 0x8B5C => 64
    case 0x8B69 => 32
    case 0x8B6A => 48
    case 0x1404 => 4
    case 0x8B53 => 8
    case 0x8B54 => 12
    case 0x8B55 => 16
    case 0x8B56 => 1
    case 0x8B57 => 2
    case 0x8B58 => 3
    case 0x8B59 => 4
    case 0x1405 => 4
    case 0x8DC6 => 8
    case 0x8DC7 => 12
    case 0x8DC8 => 16
    case _ => if IsSampler(code) then 4 else 0
  }

  /** Writer and reader agree on the size of every type, known or not. */
  lemma {:induction false} SizesAgree(code: int)
    ensures ShaderTypeSize(code) == TypeSize(code)
  {
  }

  // ---------- The writer's side ----------

  /** An active uniform of the shader program: `value` holds `size` array elements. */
  datatype ActiveUniform = ActiveUniform(name: seq<Byte>, code: int, size: nat, value: seq<Byte>)

  /** A driver reports at least one array element, and every length fits its field. */
  ghost predicate ValidUniform(u: ActiveUniform) {
    && u.size >= 1 && |u.value| == u.size * ShaderTypeSize(u.code)
    && IsInt32(|u.name|) && IsInt32(u.code) && IsInt32(u.size) && IsInt32(|u.value|)
  }

  function Record(u: ActiveUniform): (r: seq<Byte>)
    requires IsInt32(|u.name|) && IsInt32(u.code) && IsInt32(u.size) && IsInt32(|u.value|)
    ensures |r| == 16 + |u.name| + |u.value|
  {
    IntBytes(|u.name|) + u.name + IntBytes(u.code) + IntBytes(u.size) + IntBytes(|u.value|) + u.value
  }

  ghost predicate AllValid(us: seq<ActiveUniform>) {
    forall u :: u in us ==> ValidUniform(u)
  }

  ghost function Serialized(us: seq<ActiveUniform>, n: nat): seq<Byte>
    requires n <= |us| && AllValid(us)
  {
    if n == 0 then []
    else
      assert ValidUniform(us[n - 1]);
      Serialized(us, n - 1) + Record(us[n - 1])
  }

  // ---------- The reader's side ----------

  /** A parsed uniform. `elements` are the raw values of the first array element, row by row; an
      unknown type has none. */
  datatype Uniform = Uniform(name: seq<Byte>, arraySize: int, shape: Option<Shape>, elements: seq<seq<Byte>>)

  function Rows(u: Uniform): nat {
    if u.shape.Some? then u.shape.value.rows else 0
  }

  function Columns(u: Uniform): nat {
    if u.shape.Some? then u.shape.value.columns else 0
  }

  /** The first `n` elements of `w` bytes each, from `at` on. */
  function Elements(b: seq<Byte>, at: nat, w: nat, n: nat): (r: seq<seq<Byte>>)
    requires at + n * w <= |b|
    ensures |r| == n
  {
    if n == 0 then []
    else
      Elements(b, at, w, n - 1) + [b[at + (n - 1) * w..at + (n - 1) * w + w]]
  }

  /** The values of the first array element of a uniform whose value starts at `at`. */
  function ValueAt(b: seq<Byte>, at: nat, code: int): seq<seq<Byte>>
    requires at + TypeSize(code) <= |b|
  {
    match ShapeOf(code)
    case None => []
    case Some(s) => Elements(b, at, Width(s.base), s.rows * s.columns)
  }

  datatype Parsed = Parsed(uniform: Uniform, next: int)

  /** One record. None stands for a read outside the stream, which the program does not check. */
  function Parse(b: seq<Byte>, at: nat): Option<Parsed> {
    if at + 4 > |b| then None
    else
      var nameLength := IntAt(b, at);
      var n := at + 4 + nameLength;
      if nameLength < 0 || n + 12 > |b| then None
      else
        var code, size, valueSize := IntAt(b, n), IntAt(b, n + 4), IntAt(b, n + 8);
        if n + 12 + TypeSize(code) > |b| then None
        else Some(Parsed(Uniform(b[at + 4..n], size, ShapeOf(code), ValueAt(b, n + 12, code)), n + 12 + valueSize))
  }

  lemma {:induction false} FirstElementFits(u: ActiveUniform)
    requires ValidUniform(u)
    ensures TypeSize(u.code) <= |u.value|
  {
    SizesAgree(u.code);
  }

  /** What parsing should give for a uniform: its name, its shape and the values of its first element. */
  ghost function Expected(u: ActiveUniform): Uniform
    requires ValidUniform(u)
  {
    FirstElementFits(u);
    Uniform(u.name, u.size, ShapeOf(u.code), ValueAt(u.value, 0, u.code))
  }

  lemma {:induction false} Window(b: seq<Byte>, at: nat, r: seq<Byte>, i: nat, j: nat)
    requires at + |r| <= |b| && b[at..at + |r|] == r && i <= j <= |r|
    ensures b[at + i..at + j] == r[i..j]
  {
    forall k | 0 <= k < j - i ensures b[at + i..at + j][k] == r[i..j][k] {
      assert b[at + (i + k)] == b[at..at + |r|][i + k];
    }
  }

  lemma {:induction false} ElementsMoved(b: seq<Byte>, at: nat, c: seq<Byte>, w: nat, n: nat)
    requires at + |c| <= |b| && b[at..at + |c|] == c && n * w <= |c|
    ensures Elements(b, at, w, n) == Elements(c, 0, w, n)
  {
    if n == 0 {
    } else {
      ElementsMoved(b, at, c, w, n - 1);
      var i := (n - 1) * w;
      Window(b, at, c, i, i + w);
    }
  }

  lemma {:induction false} ValueMoved(b: seq<Byte>, at: nat, c: seq<Byte>, code: int)
    requires at + |c| <= |b| && b[at..at + |c|] == c && TypeSize(code) <= |c|
    ensures ValueAt(b, at, code) == ValueAt(c, 0, code)
  {
    var shape := ShapeOf(code);
    if shape.Some? {
      ElementsMoved(b, at, c, Width(shape.value.base), shape.value.rows * shape.value.columns);
    }
  }

  // ---------- Round trip ----------

  /** The six fields of the record of `u` lie behind each other in `r`, `k` being the length of the name. */
  ghost predicate HasFields(r: seq<Byte>, u: ActiveUniform, k: nat)
    requires ValidUniform(u)
  {
    && k == |u.name| && |r| == 16 + k + |u.value|
    && r[0..4] == IntBytes(k) && r[4..4 + k] == u.name && r[4 + k..8 + k] == IntBytes(u.code)
    && r[8 + k..12 + k] == IntBytes(u.size) && r[12 + k..16 + k] == IntBytes(|u.value|)
    && r[16 + k..16 + k + |u.value|] == u.value
  }

  lemma {:induction false} RecordFields(u: ActiveUniform)
    requires ValidUniform(u)
    ensures HasFields(Record(u), u, |u.name|)
  {
    var r, k := Record(u), |u.name|;
    assert r[0..4] == IntBytes(k) && r[4..4 + k] == u.name && r[4 + k..8 + k] == IntBytes(u.code);
    assert r[8 + k..12 + k] == IntBytes(u.size) && r[12 + k..16 + k] == IntBytes(|u.value|);
  }

  /** The fields of a record: the length of the name, the name, type, array size, size of the value, value. */
  lemma {:induction false} RecordLayout(u: ActiveUniform)
    requires ValidUniform(u)
    ensures var r, k := Record(u), |u.name|;
            && |r| == 16 + k + |u.value| && r[4..4 + k] == u.name && r[16 + k..] == u.value
            && IntAt(r, 0) == k && IntAt(r, 4 + k) == u.code && IntAt(r, 8 + k) == u.size
            && IntAt(r, 12 + k) == |u.value|
  {
    var r, k := Record(u), |u.name|;
    RecordFields(u);
    IntRoundTrip(r, 0, k);
    IntRoundTrip(r, 4 + k, u.code);
    IntRoundTrip(r, 8 + k, u.size);
    IntRoundTrip(r, 12 + k, |u.value|);
  }

  /** The fields of a record, at their offsets in the stream. */
  lemma {:induction false} FieldsAt(b: seq<Byte>, at: nat, u: ActiveUniform, r: seq<Byte>, k: nat, n: nat)
    requires ValidUniform(u) && HasFields(r, u, k) && at + |r| <= |b| && b[at..at + |r|] == r
    requires n == at + 4 + k
    ensures b[at..at + 4] == IntBytes(k) && b[at + 4..n] == u.name && b[n..n + 4] == IntBytes(u.code)
    ensures b[n + 4..n + 8] == IntBytes(u.size) && b[n + 8..n + 12] == IntBytes(|u.value|)
    ensures b[n + 12..n + 12 + |u.value|] == u.value
  {
    Window(b, at, r, 0, 4);
    Window(b, at, r, 4, 4 + k);
    Window(b, at, r, 4 + k, 8 + k);
    Window(b, at, r, 8 + k, 12 + k);
    Window(b, at, r, 12 + k, 16 + k);
    Window(b, at, r, 16 + k, 16 + k + |u.value|);
  }

  /** What the parser makes of four integers that it finds. */
  lemma {:induction false} ParseGives(b: seq<Byte>, at: nat, k: nat, n: nat, code: int, size: int, valueSize: int)
    requires at + 4 <= |b| && IntAt(b, at) == k && n == at + 4 + k && n + 12 + TypeSize(code) <= |b|
    requires IntAt(b, n) == code && IntAt(b, n + 4) == size && IntAt(b, n + 8) == valueSize
    ensures Parse(b, at)
            == Some(Parsed(Uniform(b[at + 4..n], size, ShapeOf(code), ValueAt(b, n + 12, code)), n + 12 + valueSize))
  {
  }

  /** The parser finds the fields of `u`, the value starting at `v`. */
  ghost predicate Finds(b: seq<Byte>, at: nat, u: ActiveUniform, n: nat, v: nat) {
    && n == at + 4 + |u.name| && v == n + 12 && v + |u.value| <= |b|
    && IntAt(b, at) == |u.name| && b[at + 4..n] == u.name
    && IntAt(b, n) == u.code && IntAt(b, n + 4) == u.size && IntAt(b, n + 8) == |u.value|
    && b[v..v + |u.value|] == u.value
  }

  lemma {:induction false} FieldsFound(b: seq<Byte>, at: nat, u: ActiveUniform, r: seq<Byte>, k: nat, n: nat)
    requires ValidUniform(u) && HasFields(r, u, k) && at + |r| <= |b| && b[at..at + |r|] == r
    requires n == at + 4 + k
    ensures Finds(b, at, u, n, n + 12) && n + 12 + |u.value| == at + |r|
  {
    FieldsAt(b, at, u, r, k, n);
  }

  lemma {:induction false} ValueIsExpected(b: seq<Byte>, at: nat, u: ActiveUniform)
    requires ValidUniform(u) && at + |u.value| <= |b| && b[at..at + |u.value|] == u.value
    ensures at + TypeSize(u.code) <= |b|
    ensures Uniform(u.name, u.size, ShapeOf(u.code), ValueAt(b, at, u.code)) == Expected(u)
  {
    FirstElementFits(u);
    ValueMoved(b, at, u.value, u.code);
  }

  lemma {:induction false} ParseFound(b: seq<Byte>, at: nat, u: ActiveUniform, n: nat, v: nat, next: nat)
    requires ValidUniform(u) && Finds(b, at, u, n, v) && next == v + |u.value|
    ensures Parse(b, at) == Some(Parsed(Expected(u), next))
  {
    ValueIsExpected(b, v, u);
    ParseGives(b, at, |u.name|, n, u.code, u.size, |u.value|);
  }

  lemma {:induction false} ParseFields(b: seq<Byte>, at: nat, u: ActiveUniform, r: seq<Byte>, k: nat, n: nat, next: nat)
    requires ValidUniform(u) && HasFields(r, u, k) && at + |r| <= |b| && b[at..at + |r|] == r
    requires n == at + 4 + k && next == at + |r|
    ensures Parse(b, at) == Some(Parsed(Expected(u), next))
  {
    FieldsFound(b, at, u, r, k, n);
    ParseFound(b, at, u, n, n + 12, next);
  }

  lemma {:induction false} ParseRecord(b: seq<Byte>, at: nat, u: ActiveUniform)
    requires ValidUniform(u) && at + |Record(u)| <= |b| && b[at..at + |Record(u)|] == Record(u)
    ensures Parse(b, at) == Some(Parsed(Expected(u), at + |Record(u)|))
  {
    RecordFields(u);
    ParseFields(b, at, u, Record(u), |u.name|, at + 4 + |u.name|, at + |Record(u)|);
  }

  datatype ParsedAll = ParsedAll(uniforms: seq<Uniform>, next: nat)

  /** The first `n` records of a stream. */
  function ParseAll(b: seq<Byte>, n: nat): Option<ParsedAll> {
    if n == 0 then Some(ParsedAll([], 0))
    else
      match ParseAll(b, n - 1)
      case None => None
      case Some(p) =>
        match Parse(b, p.next)
        case None => None
        case Some(q) => if q.next < 0 then None else Some(ParsedAll(p.uniforms + [q.uniform], q.next))
  }

  ghost predicate RecordAt(b: seq<Byte>, us: seq<Uniform>, ends: seq<nat>, i: nat) {
    i < |us| && |ends| == |us| + 1 && Parse(b, ends[i]) == Some(Parsed(us[i], ends[i + 1]))
  }

  /** The records `us` lie in the stream; record `i` ends where the next one begins. */
  ghost predicate Holds(b: seq<Byte>, us: seq<Uniform>, ends: seq<nat>) {
    && |ends| == |us| + 1 && ends[0] == 0
    && forall i :: 0 <= i < |us| ==> RecordAt(b, us, ends, i)
  }

  lemma {:induction false} ParsedHolds(b: seq<Byte>, n: nat) returns (ends: seq<nat>)
    requires ParseAll(b, n).Some?
    ensures |ParseAll(b, n).value.uniforms| == n && Holds(b, ParseAll(b, n).value.uniforms, ends)
    ensures ends[n] == ParseAll(b, n).value.next
  {
    if n == 0 {
      ends := [0];
    } else {
      var before := ParsedHolds(b, n - 1);
      var us := ParseAll(b, n - 1).value.uniforms;
      ends := before + [ParseAll(b, n).value.next];
      forall i | 0 <= i < n ensures RecordAt(b, ParseAll(b, n).value.uniforms, ends, i) {
        if i < n - 1 {
          assert RecordAt(b, us, before, i);
        }
      }
    }
  }

  ghost function ExpectedAll(us: seq<ActiveUniform>, n: nat): (r: seq<Uniform>)
    requires n <= |us| && AllValid(us)
    ensures |r| == n
  {
    if n == 0 then []
    else
      assert ValidUniform(us[n - 1]);
      ExpectedAll(us, n - 1) + [Expected(us[n - 1])]
  }

  lemma {:induction false} SerializedPrefix(us: seq<ActiveUniform>, n: nat, k: nat)
    requires n <= k <= |us| && AllValid(us)
    ensures Serialized(us, n) <= Serialized(us, k)
  {
    if n == k {
    } else {
      SerializedPrefix(us, n, k - 1);
    }
  }

  lemma {:induction false} RecordBehind(us: seq<ActiveUniform>, k: nat) returns (r: seq<Byte>)
    requires AllValid(us) && k < |us|
    ensures ValidUniform(us[k]) && HasFields(r, us[k], |us[k].name|)
    ensures Serialized(us, k) + r == Serialized(us, k + 1) <= Serialized(us, |us|)
  {
    assert ValidUniform(us[k]);
    SerializedPrefix(us, k + 1, |us|);
    RecordFields(us[k]);
    r := Record(us[k]);
  }

  lemma {:induction false} ParseBehind(before: seq<Byte>, r: seq<Byte>, after: seq<Byte>, all: seq<Byte>,
                                       tail: seq<Byte>, u: ActiveUniform)
    requires ValidUniform(u) && HasFields(r, u, |u.name|) && before + r == after <= all
    ensures Parse(all + tail, |before|) == Some(Parsed(Expected(u), |after|))
  {
    ParseFields(all + tail, |before|, u, r, |u.name|, |before| + 4 + |u.name|, |after|);
  }

  lemma {:induction false} NextRecord(us: seq<ActiveUniform>, tail: seq<Byte>, k: nat)
    requires AllValid(us) && k < |us|
    ensures ValidUniform(us[k])
    ensures Parse(Serialized(us, |us|) + tail, |Serialized(us, k)|)
            == Some(Parsed(Expected(us[k]), |Serialized(us, k + 1)|))
  {
    var r := RecordBehind(us, k);
    ParseBehind(Serialized(us, k), r, Serialized(us, k + 1), Serialized(us, |us|), tail, us[k]);
  }

  /** Parsing undoes serializing: every record is read at its own offset, and the parser stops right
      behind the last one. */
  lemma {:induction false} RoundTrip(us: seq<ActiveUniform>, tail: seq<Byte>, n: nat)
    requires AllValid(us) && n <= |us|
    ensures ParseAll(Serialized(us, |us|) + tail, n) == Some(ParsedAll(ExpectedAll(us, n), |Serialized(us, n)|))
  {
    if n == 0 {
    } else {
      RoundTrip(us, tail, n - 1);
      NextRecord(us, tail, n - 1);
    }
  }

  /** What was sent is what the stream holds. */
  lemma {:induction false} SentIsHeld(us: seq<ActiveUniform>, tail: seq<Byte>) returns (ends: seq<nat>)
    requires AllValid(us)
    ensures Holds(Serialized(us, |us|) + tail, ExpectedAll(us, |us|), ends)
    ensures ends[|us|] == |Serialized(us, |us|)|
  {
    RoundTrip(us, tail, |us|);
    ends := ParsedHolds(Serialized(us, |us|) + tail, |us|);
  }

  // ---------- The text of a value ----------

  /** Element `j` of the parsed value, as text; `show` prints one number. There are values only for
      the first array element. */
  function ElementText(u: Uniform, j: nat, show: seq<Byte> -> string): string {
    if j < |u.elements| then show(u.elements[j]) else "?"
  }

  /** Where a row of an array element begins. */
  function Position(u: Uniform, element: nat, row: nat): nat {
    Columns(u) * (element * Rows(u) + row)
  }

  function RowText(u: Uniform, element: nat, row: nat, n: nat, show: seq<Byte> -> string): string {
    if n == 0 then ""
    else
      RowText(u, element, row, n - 1, show) + (if n > 1 then ", " else "")
      + ElementText(u, Position(u, element, row) + (n - 1), show)
  }

  /** The rows of vectors and matrices stand in brackets. */
  predicate Grouped(u: Uniform) {
    u.shape.Some? && (u.shape.value.isMatrix || u.shape.value.isVector)
  }

  function RowsText(u: Uniform, element: nat, n: nat, show: seq<Byte> -> string): string {
    if n == 0 then ""
    else
      var row := RowText(u, element, n - 1, Columns(u), show);
      RowsText(u, element, n - 1, show) + (if n > 1 then ", " else "") + if Grouped(u) then "(" + row + ")" else row
  }

  function ArrayElementText(u: Uniform, element: nat, show: seq<Byte> -> string): string {
    var rows := RowsText(u, element, Rows(u), show);
    if element > u.arraySize then "?"
    else if u.shape.Some? && u.shape.value.isMatrix then "(" + rows + ")"
    else rows
  }

  function Text(u: Uniform, n: nat, show: seq<Byte> -> string): string {
    if n == 0 then "" else Text(u, n - 1, show) + (if n > 1 then ", " else "") + ArrayElementText(u, n - 1, show)
  }

  function ArraySize(u: Uniform): nat {
    if u.arraySize < 0 then 0 else u.arraySize
  }

  lemma {:induction false} Within(c: nat, row: nat, rows: nat)
    requires row < rows
    ensures c * row + c <= rows * c
  {
    var d := rows - row - 1;
    assert rows * c == row * c + c + d * c;
  }

  lemma {:induction false} TimesAtLeast(c: nat, rows: nat, x: nat)
    requires x >= rows
    ensures c * x >= rows * c
  {
    assert c * x == rows * c + (x - rows) * c;
  }

  /** The first array element is printed from the stream, the others are unknown. */
  lemma {:induction false} OnlyFirstElementKnown(u: Uniform, element: nat, row: nat, i: nat, show: seq<Byte> -> string)
    requires |u.elements| == Rows(u) * Columns(u) && row < Rows(u) && i < Columns(u)
    ensures element == 0 ==>
              Columns(u) * row + i < |u.elements|
              && ElementText(u, Position(u, element, row) + i, show) == show(u.elements[Columns(u) * row + i])
    ensures element > 0 ==> ElementText(u, Position(u, element, row) + i, show) == "?"
  {
    if element == 0 {
      Within(Columns(u), row, Rows(u));
    } else {
      TimesAtLeast(Columns(u), Rows(u), element * Rows(u) + row);
    }
  }

  // ---------- The layout of the text ----------

  /** Texts separated by commas. */
  function Joined(texts: seq<string>): string {
    if texts == [] then ""
    else if |texts| == 1 then texts[0]
    else Joined(texts[..|texts| - 1]) + ", " + texts[|texts| - 1]
  }

  lemma {:induction false} JoinedMore(texts: seq<string>, text: string)
    ensures Joined(texts + [text]) == Joined(texts) + (if texts != [] then ", " else "") + text
  {
    assert (texts + [text])[..|texts|] == texts;
  }

  /** The texts of `n` values from number `from` on. */
  function Cells(u: Uniform, from: nat, n: nat, show: seq<Byte> -> string): seq<string> {
    seq(n, k requires 0 <= k < n => ElementText(u, from + k, show))
  }

  lemma {:induction false} RowJoined(u: Uniform, element: nat, row: nat, n: nat, show: seq<Byte> -> string)
    ensures RowText(u, element, row, n, show) == Joined(Cells(u, Position(u, element, row), n, show))
  {
    if n == 0 {
    } else {
      var from := Position(u, element, row);
      RowJoined(u, element, row, n - 1, show);
      assert Cells(u, from, n, show) == Cells(u, from, n - 1, show) + [ElementText(u, from + (n - 1), show)];
      JoinedMore(Cells(u, from, n - 1, show), ElementText(u, from + (n - 1), show));
    }
  }

  lemma {:induction false} RowPosition(u: Uniform, element: nat, row: nat)
    ensures Position(u, element, row) == element * (Rows(u) * Columns(u)) + row * Columns(u)
  {
  }

  /** A row in brackets; row 0 begins at value `from`. */
  function RowInBrackets(u: Uniform, from: nat, row: nat, show: seq<Byte> -> string): string {
    "(" + Joined(Cells(u, from + row * Columns(u), Columns(u), show)) + ")"
  }

  function RowsInBrackets(u: Uniform, from: nat, n: nat, show: seq<Byte> -> string): seq<string> {
    seq(n, row requires 0 <= row < n => RowInBrackets(u, from, row, show))
  }

  lemma {:induction false} RowsMore(u: Uniform, from: nat, n: nat, show: seq<Byte> -> string)
    ensures RowsInBrackets(u, from, n + 1, show)
            == RowsInBrackets(u, from, n, show) + [RowInBrackets(u, from, n, show)]
  {
  }

  lemma {:induction false} OneRow(u: Uniform, element: nat, row: nat, show: seq<Byte> -> string)
    ensures "(" + RowText(u, element, row, Columns(u), show) + ")"
            == RowInBrackets(u, element * (Rows(u) * Columns(u)), row, show)
  {
    RowJoined(u, element, row, Columns(u), show);
    RowPosition(u, element, row);
  }

  lemma {:induction false} RowsJoined(u: Uniform, element: nat, n: nat, from: nat, show: seq<Byte> -> string)
    requires Grouped(u) && from == element * (Rows(u) * Columns(u))
    ensures RowsText(u, element, n, show) == Joined(RowsInBrackets(u, from, n, show))
  {
    if n == 0 {
    } else {
      RowsJoined(u, element, n - 1, from, show);
      OneRow(u, element, n - 1, show);
      RowsMore(u, from, n - 1, show);
      JoinedMore(RowsInBrackets(u, from, n - 1, show), RowInBrackets(u, from, n - 1, show));
    }
  }

  /** A scalar is printed as it is. */
  lemma {:induction false} ScalarLayout(u: Uniform, k: nat, show: seq<Byte> -> string)
    requires k < u.arraySize && u.shape.Some? && !u.shape.value.isVector && !u.shape.value.isMatrix
    requires u.shape.value.rows == u.shape.value.columns == 1
    ensures ArrayElementText(u, k, show) == ElementText(u, k, show)
  {
    RowJoined(u, k, 0, 1, show);
    assert Cells(u, k, 1, show) == [ElementText(u, k, show)];
    assert RowsText(u, k, 0, show) == "";
  }

  lemma {:induction false} FirstRow(u: Uniform, element: nat, show: seq<Byte> -> string)
    requires Grouped(u)
    ensures RowsText(u, element, 1, show) == "(" + RowText(u, element, 0, Columns(u), show) + ")"
  {
    assert RowsText(u, element, 0, show) == "";
  }

  lemma {:induction false} OnlyRowBegins(u: Uniform, element: nat)
    requires Rows(u) == 1
    ensures Position(u, element, 0) == element * Columns(u)
  {
  }

  lemma {:induction false} OnlyRow(u: Uniform, element: nat, from: nat, n: nat, show: seq<Byte> -> string)
    requires Rows(u) == 1 && from == element * Columns(u)
    ensures RowText(u, element, 0, n, show) == Joined(Cells(u, from, n, show))
  {
    OnlyRowBegins(u, element);
    RowJoined(u, element, 0, n, show);
  }

  /** A vector is printed as a list in brackets. */
  lemma {:induction false} VectorLayout(u: Uniform, k: nat, from: nat, show: seq<Byte> -> string)
    requires k < u.arraySize && u.shape.Some? && u.shape.value.isVector && !u.shape.value.isMatrix
    requires u.shape.value.rows == 1 && from == k * u.shape.value.columns
    ensures ArrayElementText(u, k, show) == "(" + Joined(Cells(u, from, u.shape.value.columns, show)) + ")"
  {
    FirstRow(u, k, show);
    OnlyRow(u, k, from, Columns(u), show);
  }

  /** A matrix is printed as a list in brackets of its rows, which are lists in brackets. */
  lemma {:induction false} MatrixLayout(u: Uniform, k: nat, from: nat, show: seq<Byte> -> string)
    requires k < u.arraySize && u.shape.Some? && u.shape.value.isMatrix
    requires from == k * (u.shape.value.rows * u.shape.value.columns)
    ensures ArrayElementText(u, k, show) == "(" + Joined(RowsInBrackets(u, from, u.shape.value.rows, show)) + ")"
  {
    RowsJoined(u, k, u.shape.value.rows, from, show);
  }

  /** A value of an unknown type has no text. */
  lemma {:induction false} UnknownLayout(u: Uniform, k: nat, show: seq<Byte> -> string)
    requires k < u.arraySize && u.shape.None?
    ensures ArrayElementText(u, k, show) == ""
  {
  }

  function ElementTexts(u: Uniform, n: nat, show: seq<Byte> -> string): seq<string> {
    seq(n, k requires 0 <= k < n => ArrayElementText(u, k, show))
  }

  lemma {:induction false} ElementTextsMore(u: Uniform, n: nat, show: seq<Byte> -> string)
    ensures ElementTexts(u, n + 1, show) == ElementTexts(u, n, show) + [ArrayElementText(u, n, show)]
  {
  }

  /** The array elements are separated by commas. */
  lemma {:induction false} TextJoined(u: Uniform, n: nat, show: seq<Byte> -> string)
    ensures Text(u, n, show) == Joined(ElementTexts(u, n, show))
  {
    if n == 0 {
    } else {
      TextJoined(u, n - 1, show);
      ElementTextsMore(u, n - 1, show);
      JoinedMore(ElementTexts(u, n - 1, show), ArrayElementText(u, n - 1, show));
    }
  }

  // ---------- Reading the text back ----------

  /** The words of a text: its longest pieces without brackets, commas and blanks. */
  datatype Words = Words(finished: seq<string>, word: string)

  predicate IsMark(c: char) {
    c in {'(', ')', ',', ' '}
  }

  function Flush(w: Words): seq<string> {
    if w.word == "" then w.finished else w.finished + [w.word]
  }

  function Scan(text: string): Words {
    if text == "" then Words([], "")
    else
      var w, c := Scan(text[..|text| - 1]), text[|text| - 1];
      if IsMark(c) then Words(Flush(w), "") else Words(w.finished, w.word + [c])
  }

  function WordsOf(text: string): seq<string> {
    Flush(Scan(text))
  }

  predicate IsWord(text: string) {
    text != "" && forall i :: 0 <= i < |text| ==> !IsMark(text[i])
  }

  lemma {:induction false} ScanNext(text: string, c: char)
    ensures Scan(text + [c])
            == if IsMark(c) then Words(Flush(Scan(text)), "") else Words(Scan(text).finished, Scan(text).word + [c])
  {
    assert (text + [c])[..|text|] == text;
  }

  lemma {:induction false} ScanWord(text: string)
    requires forall i :: 0 <= i < |text| ==> !IsMark(text[i])
    ensures Scan(text) == Words([], text)
  {
    if text == "" {
    } else {
      var front, c := text[..|text| - 1], text[|text| - 1];
      ScanWord(front);
      ScanNext(front, c);
      assert text == front + [c];
    }
  }

  lemma {:induction false} ScanBehindMark(a: string, mark: char, b: string)
    requires IsMark(mark)
    ensures Scan(a + [mark] + b) == Words(WordsOf(a) + Scan(b).finished, Scan(b).word)
  {
    if b == "" {
      ScanNext(a, mark);
      assert a + [mark] + b == a + [mark];
    } else {
      var front, c := b[..|b| - 1], b[|b| - 1];
      ScanBehindMark(a, mark, front);
      ScanNext(a + [mark] + front, c);
      ScanNext(front, c);
      assert b == front + [c] && a + [mark] + b == a + [mark] + front + [c];
    }
  }

  /** A mark separates words. */
  lemma {:induction false} WordsAtMark(a: string, mark: char, b: string)
    requires IsMark(mark)
    ensures WordsOf(a + [mark] + b) == WordsOf(a) + WordsOf(b)
  {
    ScanBehindMark(a, mark, b);
  }

  lemma {:induction false} WordsJoined(a: string, b: string)
    ensures WordsOf(a + ", " + b) == WordsOf(a) + WordsOf(b)
  {
    WordsAtMark(a, ',', "");
    WordsAtMark(a + ",", ' ', b);
    assert a + [','] + "" == a + "," && a + ", " + b == a + "," + [' '] + b;
  }

  lemma {:induction false} WordsInBrackets(a: string)
    ensures WordsOf("(" + a + ")") == WordsOf(a)
  {
    WordsAtMark("", '(', a);
    WordsAtMark("(" + a, ')', "");
    assert "" + ['('] + a == "(" + a && "(" + a + [')'] + "" == "(" + a + ")";
  }

  lemma {:induction false} CellsJoined(u: Uniform, from: nat, n: nat, at: nat, k: nat, show: seq<Byte> -> string)
    requires at == from + n
    ensures Cells(u, from, n, show) + Cells(u, at, k, show) == Cells(u, from, n + k, show)
  {
  }

  /** Every number is printed as one word. */
  ghost predicate PrintsWords(u: Uniform, show: seq<Byte> -> string) {
    forall x :: x in u.elements ==> IsWord(show(x))
  }

  lemma {:induction false} OneCell(u: Uniform, j: nat, show: seq<Byte> -> string)
    ensures Cells(u, j, 1, show) == [ElementText(u, j, show)]
  {
  }

  lemma {:induction false} CellWord(u: Uniform, j: nat, show: seq<Byte> -> string)
    requires PrintsWords(u, show)
    ensures WordsOf(ElementText(u, j, show)) == [ElementText(u, j, show)] == Cells(u, j, 1, show)
  {
    var text := ElementText(u, j, show);
    OneCell(u, j, show);
    ScanWord(text);
  }

  /** Behind the text `before` comes another part, in brackets or not. */
  lemma {:induction false} OneMore(before: string, part: string, more: bool, grouped: bool)
    requires !more ==> before == ""
    ensures WordsOf(before + (if more then ", " else "") + if grouped then "(" + part + ")" else part)
            == WordsOf(before) + WordsOf(part)
  {
    var shown := if grouped then "(" + part + ")" else part;
    WordsInBrackets(part);
    if more {
      WordsJoined(before, shown);
    } else {
      assert before + "" + shown == shown;
    }
  }

  lemma {:induction false} RowWords(u: Uniform, element: nat, row: nat, n: nat, show: seq<Byte> -> string)
    requires PrintsWords(u, show)
    ensures WordsOf(RowText(u, element, row, n, show)) == Cells(u, Position(u, element, row), n, show)
  {
    if n == 0 {
    } else {
      var at, before := Position(u, element, row), RowText(u, element, row, n - 1, show);
      var j := at + (n - 1);
      RowWords(u, element, row, n - 1, show);
      CellWord(u, j, show);
      CellsJoined(u, at, n - 1, j, 1, show);
      OneMore(before, ElementText(u, j, show), n > 1, false);
    }
  }

  lemma {:induction false} NextRow(u: Uniform, element: nat, row: nat)
    ensures Position(u, element, row + 1) == Position(u, element, row) + Columns(u)
  {
  }

  lemma {:induction false} RowsForward(u: Uniform, element: nat, row: nat)
    ensures Position(u, element, 0) <= Position(u, element, row)
  {
    if row == 0 {
    } else {
      RowsForward(u, element, row - 1);
      NextRow(u, element, row - 1);
    }
  }

  /** A further row behind the values from `first` to `at`. */
  lemma {:induction false} RowBehind(u: Uniform, before: string, row: string, first: nat, at: nat, n: nat, more: bool,
                                     show: seq<Byte> -> string)
    requires first <= at && WordsOf(before) == Cells(u, first, at - first, show)
    requires WordsOf(row) == Cells(u, at, n, show) && (!more ==> before == "")
    ensures WordsOf(before + (if more then ", " else "") + if Grouped(u) then "(" + row + ")" else row)
            == Cells(u, first, at + n - first, show)
  {
    CellsJoined(u, first, at - first, at, n, show);
    OneMore(before, row, more, Grouped(u));
  }

  lemma {:induction false} RowsWords(u: Uniform, element: nat, n: nat, show: seq<Byte> -> string)
    requires PrintsWords(u, show)
    ensures Position(u, element, 0) <= Position(u, element, n)
    ensures WordsOf(RowsText(u, element, n, show))
            == Cells(u, Position(u, element, 0), Position(u, element, n) - Position(u, element, 0), show)
  {
    RowsForward(u, element, n);
    if n == 0 {
    } else {
      var first, at := Position(u, element, 0), Position(u, element, n - 1);
      var row, before := RowText(u, element, n - 1, Columns(u), show), RowsText(u, element, n - 1, show);
      RowsWords(u, element, n - 1, show);
      RowWords(u, element, n - 1, Columns(u), show);
      NextRow(u, element, n - 1);
      RowBehind(u, before, row, first, at, Columns(u), n > 1, show);
    }
  }

  function PerElement(u: Uniform): nat {
    Rows(u) * Columns(u)
  }

  /** The number of values of the first `n` array elements. */
  function ValuesOf(u: Uniform, n: nat): nat {
    if n == 0 then 0 else ValuesOf(u, n - 1) + PerElement(u)
  }

  lemma {:induction false} ElementBegins(u: Uniform, n: nat)
    ensures Position(u, n, 0) == ValuesOf(u, n)
  {
    if n == 0 {
    } else {
      ElementBegins(u, n - 1);
      assert Position(u, n, 0) == Position(u, n - 1, 0) + Rows(u) * Columns(u);
    }
  }

  lemma {:induction false} ElementEnds(u: Uniform, n: nat)
    ensures Position(u, n, Rows(u)) == ValuesOf(u, n) + PerElement(u)
  {
    ElementBegins(u, n + 1);
    assert Position(u, n, Rows(u)) == Position(u, n + 1, 0);
  }

  lemma {:induction false} ArrayElementWords(u: Uniform, element: nat, show: seq<Byte> -> string)
    requires PrintsWords(u, show) && element <= u.arraySize
    ensures WordsOf(ArrayElementText(u, element, show)) == Cells(u, ValuesOf(u, element), PerElement(u), show)
  {
    RowsWords(u, element, Rows(u), show);
    ElementBegins(u, element);
    ElementEnds(u, element);
    WordsInBrackets(RowsText(u, element, Rows(u), show));
  }

  /** The words of the printed text are the values in the order in which they are stored: those of
      the first array element as `show` prints them, and one question mark for every other value. */
  lemma {:induction false} WordsOfText(u: Uniform, n: nat, show: seq<Byte> -> string)
    requires PrintsWords(u, show) && n <= ArraySize(u)
    ensures WordsOf(Text(u, n, show)) == Cells(u, 0, ValuesOf(u, n), show)
  {
    if n == 0 {
    } else {
      var at, part, before := ValuesOf(u, n - 1), ArrayElementText(u, n - 1, show), Text(u, n - 1, show);
      WordsOfText(u, n - 1, show);
      ArrayElementWords(u, n - 1, show);
      CellsJoined(u, 0, at, at, PerElement(u), show);
      OneMore(before, part, n > 1, false);
    }
  }

  /** Provided that numbers are printed as words, the words of the text are all the values. */
  ghost predicate Spells(text: string, u: Uniform, show: seq<Byte> -> string) {
    PrintsWords(u, show) ==> WordsOf(text) == Cells(u, 0, ValuesOf(u, ArraySize(u)), show)
  }

  lemma {:induction false} TextSpells(u: Uniform, show: seq<Byte> -> string, text: string)
    ensures text == Text(u, ArraySize(u), show) ==> Spells(text, u, show)
  {
    if PrintsWords(u, show) {
      WordsOfText(u, ArraySize(u), show);
    }
  }

  // ---------- Printing ----------

  method RowToString(u: Uniform, element: nat, row: nat, show: seq<Byte> -> string) returns (text: string)
    ensures text == RowText(u, element, row, Columns(u), show)
  {
    var from := Position(u, element, row);
    text := "";
    var i := 0;
    while i < Columns(u)
      invariant 0 <= i <= Columns(u) && text == RowText(u, element, row, i, show)
    {
      if i != 0 {
        text := text + ", ";
      }
      text := text + ElementText(u, from + i, show);
      i := i + 1;
    }
  }

  method ArrayElementToString(u: Uniform, element: nat, show: seq<Byte> -> string) returns (text: string)
    ensures text == ArrayElementText(u, element, show)
  {
    if element > u.arraySize {
      return "?";
    }
    var isMatrix := u.shape.Some? && u.shape.value.isMatrix;
    var isVector := u.shape.Some? && u.shape.value.isVector;
    var rows := "";
    var j := 0;
    while j < Rows(u)
      invariant 0 <= j <= Rows(u) && rows == RowsText(u, element, j, show)
    {
      var row := RowToString(u, element, j, show);
      if j != 0 {
        rows := rows + ", ";
      }
      rows := rows + if isMatrix || isVector then "(" + row + ")" else row;
      j := j + 1;
    }
    text := if isMatrix then "(" + rows + ")" else rows;
  }

  /** The printing loops. */
  method ToString(u: Uniform, show: seq<Byte> -> string) returns (text: string)
    ensures text == Text(u, ArraySize(u), show)
    ensures Spells(text, u, show)
  {
    text := "";
    var k := 0;
    while k < u.arraySize
      invariant 0 <= k <= ArraySize(u) && text == Text(u, k, show)
    {
      if k > 0 {
        text := text + ", ";
      }
      var element := ArrayElementToString(u, k, show);
      text := text + element;
      k := k + 1;
    }
    TextSpells(u, show, text);
  }

  // ---------- Writing the stream ----------

  method Put(buf: array<Byte>, p: nat, s: seq<Byte>) returns (next: nat)
    requires p + |s| <= buf.Length
    modifies buf
    ensures next == p + |s| && buf[..next] == old(buf[..p]) + s
  {
    var i := 0;
    while i < |s|
      invariant 0 <= i <= |s| && buf[..p + i] == old(buf[..p]) + s[..i]
    {
      buf[p + i] := s[i];
      i := i + 1;
    }
    next := p + |s|;
  }

  method PutRecord(buf: array<Byte>, p: nat, u: ActiveUniform) returns (next: nat)
    requires ValidUniform(u) && p + |Record(u)| <= buf.Length
    modifies buf
    ensures next == p + |Record(u)| && buf[..next] == old(buf[..p]) + Record(u)
  {
    next := Put(buf, p, IntBytes(|u.name|));
    next := Put(buf, next, u.name);
    next := Put(buf, next, IntBytes(u.code));
    next := Put(buf, next, IntBytes(u.size));
    next := Put(buf, next, IntBytes(u.size * ShaderTypeSize(u.code)));
    next := Put(buf, next, u.value);
  }

  method MeasureUniforms(us: seq<ActiveUniform>) returns (size: nat)
    requires AllValid(us)
    ensures size == |Serialized(us, |us|)|
  {
    var i := 0;
    size := 0;
    while i < |us|
      invariant 0 <= i <= |us| && size == |Serialized(us, i)|
    {
      assert ValidUniform(us[i]);
      size := size + 4 + |us[i].name| + 4 + 4 + 4 + us[i].size * ShaderTypeSize(us[i].code);
      i := i + 1;
    }
  }

  /** The debuggee measures the stream first and then writes it. */
  method SerializeUniforms(us: seq<ActiveUniform>) returns (buf: array<Byte>)
    requires AllValid(us)
    ensures buf[..] == Serialized(us, |us|)
  {
    var size := MeasureUniforms(us);
    buf := new Byte[size];
    var p, i := 0, 0;
    while i < |us|
      invariant 0 <= i <= |us| && p == |Serialized(us, i)| <= buf.Length == |Serialized(us, |us|)|
      invariant buf[..p] == Serialized(us, i)
    {
      assert ValidUniform(us[i]);
      SerializedPrefix(us, i + 1, |us|);
      p := PutRecord(buf, p, us[i]);
      i := i + 1;
    }
    assert buf[..] == buf[..p];
  }
}
