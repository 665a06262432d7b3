/**
 The archive codec: one description of a type drives both directions. Types are a
 universe of field types, values the trees they describe.

 Main results: `DecodeEncoded` and `EncodeDecoded` (each direction undoes the other)
 and `VectorReadBack` (exactly when a vector is read back).
 */
module Archive {
  import opened Bytes
  import opened Optional

  // A double is its 64-bit pattern, a strong type its underlying one.
  datatype Type =
    | Bool
    | Enum(width: nat, max: nat)
    | Uint(width: nat)
    | Int32
    | Int64
    | Text
    | Maybe(item: Type)
    | Pair(first: Type, second: Type)
    | Vector(item: Type)
    | Variant(cases: Types)
    | Struct(fields: Types)

  datatype Types = TNil | TCons(head: Type, tail: Types)

  datatype Value =
    | Nat(n: nat)
    | Int(i: int)
    | Str(s: bytes)
    | Absent
    | Present(item: Value)
    | Two(first: Value, second: Value)
    | Many(items: Values)
    | Case(index: nat, item: Value)
    | Fields(items: Values)

  datatype Values = VNil | VCons(head: Value, tail: Values)

  datatype Limits = Limits(maxString: nat, maxItems: nat, maxTotal: nat)

  predicate ValidLimits(limits: Limits) { limits.maxString < U32 && limits.maxItems < U32 && limits.maxTotal < U32 }

  function Length(ts: Types): nat { match ts case TNil => 0 case TCons(_, tail) => 1 + Length(tail) }

  function At(ts: Types, i: nat): Type
    requires i < Length(ts)
  {
    if i == 0 then ts.head else At(ts.tail, i - 1)
  }

  function Count(vs: Values): nat { match vs case VNil => 0 case VCons(_, tail) => 1 + Count(tail) }

  predicate IsWidth(w: nat) { w == 1 || w == 2 || w == 4 || w == 8 }

  predicate ValidType(t: Type) {
    match t
    case Enum(width, max) => IsWidth(width) && max < Pow256(width)
    case Uint(width) => IsWidth(width)
    case Maybe(item) => ValidType(item)
    case Pair(first, second) => ValidType(first) && ValidType(second)
    case Vector(item) => ValidType(item)
    case Variant(cases) => Length(cases) <= 256 && ValidTypes(cases)
    case Struct(fields) => ValidTypes(fields)
    case _ => true
  }

  predicate ValidTypes(ts: Types) {
    match ts
    case TNil => true
    case TCons(head, tail) => ValidType(head) && ValidTypes(tail)
  }

  lemma {:induction false} ValidAt(ts: Types, i: nat)
    requires ValidTypes(ts) && i < Length(ts)
    ensures ValidType(At(ts, i)) && At(ts, i) < ts
  {
    if i > 0 {
      ValidAt(ts.tail, i - 1);
    }
  }

  const I64_SPAN := U64 / 2

  /** Values of a type, as the language guarantees them. */
  predicate HasType(t: Type, v: Value)
    decreases t, 0, v
  {
    match t
    case Bool => v.Nat? && v.n <= 1
    case Enum(width, _) => v.Nat? && v.n < Pow256(width)
    case Uint(width) => v.Nat? && v.n < Pow256(width)
    case Int32 => v.Int? && -0x8000_0000 <= v.i < 0x8000_0000
    case Int64 => v.Int? && -I64_SPAN <= v.i < I64_SPAN
    case Text => v.Str?
    case Maybe(item) => v == Absent || (v.Present? && HasType(item, v.item))
    case Pair(first, second) => v.Two? && HasType(first, v.first) && HasType(second, v.second)
    case Vector(item) => v.Many? && EachHasType(item, v.items)
    case Variant(cases) => v.Case? && v.index < Length(cases) && CaseHasType(cases, v.index, v.item)
    case Struct(fields) => v.Fields? && AllHaveType(fields, v.items)
  }

  predicate EachHasType(t: Type, vs: Values)
    decreases t, 1, vs
  {
    match vs
    case VNil => true
    case VCons(head, tail) => HasType(t, head) && EachHasType(t, tail)
  }

  predicate AllHaveType(ts: Types, vs: Values)
    decreases ts, 0, vs
  {
    match ts
    case TNil => vs == VNil
    case TCons(t, rest) => vs.VCons? && HasType(t, vs.head) && AllHaveType(rest, vs.tail)
  }

  predicate CaseHasType(ts: Types, i: nat, v: Value)
    requires i < Length(ts)
    decreases ts, 0, v
  {
    if i == 0 then HasType(ts.head, v) else CaseHasType(ts.tail, i - 1, v)
  }

  /** Values that respect every limit and the declared range of every enum. */
  predicate Within(limits: Limits, t: Type, v: Value)
    requires HasType(t, v)
    decreases t, 0, v
  {
    match t
    case Enum(_, max) => v.n <= max
    case Text => |v.s| <= limits.maxString && |v.s| <= limits.maxTotal
    case Maybe(item) => v.Present? ==> Within(limits, item, v.item)
    case Pair(first, second) => Within(limits, first, v.first) && Within(limits, second, v.second)
    case Vector(item) => Count(v.items) <= limits.maxItems && EachWithin(limits, item, v.items)
    case Variant(cases) => CaseWithin(limits, cases, v.index, v.item)
    case Struct(fields) => AllWithin(limits, fields, v.items)
    case _ => true
  }

  predicate EachWithin(limits: Limits, t: Type, vs: Values)
    requires EachHasType(t, vs)
    decreases t, 1, vs
  {
    match vs
    case VNil => true
    case VCons(head, tail) => Within(limits, t, head) && EachWithin(limits, t, tail)
  }

  predicate AllWithin(limits: Limits, ts: Types, vs: Values)
    requires AllHaveType(ts, vs)
    decreases ts, 0, vs
  {
    match ts
    case TNil => true
    case TCons(t, rest) => Within(limits, t, vs.head) && AllWithin(limits, rest, vs.tail)
  }

  predicate CaseWithin(limits: Limits, ts: Types, i: nat, v: Value)
    requires i < Length(ts) && CaseHasType(ts, i, v)
    decreases ts, 0, v
  {
    if i == 0 then Within(limits, ts.head, v) else CaseWithin(limits, ts.tail, i - 1, v)
  }

  // --------------------------------------------------------------- wire format

  function TwosComplement(i: int): nat
    requires -I64_SPAN <= i < I64_SPAN
  {
    if i < 0 then i + U64 else i
  }

  function FromTwosComplement(n: nat): (i: int)
    requires n < U64
    ensures -I64_SPAN <= i < I64_SPAN && TwosComplement(i) == n
  {
    if n >= I64_SPAN then n - U64 else n
  }

  /** The bytes of a value: what the encoder is to write and the decoder to read. */
  function Wire(t: Type, v: Value): bytes
    requires HasType(t, v)
    decreases t, 0, v
  {
    match t
    case Bool => LittleEndian(v.n, 1)
    case Enum(width, _) => LittleEndian(v.n, width)
    case Uint(width) => LittleEndian(v.n, width)
    case Int32 => LittleEndian(TwosComplement(v.i), 8)
    case Int64 => LittleEndian(TwosComplement(v.i), 8)
    case Text => LittleEndian(|v.s|, 4) + v.s
    case Maybe(item) => if v == Absent then LittleEndian(0, 1) else LittleEndian(1, 1) + Wire(item, v.item)
    case Pair(first, second) => Wire(first, v.first) + Wire(second, v.second)
    case Vector(item) => LittleEndian(Count(v.items), 4) + WireEach(item, v.items)
    case Variant(cases) => LittleEndian(v.index, 1) + WireCase(cases, v.index, v.item)
    case Struct(fields) => WireAll(fields, v.items)
  }

  function WireEach(t: Type, vs: Values): bytes
    requires EachHasType(t, vs)
    decreases t, 1, vs
  {
    match vs
    case VNil => []
    case VCons(head, tail) => Wire(t, head) + WireEach(t, tail)
  }

  function WireAll(ts: Types, vs: Values): bytes
    requires AllHaveType(ts, vs)
    decreases ts, 0, vs
  {
    match ts
    case TNil => []
    case TCons(t, rest) => Wire(t, vs.head) + WireAll(rest, vs.tail)
  }

  function WireCase(ts: Types, i: nat, v: Value): bytes
    requires i < Length(ts) && CaseHasType(ts, i, v)
    decreases ts, 0, v
  {
    if i == 0 then Wire(ts.head, v) else WireCase(ts.tail, i - 1, v)
  }

  // ------------------------------------------------------------------ decoding

  // What is left of the input, and whether everything read so far was sound.
  datatype Input = Input(rest: bytes, ok: bool)

  function Fail(r: Input): Input { r.(ok := false) }

  /** Single bytes are refused after a failure, wider integers are not. */
  function GetUint(r: Input, width: nat): (Input, Option<nat>) {
    if width == 1 && !r.ok then (r, None)
    else if |r.rest| < width then (Fail(r), None)
    else (r.(rest := r.rest[width..]), Some(FromLittleEndian(r.rest[..width])))
  }

  function GetText(limits: Limits, r: Input): (Input, Option<bytes>) {
    var (r1, length) := GetUint(r, 4);
    if length.None? then (r1, None)
    else if length.value > limits.maxString then (Fail(r1), None)
    else if !r1.ok then (r1, None)
    else if length.value > limits.maxTotal || length.value > |r1.rest| then (Fail(r1), None)
    else (r1.(rest := r1.rest[length.value..]), Some(r1.rest[..length.value]))
  }

  function GetBounded(r: Input, width: nat, max: nat): (Input, Option<Value>) {
    var (r1, n) := GetUint(r, width);
    if n.None? then (r1, None)
    else if n.value > max then (Fail(r1), None)
    else (r1, Some(Nat(n.value)))
  }

  function GetInt(r: Input, low: int, high: int): (Input, Option<Value>) {
    var (r1, n) := GetUint(r, 8);
    if n.None? || n.value >= U64 then (r1, None)
    else
      var i := FromTwosComplement(n.value);
      if i < low || i >= high then (Fail(r1), None) else (r1, Some(Int(i)))
  }

  /** One field. The value counts only if the input is still sound at the end. */
  function Get(limits: Limits, r: Input, t: Type): (Input, Option<Value>)
    decreases t, 0
  {
    match t
    case Bool => GetBounded(r, 1, 1)
    case Enum(width, max) => GetBounded(r, width, max)
    case Uint(width) =>
      var (r1, n) := GetUint(r, width);
      (r1, if n.Some? then Some(Nat(n.value)) else None)
    case Int32 => GetInt(r, -0x8000_0000, 0x8000_0000)
    case Int64 => GetInt(r, -I64_SPAN, I64_SPAN)
    case Text =>
      var (r1, s) := GetText(limits, r);
      (r1, if s.Some? then Some(Str(s.value)) else None)
    case Maybe(item) =>
      var (r1, flag) := GetUint(r, 1);
      if flag.None? then (r1, None)
      else if flag.value == 0 then (r1, Some(Absent))
      else if flag.value > 1 then (Fail(r1), None)
      else
        var (r2, v) := Get(limits, r1, item);
        (r2, if v.Some? then Some(Present(v.value)) else None)
    case Pair(first, second) =>
      var (r1, a) := Get(limits, r, first);
      var (r2, b) := Get(limits, r1, second);
      (r2, if a.Some? && b.Some? then Some(Two(a.value, b.value)) else None)
    case Vector(item) =>
      var (r1, count) := GetUint(r, 4);
      if count.None? then (r1, None)
      else if count.value > limits.maxItems || count.value > |r1.rest| then (Fail(r1), None)
      else
        var (r2, vs) := GetEach(limits, r1, item, count.value);
        (r2, if vs.Some? then Some(Many(vs.value)) else None)
    case Variant(cases) =>
      var (r1, index) := GetUint(r, 1);
      if index.None? then (r1, None)
      else if index.value >= Length(cases) then (Fail(r1), None)
      else
        var (r2, v) := GetCase(limits, r1, cases, index.value);
        (r2, if v.Some? then Some(Case(index.value, v.value)) else None)
    case Struct(fields) =>
      var (r1, vs) := GetAll(limits, r, fields);
      (r1, if vs.Some? then Some(Fields(vs.value)) else None)
  }

  /** A vector stops at the first element that fails. */
  function GetEach(limits: Limits, r: Input, t: Type, n: nat): (Input, Option<Values>)
    decreases t, 1, n
  {
    if n == 0 then (r, Some(VNil))
    else
      var (r1, head) := Get(limits, r, t);
      if !r1.ok then (r1, None)
      else
        var (r2, tail) := GetEach(limits, r1, t, n - 1);
        (r2, if head.Some? && tail.Some? then Some(VCons(head.value, tail.value)) else None)
  }

  /** The fields of a struct are all visited, failure or not. */
  function GetAll(limits: Limits, r: Input, ts: Types): (Input, Option<Values>)
    decreases ts, 0
  {
    match ts
    case TNil => (r, Some(VNil))
    case TCons(t, rest) =>
      var (r1, head) := Get(limits, r, t);
      var (r2, tail) := GetAll(limits, r1, rest);
      (r2, if head.Some? && tail.Some? then Some(VCons(head.value, tail.value)) else None)
  }

  function GetCase(limits: Limits, r: Input, ts: Types, i: nat): (Input, Option<Value>)
    requires i < Length(ts)
    decreases ts, 0
  {
    if i == 0 then Get(limits, r, ts.head) else GetCase(limits, r, ts.tail, i - 1)
  }

  // ------------------------------------------------------------------- encoding

  datatype Output = Output(buffer: bytes, ok: bool)

  /** Bytes under the total limit. */
  function PutRaw(limits: Limits, w: Output, s: bytes): Output {
    if !w.ok then w
    else if |w.buffer| + |s| > limits.maxTotal then w.(ok := false)
    else w.(buffer := w.buffer + s)
  }

  /** Single bytes count against the limit, wider integers do not. */
  function PutUint(limits: Limits, w: Output, n: nat, width: nat): Output {
    if width == 1 then PutRaw(limits, w, LittleEndian(n, 1)) else w.(buffer := w.buffer + LittleEndian(n, width))
  }

  function PutText(limits: Limits, w: Output, s: bytes): Output {
    if !w.ok then w
    else if |s| > limits.maxString || |s| > limits.maxTotal || |s| >= U32 then w.(ok := false)
    else PutRaw(limits, PutUint(limits, w, |s|, 4), s)
  }

  function Put(limits: Limits, w: Output, t: Type, v: Value): Output
    requires HasType(t, v)
    decreases t, 0, v
  {
    match t
    case Bool => PutUint(limits, w, v.n, 1)
    case Enum(width, _) => PutUint(limits, w, v.n, width)
    case Uint(width) => PutUint(limits, w, v.n, width)
    case Int32 => PutUint(limits, w, TwosComplement(v.i), 8)
    case Int64 => PutUint(limits, w, TwosComplement(v.i), 8)
    case Text => PutText(limits, w, v.s)
    case Maybe(item) =>
      if v == Absent then PutUint(limits, w, 0, 1) else Put(limits, PutUint(limits, w, 1, 1), item, v.item)
    case Pair(first, second) => Put(limits, Put(limits, w, first, v.first), second, v.second)
    case Vector(item) =>
      if Count(v.items) > limits.maxItems then w.(ok := false)
      else PutEach(limits, PutUint(limits, w, Count(v.items), 4), item, v.items)
    case Variant(cases) => PutCase(limits, PutUint(limits, w, v.index, 1), cases, v.index, v.item)
    case Struct(fields) => PutAll(limits, w, fields, v.items)
  }

  function PutEach(limits: Limits, w: Output, t: Type, vs: Values): Output
    requires EachHasType(t, vs)
    decreases t, 1, vs
  {
    match vs
    case VNil => w
    case VCons(head, tail) => PutEach(limits, Put(limits, w, t, head), t, tail)
  }

  function PutAll(limits: Limits, w: Output, ts: Types, vs: Values): Output
    requires AllHaveType(ts, vs)
    decreases ts, 0, vs
  {
    match ts
    case TNil => w
    case TCons(t, rest) => PutAll(limits, Put(limits, w, t, vs.head), rest, vs.tail)
  }

  function PutCase(limits: Limits, w: Output, ts: Types, i: nat, v: Value): Output
    requires i < Length(ts) && CaseHasType(ts, i, v)
    decreases ts, 0, v
  {
    if i == 0 then Put(limits, w, ts.head, v) else PutCase(limits, w, ts.tail, i - 1, v)
  }

  // ------------------------------------------------------- the encoder writes the wire format

  lemma PutUintExact(limits: Limits, w: Output, n: nat, width: nat)
    requires w.ok && |w.buffer| + width <= limits.maxTotal
    ensures PutUint(limits, w, n, width) == Output(w.buffer + LittleEndian(n, width), true)
  {
  }

  lemma {:induction false} PutExact(limits: Limits, w: Output, t: Type, v: Value)
    requires ValidLimits(limits) && HasType(t, v) && Within(limits, t, v)
    requires w.ok && |w.buffer| + |Wire(t, v)| <= limits.maxTotal
    ensures Put(limits, w, t, v) == Output(w.buffer + Wire(t, v), true)
    decreases t, 0, v
  {
    match t
    case Maybe(item) =>
      if v.Present? {
        PutUintExact(limits, w, 1, 1);
        PutExact(limits, PutUint(limits, w, 1, 1), item, v.item);
      }
    case Pair(first, second) =>
      PutExact(limits, w, first, v.first);
      PutExact(limits, Put(limits, w, first, v.first), second, v.second);
      Assoc(w.buffer, Wire(first, v.first), Wire(second, v.second));
    case Vector(item) =>
      PutUintExact(limits, w, Count(v.items), 4);
      PutEachExact(limits, PutUint(limits, w, Count(v.items), 4), item, v.items);
    case Variant(cases) =>
      PutUintExact(limits, w, v.index, 1);
      PutCaseExact(limits, PutUint(limits, w, v.index, 1), cases, v.index, v.item);
    case Struct(fields) => PutAllExact(limits, w, fields, v.items);
    case _ =>
  }

  lemma {:induction false} PutEachExact(limits: Limits, w: Output, t: Type, vs: Values)
    requires ValidLimits(limits) && EachHasType(t, vs) && EachWithin(limits, t, vs)
    requires w.ok && |w.buffer| + |WireEach(t, vs)| <= limits.maxTotal
    ensures PutEach(limits, w, t, vs) == Output(w.buffer + WireEach(t, vs), true)
    decreases t, 1, vs
  {
    match vs
    case VNil =>
    case VCons(head, tail) =>
      PutExact(limits, w, t, head);
      PutEachExact(limits, Put(limits, w, t, head), t, tail);
      Assoc(w.buffer, Wire(t, head), WireEach(t, tail));
  }

  lemma {:induction false} PutAllExact(limits: Limits, w: Output, ts: Types, vs: Values)
    requires ValidLimits(limits) && AllHaveType(ts, vs) && AllWithin(limits, ts, vs)
    requires w.ok && |w.buffer| + |WireAll(ts, vs)| <= limits.maxTotal
    ensures PutAll(limits, w, ts, vs) == Output(w.buffer + WireAll(ts, vs), true)
    decreases ts, 0, vs
  {
    match ts
    case TNil =>
    case TCons(t, rest) =>
      PutExact(limits, w, t, vs.head);
      PutAllExact(limits, Put(limits, w, t, vs.head), rest, vs.tail);
      Assoc(w.buffer, Wire(t, vs.head), WireAll(rest, vs.tail));
  }

  lemma {:induction false} PutCaseExact(limits: Limits, w: Output, ts: Types, i: nat, v: Value)
    requires ValidLimits(limits) && i < Length(ts) && CaseHasType(ts, i, v) && CaseWithin(limits, ts, i, v)
    requires w.ok && |w.buffer| + |WireCase(ts, i, v)| <= limits.maxTotal
    ensures PutCase(limits, w, ts, i, v) == Output(w.buffer + WireCase(ts, i, v), true)
    decreases ts, 0, v
  {
    if i == 0 {
      PutExact(limits, w, ts.head, v);
    } else {
      PutCaseExact(limits, w, ts.tail, i - 1, v);
    }
  }

  // ------------------------------------------------------- the decoder reads it back

  /** Types whose every value takes at least one byte. */
  predicate Sized(t: Type) {
    match t
    case Pair(first, second) => Sized(first) || Sized(second)
    case Struct(fields) => AnySized(fields)
    case Enum(width, _) => width > 0
    case Uint(width) => width > 0
    case _ => true
  }

  predicate AnySized(ts: Types) {
    match ts
    case TNil => false
    case TCons(head, tail) => Sized(head) || AnySized(tail)
  }

  /** Types without a vector whose elements could take no bytes. */
  predicate Countable(t: Type) {
    match t
    case Maybe(item) => Countable(item)
    case Pair(first, second) => Countable(first) && Countable(second)
    case Vector(item) => Sized(item) && Countable(item)
    case Variant(cases) => AllCountable(cases)
    case Struct(fields) => AllCountable(fields)
    case _ => true
  }

  predicate AllCountable(ts: Types) {
    match ts
    case TNil => true
    case TCons(head, tail) => Countable(head) && AllCountable(tail)
  }

  lemma {:induction false} SizedWire(t: Type, v: Value)
    requires HasType(t, v) && Sized(t)
    ensures |Wire(t, v)| >= 1
    decreases t, 0, v
  {
    match t
    case Pair(first, second) =>
      if Sized(first) {
        SizedWire(first, v.first);
      } else {
        SizedWire(second, v.second);
      }
    case Struct(fields) => SizedWireAll(fields, v.items);
    case _ =>
  }

  lemma {:induction false} SizedWireAll(ts: Types, vs: Values)
    requires AllHaveType(ts, vs) && AnySized(ts)
    ensures |WireAll(ts, vs)| >= 1
    decreases ts, 0, vs
  {
    if Sized(ts.head) {
      SizedWire(ts.head, vs.head);
    } else {
      SizedWireAll(ts.tail, vs.tail);
    }
  }

  lemma {:induction false} SizedWireEach(t: Type, vs: Values)
    requires EachHasType(t, vs) && Sized(t)
    ensures |WireEach(t, vs)| >= Count(vs)
    decreases vs
  {
    if vs.VCons? {
      SizedWire(t, vs.head);
      SizedWireEach(t, vs.tail);
    }
  }

  lemma GetUintBack(n: nat, width: nat, tail: bytes)
    requires n < Pow256(width)
    ensures GetUint(Input(LittleEndian(n, width) + tail, true), width) == (Input(tail, true), Some(n))
  {
    Halves(LittleEndian(n, width), tail);
    LittleEndianRoundTrip(n, width);
  }

  lemma GetTextBack(limits: Limits, s: bytes, tail: bytes)
    requires ValidLimits(limits) && |s| <= limits.maxString && |s| <= limits.maxTotal
    ensures GetText(limits, Input(LittleEndian(|s|, 4) + s + tail, true)) == (Input(tail, true), Some(s))
  {
    Pow256Values();
    Assoc(LittleEndian(|s|, 4), s, tail);
    GetUintBack(|s|, 4, s + tail);
    Halves(s, tail);
  }

  lemma GetIntBack(i: int, low: int, high: int, tail: bytes)
    requires -I64_SPAN <= low <= i < high <= I64_SPAN
    ensures GetInt(Input(LittleEndian(TwosComplement(i), 8) + tail, true), low, high)
        == (Input(tail, true), Some(Int(i)))
  {
    Pow256Values();
    GetUintBack(TwosComplement(i), 8, tail);
  }

  lemma GetScalarBack(limits: Limits, t: Type, v: Value, tail: bytes)
    requires ValidLimits(limits) && ValidType(t) && HasType(t, v) && Within(limits, t, v)
    requires t.Bool? || t.Enum? || t.Uint? || t.Int32? || t.Int64? || t.Text?
    ensures Get(limits, Input(Wire(t, v) + tail, true), t) == (Input(tail, true), Some(v))
  {
    match t
    case Bool =>
      Pow256Values();
      GetUintBack(v.n, 1, tail);
    case Enum(width, max) => GetUintBack(v.n, width, tail);
    case Uint(width) => GetUintBack(v.n, width, tail);
    case Int32 => GetIntBack(v.i, -0x8000_0000, 0x8000_0000, tail);
    case Int64 => GetIntBack(v.i, -I64_SPAN, I64_SPAN, tail);
    case Text => GetTextBack(limits, v.s, tail);
  }

  lemma {:induction false} GetBack(limits: Limits, t: Type, v: Value, tail: bytes)
    requires ValidLimits(limits) && ValidType(t) && Countable(t) && HasType(t, v) && Within(limits, t, v)
    ensures Get(limits, Input(Wire(t, v) + tail, true), t) == (Input(tail, true), Some(v))
    decreases t, 0, v
  {
    match t
    case Maybe(item) => GetMaybeBack(limits, item, v, tail);
    case Pair(first, second) =>
      var a, b := Wire(first, v.first), Wire(second, v.second);
      Assoc(a, b, tail);
      GetBack(limits, first, v.first, b + tail);
      GetBack(limits, second, v.second, tail);
    case Vector(item) => GetVectorBack(limits, item, v, tail);
    case Variant(cases) => GetVariantBack(limits, cases, v, tail);
    case Struct(fields) => GetAllBack(limits, fields, v.items, tail);
    case _ => GetScalarBack(limits, t, v, tail);
  }

  lemma {:induction false} GetMaybeBack(limits: Limits, item: Type, v: Value, tail: bytes)
    requires ValidLimits(limits) && ValidType(item) && Countable(item)
    requires HasType(Maybe(item), v) && Within(limits, Maybe(item), v)
    ensures Get(limits, Input(Wire(Maybe(item), v) + tail, true), Maybe(item)) == (Input(tail, true), Some(v))
    decreases item, 2, v
  {
    Pow256Values();
    if v == Absent {
      GetUintBack(0, 1, tail);
    } else {
      var flag, inner := LittleEndian(1, 1), Wire(item, v.item);
      Assoc(flag, inner, tail);
      GetUintBack(1, 1, inner + tail);
      GetBack(limits, item, v.item, tail);
    }
  }

  /**
   The decoder takes a count larger than the remaining input for a malformed one. So a
   vector is read back exactly if its elements and what follows them have at least as
   many bytes as there are elements.
   */
  lemma {:induction false} VectorReadBack(limits: Limits, item: Type, v: Value, tail: bytes)
    requires ValidLimits(limits) && ValidType(item) && Countable(item)
    requires HasType(Vector(item), v) && Within(limits, Vector(item), v)
    ensures Get(limits, Input(Wire(Vector(item), v) + tail, true), Vector(item)) == (Input(tail, true), Some(v))
       <==> Count(v.items) <= |WireEach(item, v.items)| + |tail|
    decreases item, 2, v
  {
    Pow256Values();
    var n, inner := Count(v.items), WireEach(item, v.items);
    Assoc(LittleEndian(n, 4), inner, tail);
    GetUintBack(n, 4, inner + tail);
    GetEachBack(limits, item, v.items, tail);
  }

  lemma {:induction false} GetVectorBack(limits: Limits, item: Type, v: Value, tail: bytes)
    requires ValidLimits(limits) && ValidType(item) && Sized(item) && Countable(item)
    requires HasType(Vector(item), v) && Within(limits, Vector(item), v)
    ensures Get(limits, Input(Wire(Vector(item), v) + tail, true), Vector(item)) == (Input(tail, true), Some(v))
    decreases item, 3, v
  {
    SizedWireEach(item, v.items);
    VectorReadBack(limits, item, v, tail);
  }

  lemma {:induction false} GetVariantBack(limits: Limits, cases: Types, v: Value, tail: bytes)
    requires ValidLimits(limits) && ValidType(Variant(cases)) && AllCountable(cases)
    requires HasType(Variant(cases), v) && Within(limits, Variant(cases), v)
    ensures Get(limits, Input(Wire(Variant(cases), v) + tail, true), Variant(cases)) == (Input(tail, true), Some(v))
    decreases cases, 1, v
  {
    Pow256Values();
    var inner := WireCase(cases, v.index, v.item);
    Assoc(LittleEndian(v.index, 1), inner, tail);
    GetUintBack(v.index, 1, inner + tail);
    GetCaseBack(limits, cases, v.index, v.item, tail);
  }

  lemma {:induction false} GetEachBack(limits: Limits, t: Type, vs: Values, tail: bytes)
    requires ValidLimits(limits) && ValidType(t) && Countable(t) && EachHasType(t, vs) && EachWithin(limits, t, vs)
    ensures GetEach(limits, Input(WireEach(t, vs) + tail, true), t, Count(vs)) == (Input(tail, true), Some(vs))
    decreases t, 1, vs
  {
    match vs
    case VNil => assert [] + tail == tail;
    case VCons(head, rest) =>
      var a, b := Wire(t, head), WireEach(t, rest);
      Assoc(a, b, tail);
      GetBack(limits, t, head, b + tail);
      GetEachBack(limits, t, rest, tail);
  }

  lemma {:induction false} GetAllBack(limits: Limits, ts: Types, vs: Values, tail: bytes)
    requires ValidLimits(limits) && ValidTypes(ts) && AllCountable(ts) && AllHaveType(ts, vs) &&
        AllWithin(limits, ts, vs)
    ensures GetAll(limits, Input(WireAll(ts, vs) + tail, true), ts) == (Input(tail, true), Some(vs))
    decreases ts, 0, vs
  {
    match ts
    case TNil => assert [] + tail == tail;
    case TCons(t, rest) =>
      var a, b := Wire(t, vs.head), WireAll(rest, vs.tail);
      Assoc(a, b, tail);
      GetBack(limits, t, vs.head, b + tail);
      GetAllBack(limits, rest, vs.tail, tail);
  }

  lemma {:induction false} GetCaseBack(limits: Limits, ts: Types, i: nat, v: Value, tail: bytes)
    requires ValidLimits(limits) && ValidTypes(ts) && AllCountable(ts)
    requires i < Length(ts) && CaseHasType(ts, i, v) && CaseWithin(limits, ts, i, v)
    ensures GetCase(limits, Input(WireCase(ts, i, v) + tail, true), ts, i) == (Input(tail, true), Some(v))
    decreases ts, 0, v
  {
    if i == 0 {
      GetBack(limits, ts.head, v, tail);
    } else {
      GetCaseBack(limits, ts.tail, i - 1, v, tail);
    }
  }

  // ------------------------------------------------ what decodes is the wire format

  /** A sound end means a sound start, and the bytes in between are exactly these. */
  ghost predicate Took(r: Input, r': Input, wire: bytes) {
    r.ok && r.rest == wire + r'.rest
  }

  lemma TookBoth(r: Input, r1: Input, r2: Input, a: bytes, b: bytes)
    requires Took(r, r1, a) && Took(r1, r2, b)
    ensures Took(r, r2, a + b)
  {
    Assoc(a, b, r2.rest);
  }

  lemma GetUintSound(r: Input, width: nat)
    requires GetUint(r, width).0.ok
    ensures
      var (r1, n) := GetUint(r, width);
      n.Some? && n.value < Pow256(width) && Took(r, r1, LittleEndian(n.value, width))
  {
    var s := r.rest[..width];
    FromLittleEndianBound(s);
    FromLittleEndianRoundTrip(s);
    assert r.rest == s + r.rest[width..];
  }

  lemma GetIntSound(r: Input, low: int, high: int)
    requires -I64_SPAN <= low && high <= I64_SPAN && GetInt(r, low, high).0.ok
    ensures
      var (r1, v) := GetInt(r, low, high);
      v.Some? && v.value.Int? && low <= v.value.i < high && Took(r, r1, LittleEndian(TwosComplement(v.value.i), 8))
  {
    Pow256Values();
    GetUintSound(r, 8);
  }

  lemma GetTextSound(limits: Limits, r: Input)
    requires GetText(limits, r).0.ok
    ensures
      var (r1, s) := GetText(limits, r);
      && s.Some? && |s.value| <= limits.maxString && |s.value| <= limits.maxTotal
      && Took(r, r1, LittleEndian(|s.value|, 4) + s.value)
  {
    GetUintSound(r, 4);
    var (r1, n) := GetUint(r, 4);
    var (r2, s) := GetText(limits, r);
    assert r1.rest == s.value + r2.rest;
    TookBoth(r, r1, r2, LittleEndian(n.value, 4), s.value);
  }

  /** What one decoded field amounts to. */
  ghost predicate Decoded(limits: Limits, r: Input, t: Type) {
    var (r1, v) := Get(limits, r, t);
    v.Some? && HasType(t, v.value) && Within(limits, t, v.value) && Took(r, r1, Wire(t, v.value))
  }

  lemma GetScalarSound(limits: Limits, r: Input, t: Type)
    requires ValidType(t) && Get(limits, r, t).0.ok
    requires t.Bool? || t.Enum? || t.Uint? || t.Int32? || t.Int64? || t.Text?
    ensures Decoded(limits, r, t)
  {
    match t
    case Bool => GetUintSound(r, 1);
    case Enum(width, _) => GetUintSound(r, width);
    case Uint(width) => GetUintSound(r, width);
    case Int32 => GetIntSound(r, -0x8000_0000, 0x8000_0000);
    case Int64 => GetIntSound(r, -I64_SPAN, I64_SPAN);
    case Text => GetTextSound(limits, r);
  }

  lemma {:induction false} GetSound(limits: Limits, r: Input, t: Type)
    requires ValidType(t) && Get(limits, r, t).0.ok
    ensures Decoded(limits, r, t)
    decreases t, 0
  {
    match t
    case Maybe(item) => GetMaybeSound(limits, r, item);
    case Pair(first, second) =>
      var (r1, a) := Get(limits, r, first);
      var (r2, b) := Get(limits, r1, second);
      GetSound(limits, r1, second);
      GetSound(limits, r, first);
      TookBoth(r, r1, r2, Wire(first, a.value), Wire(second, b.value));
    case Vector(item) => GetVectorSound(limits, r, item);
    case Variant(cases) => GetVariantSound(limits, r, cases);
    case Struct(fields) => GetAllSound(limits, r, fields);
    case _ => GetScalarSound(limits, r, t);
  }

  lemma {:induction false} GetMaybeSound(limits: Limits, r: Input, item: Type)
    requires ValidType(item) && Get(limits, r, Maybe(item)).0.ok
    ensures Decoded(limits, r, Maybe(item))
    decreases item, 2
  {
    var (r1, flag) := GetUint(r, 1);
    if flag.Some? && flag.value == 1 {
      var (r2, v) := Get(limits, r1, item);
      GetSound(limits, r1, item);
      GetUintSound(r, 1);
      TookBoth(r, r1, r2, LittleEndian(1, 1), Wire(item, v.value));
    } else {
      GetUintSound(r, 1);
    }
  }

  lemma {:induction false} GetVectorSound(limits: Limits, r: Input, item: Type)
    requires ValidType(item) && Get(limits, r, Vector(item)).0.ok
    ensures Decoded(limits, r, Vector(item))
    decreases item, 2
  {
    var (r1, n) := GetUint(r, 4);
    assert n.Some? && n.value <= limits.maxItems;
    var (r2, vs) := GetEach(limits, r1, item, n.value);
    GetEachSound(limits, r1, item, n.value);
    GetUintSound(r, 4);
    TookBoth(r, r1, r2, LittleEndian(n.value, 4), WireEach(item, vs.value));
  }

  lemma {:induction false} GetVariantSound(limits: Limits, r: Input, cases: Types)
    requires ValidTypes(cases) && Get(limits, r, Variant(cases)).0.ok
    ensures Decoded(limits, r, Variant(cases))
    decreases cases, 1
  {
    var (r1, i) := GetUint(r, 1);
    assert i.Some? && i.value < Length(cases);
    var (r2, v) := GetCase(limits, r1, cases, i.value);
    GetCaseSound(limits, r1, cases, i.value);
    GetUintSound(r, 1);
    TookBoth(r, r1, r2, LittleEndian(i.value, 1), WireCase(cases, i.value, v.value));
  }

  lemma {:induction false} GetEachSound(limits: Limits, r: Input, t: Type, n: nat)
    requires ValidType(t) && GetEach(limits, r, t, n).0.ok
    ensures
      var (r1, vs) := GetEach(limits, r, t, n);
      && vs.Some? && Count(vs.value) == n && EachHasType(t, vs.value) && EachWithin(limits, t, vs.value)
      && Took(r, r1, WireEach(t, vs.value))
    decreases t, 1, n
  {
    if n == 0 {
      assert r.rest == [] + r.rest;
    } else {
      var (r1, head) := Get(limits, r, t);
      var (r2, tail) := GetEach(limits, r1, t, n - 1);
      GetEachSound(limits, r1, t, n - 1);
      GetSound(limits, r, t);
      TookBoth(r, r1, r2, Wire(t, head.value), WireEach(t, tail.value));
    }
  }

  lemma {:induction false} GetAllSound(limits: Limits, r: Input, ts: Types)
    requires ValidTypes(ts) && GetAll(limits, r, ts).0.ok
    ensures
      var (r1, vs) := GetAll(limits, r, ts);
      vs.Some? && AllHaveType(ts, vs.value) && AllWithin(limits, ts, vs.value) && Took(r, r1, WireAll(ts, vs.value))
    decreases ts, 0
  {
    match ts
    case TNil => assert r.rest == [] + r.rest;
    case TCons(t, rest) =>
      var (r1, head) := Get(limits, r, t);
      var (r2, tail) := GetAll(limits, r1, rest);
      GetAllSound(limits, r1, rest);
      GetSound(limits, r, t);
      TookBoth(r, r1, r2, Wire(t, head.value), WireAll(rest, tail.value));
  }

  lemma {:induction false} GetCaseSound(limits: Limits, r: Input, ts: Types, i: nat)
    requires ValidTypes(ts) && i < Length(ts) && GetCase(limits, r, ts, i).0.ok
    ensures
      var (r1, v) := GetCase(limits, r, ts, i);
      v.Some? && CaseHasType(ts, i, v.value) && CaseWithin(limits, ts, i, v.value) &&
          Took(r, r1, WireCase(ts, i, v.value))
    decreases ts, 0
  {
    if i == 0 {
      GetSound(limits, r, ts.head);
    } else {
      GetCaseSound(limits, r, ts.tail, i - 1);
    }
  }

  // -------------------------------------------------- the cursor stays in the input

  /** Whatever the input, sound or not, reading only moves forward in it, and failure stays. */
  ghost predicate Forward(r: Input, r': Input) {
    && |r'.rest| <= |r.rest| && r'.rest == r.rest[|r.rest| - |r'.rest|..]
    && (!r.ok ==> !r'.ok)
  }

  lemma ForwardBoth(r: Input, r1: Input, r2: Input)
    requires Forward(r, r1) && Forward(r1, r2)
    ensures Forward(r, r2)
  {
  }

  lemma GetUintForward(r: Input, width: nat)
    ensures Forward(r, GetUint(r, width).0)
  {
  }

  lemma GetTextForward(limits: Limits, r: Input)
    ensures Forward(r, GetText(limits, r).0)
  {
    GetUintForward(r, 4);
    ForwardBoth(r, GetUint(r, 4).0, GetText(limits, r).0);
  }

  lemma {:induction false} GetForward(limits: Limits, r: Input, t: Type)
    ensures Forward(r, Get(limits, r, t).0)
    decreases t, 0
  {
    match t
    case Text => GetTextForward(limits, r);
    case Maybe(item) => GetMaybeForward(limits, r, item);
    case Pair(first, second) => GetPairForward(limits, r, first, second);
    case Vector(item) => GetVectorForward(limits, r, item);
    case Variant(cases) => GetVariantForward(limits, r, cases);
    case Struct(fields) => GetAllForward(limits, r, fields);
    case Bool => GetBoundedForward(r, 1, 1);
    case Enum(width, max) => GetBoundedForward(r, width, max);
    case Uint(width) => GetUintForward(r, width);
    case Int32 => GetIntForward(r, -0x8000_0000, 0x8000_0000);
    case Int64 => GetIntForward(r, -I64_SPAN, I64_SPAN);
  }

  lemma GetBoundedForward(r: Input, width: nat, max: nat)
    ensures Forward(r, GetBounded(r, width, max).0)
  {
    GetUintForward(r, width);
  }

  lemma GetIntForward(r: Input, low: int, high: int)
    ensures Forward(r, GetInt(r, low, high).0)
  {
    GetUintForward(r, 8);
  }

  lemma {:induction false} GetPairForward(limits: Limits, r: Input, first: Type, second: Type)
    ensures Forward(r, Get(limits, r, Pair(first, second)).0)
    decreases Pair(first, second), 0, 0
  {
    var r1 := Get(limits, r, first).0;
    GetPairShape(limits, r, first, second);
    GetForward(limits, r, first);
    GetForward(limits, r1, second);
    ForwardBoth(r, r1, Get(limits, r1, second).0);
  }

  lemma GetPairShape(limits: Limits, r: Input, first: Type, second: Type)
    ensures Get(limits, r, Pair(first, second)).0 == Get(limits, Get(limits, r, first).0, second).0
  {
    var (r1, a) := Get(limits, r, first);
    var (r2, b) := Get(limits, r1, second);
    assert Get(limits, r, Pair(first, second))
        == (r2, if a.Some? && b.Some? then Some(Two(a.value, b.value)) else None);
  }

  lemma GetMaybeShape(limits: Limits, r: Input, item: Type)
    ensures
      var (r1, flag) := GetUint(r, 1);
      var r2 := Get(limits, r, Maybe(item)).0;
      r2 == r1 || r2 == Fail(r1) || r2 == Get(limits, r1, item).0
  {
  }

  lemma {:induction false} GetMaybeForward(limits: Limits, r: Input, item: Type)
    ensures Forward(r, Get(limits, r, Maybe(item)).0)
    decreases item, 2
  {
    GetMaybeShape(limits, r, item);
    var r1 := GetUint(r, 1).0;
    GetUintForward(r, 1);
    GetForward(limits, r1, item);
    ForwardBoth(r, r1, Get(limits, r1, item).0);
    ForwardBoth(r, r1, Fail(r1));
  }

  lemma {:induction false} GetVectorForward(limits: Limits, r: Input, item: Type)
    ensures Forward(r, Get(limits, r, Vector(item)).0)
    decreases item, 2
  {
    var (r1, n) := GetUint(r, 4);
    GetUintForward(r, 4);
    if n.Some? {
      GetEachForward(limits, r1, item, n.value);
      ForwardBoth(r, r1, GetEach(limits, r1, item, n.value).0);
    }
  }

  lemma GetVariantShape(limits: Limits, r: Input, cases: Types)
    ensures
      var (r1, i) := GetUint(r, 1);
      Get(limits, r, Variant(cases)).0
        == if i.None? then r1 else if i.value >= Length(cases) then Fail(r1) else GetCase(limits, r1, cases, i.value).0
  {
  }

  lemma {:induction false} GetVariantForward(limits: Limits, r: Input, cases: Types)
    ensures Forward(r, Get(limits, r, Variant(cases)).0)
    decreases cases, 1
  {
    GetVariantShape(limits, r, cases);
    var (r1, i) := GetUint(r, 1);
    GetUintForward(r, 1);
    if i.Some? && i.value < Length(cases) {
      GetCaseForward(limits, r1, cases, i.value);
      ForwardBoth(r, r1, GetCase(limits, r1, cases, i.value).0);
    } else {
      ForwardBoth(r, r1, Fail(r1));
    }
  }

  lemma {:induction false} GetEachForward(limits: Limits, r: Input, t: Type, n: nat)
    ensures Forward(r, GetEach(limits, r, t, n).0)
    decreases t, 1, n
  {
    if n > 0 {
      var r1 := Get(limits, r, t).0;
      GetForward(limits, r, t);
      GetEachForward(limits, r1, t, n - 1);
      ForwardBoth(r, r1, GetEach(limits, r1, t, n - 1).0);
    }
  }

  lemma {:induction false} GetAllForward(limits: Limits, r: Input, ts: Types)
    ensures Forward(r, GetAll(limits, r, ts).0)
    decreases ts, 0
  {
    match ts
    case TNil =>
    case TCons(t, rest) =>
      var r1 := Get(limits, r, t).0;
      GetForward(limits, r, t);
      GetAllForward(limits, r1, rest);
      ForwardBoth(r, r1, GetAll(limits, r1, rest).0);
  }

  lemma {:induction false} GetCaseForward(limits: Limits, r: Input, ts: Types, i: nat)
    requires i < Length(ts)
    ensures Forward(r, GetCase(limits, r, ts, i).0)
    decreases ts, 0
  {
    if i == 0 {
      GetForward(limits, r, ts.head);
    } else {
      GetCaseForward(limits, r, ts.tail, i - 1);
    }
  }

  // ---------------------------------------------------------------- round trips

  /** Decoding what was encoded gives the value back and uses up exactly its bytes. */
  lemma {:induction false} DecodeEncoded(limits: Limits, t: Type, v: Value, tail: bytes)
    requires ValidLimits(limits) && ValidType(t) && Countable(t) && HasType(t, v) && Within(limits, t, v)
    requires |Wire(t, v)| <= limits.maxTotal
    ensures
      var w := Put(limits, Output([], true), t, v);
      w.ok && Get(limits, Input(w.buffer + tail, true), t) == (Input(tail, true), Some(v))
  {
    PutExact(limits, Output([], true), t, v);
    assert [] + Wire(t, v) == Wire(t, v);
    GetBack(limits, t, v, tail);
  }

  /** Whatever decodes without a byte left over is what encoding its value writes. */
  lemma {:induction false} EncodeDecoded(limits: Limits, t: Type, data: bytes)
    requires ValidLimits(limits) && ValidType(t) && |data| <= limits.maxTotal
    requires Get(limits, Input(data, true), t).0 == Input([], true)
    ensures
      var v := Get(limits, Input(data, true), t).1;
      v.Some? && HasType(t, v.value) && Put(limits, Output([], true), t, v.value) == Output(data, true)
  {
    GetSound(limits, Input(data, true), t);
    var v := Get(limits, Input(data, true), t).1.value;
    assert data == Wire(t, v) + [] == Wire(t, v) == [] + Wire(t, v);
    PutExact(limits, Output([], true), t, v);
  }

  /**
   A vector of things that take no bytes is written but cannot be read back. The type is
   hypothetical: nothing persists an empty struct.
   */
  lemma {:induction false} VectorOfNothing(limits: Limits)
    requires ValidLimits(limits) && limits.maxItems >= 1 && limits.maxTotal >= 4
    ensures
      var t, v := Vector(Struct(TNil)), Many(VCons(Fields(VNil), VNil));
      && HasType(t, v) && Within(limits, t, v)
      && Put(limits, Output([], true), t, v) == Output(Wire(t, v), true)
      && Get(limits, Input(Wire(t, v), true), t) != (Input([], true), Some(v))
  {
    var t, vs := Vector(Struct(TNil)), VCons(Fields(VNil), VNil);
    var v := Many(vs);
    assert Count(vs) == 1 && WireEach(Struct(TNil), vs) == [] by {
      assert WireAll(TNil, VNil) == [];
    }
    PutExact(limits, Output([], true), t, v);
    assert [] + Wire(t, v) == Wire(t, v) == Wire(t, v) + [];
    VectorReadBack(limits, Struct(TNil), v, []);
  }
}
