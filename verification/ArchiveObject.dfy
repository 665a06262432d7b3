/**
 Writer and reader of the archive, and the encoder and decoder that drive them over a
 type. The reader's offset never passes the end of its data: that is its invariant.
 */
module ArchiveObject {
  import opened Bytes
  import opened Optional
  import opened Archive

  class Writer {
    const limits: Limits
    var buffer: bytes
    var ok: bool

    function State(): Output
      reads this
    {
      Output(buffer, ok)
    }

    constructor (limits: Limits)
      ensures this.limits == limits && State() == Output([], true)
    {
      this.limits := limits;
      buffer, ok := [], true;
    }

    method Raw(s: bytes)
      modifies this
      ensures State() == PutRaw(limits, old(State()), s)
    {
      if !ok {
        return;
      }
      if |buffer| + |s| > limits.maxTotal {
        ok := false;
        return;
      }
      buffer := buffer + s;
    }

    /** Low byte first, one byte at a time. */
    method AppendLittleEndian(n: nat, width: nat)
      modifies this`buffer
      ensures buffer == old(buffer) + LittleEndian(n, width)
    {
      var left := n;
      for i := 0 to width
        invariant buffer + LittleEndian(left, width - i) == old(buffer) + LittleEndian(n, width)
      {
        assert buffer + ([left % 256] + LittleEndian(left / 256, width - i - 1))
            == buffer + [left % 256] + LittleEndian(left / 256, width - i - 1);
        buffer := buffer + [left % 256];
        left := left / 256;
      }
      assert buffer + [] == buffer;
    }

    method PutUint(n: nat, width: nat)
      modifies this
      ensures State() == Archive.PutUint(limits, old(State()), n, width)
    {
      if width == 1 {
        Raw(LittleEndian(n, 1));
      } else {
        AppendLittleEndian(n, width);
      }
    }

    method PutText(s: bytes)
      modifies this
      ensures State() == Archive.PutText(limits, old(State()), s)
    {
      if !ok {
        return;
      }
      if |s| > limits.maxString || |s| > limits.maxTotal || |s| >= U32 {
        ok := false;
        return;
      }
      PutUint(|s|, 4);
      Raw(s);
    }

    /** Encodes one field. */
    method Field(t: Type, v: Value)
      requires HasType(t, v)
      modifies this
      ensures State() == Put(limits, old(State()), t, v)
      decreases t, 0, v
    {
      match t
      case Bool => PutUint(v.n, 1);
      case Enum(width, _) => PutUint(v.n, width);
      case Uint(width) => PutUint(v.n, width);
      case Int32 => PutUint(TwosComplement(v.i), 8);
      case Int64 => PutUint(TwosComplement(v.i), 8);
      case Text => PutText(v.s);
      case Maybe(item) =>
        if v.Present? {
          PutUint(1, 1);
          Field(item, v.item);
        } else {
          PutUint(0, 1);
        }
      case Pair(first, second) =>
        Field(first, v.first);
        Field(second, v.second);
      case Vector(item) =>
        if Count(v.items) > limits.maxItems {
          ok := false;
          return;
        }
        PutUint(Count(v.items), 4);
        Elements(item, v.items);
      case Variant(cases) =>
        PutUint(v.index, 1);
        Alternative(cases, v.index, v.item);
      case Struct(fields) => VisitFields(fields, v.items);
    }

    method Elements(t: Type, vs: Values)
      requires EachHasType(t, vs)
      modifies this
      ensures State() == PutEach(limits, old(State()), t, vs)
      decreases t, 1, vs
    {
      if vs.VCons? {
        Field(t, vs.head);
        Elements(t, vs.tail);
      }
    }

    method VisitFields(ts: Types, vs: Values)
      requires AllHaveType(ts, vs)
      modifies this
      ensures State() == PutAll(limits, old(State()), ts, vs)
      decreases ts, 0, vs
    {
      if ts.TCons? {
        Field(ts.head, vs.head);
        VisitFields(ts.tail, vs.tail);
      }
    }

    method Alternative(ts: Types, i: nat, v: Value)
      requires i < Length(ts) && CaseHasType(ts, i, v)
      modifies this
      ensures State() == PutCase(limits, old(State()), ts, i, v)
      decreases ts, 0, v
    {
      if i == 0 {
        Field(ts.head, v);
      } else {
        Alternative(ts.tail, i - 1, v);
      }
    }
  }

  /** The integer in a byte string, low byte first, built up from the front. */
  method ReadLittleEndian(s: bytes) returns (n: nat)
    ensures n == FromLittleEndian(s)
  {
    n := 0;
    var scale := 1;
    for i := 0 to |s|
      invariant scale >= 0 && n + scale * FromLittleEndian(s[i..]) == FromLittleEndian(s)
    {
      Distribute(scale, s[i], FromLittleEndian(s[i + 1..]));
      assert s[i..][1..] == s[i + 1..];
      n := n + scale * s[i];
      scale := 256 * scale;
    }
  }

  lemma Distribute(scale: nat, b: nat, rest: nat)
    ensures scale * (b + 256 * rest) == scale * b + (256 * scale) * rest && scale * b >= 0
  {
  }

  class Reader {
    const limits: Limits
    const data: bytes
    var offset: nat
    var ok: bool

    ghost predicate Valid()
      reads this
    {
      offset <= |data|
    }

    function State(): Input
      requires offset <= |data|
      reads this
    {
      Input(data[offset..], ok)
    }

    constructor (limits: Limits, data: bytes)
      ensures this.limits == limits && this.data == data && Valid() && State() == Input(data, true)
    {
      this.limits, this.data := limits, data;
      offset, ok := 0, true;
    }

    method GetUint(width: nat) returns (n: Option<nat>)
      requires Valid()
      modifies this
      ensures Valid() && (State(), n) == Archive.GetUint(old(State()), width)
    {
      if width == 1 && !ok {
        return None;
      }
      if offset + width > |data| {
        ok := false;
        return None;
      }
      var value := ReadLittleEndian(data[offset..offset + width]);
      assert data[offset..][..width] == data[offset..offset + width];
      assert data[offset..][width..] == data[offset + width..];
      offset := offset + width;
      return Some(value);
    }

    method GetText() returns (s: Option<bytes>)
      requires Valid()
      modifies this
      ensures Valid() && (State(), s) == Archive.GetText(limits, old(State()))
    {
      var length := GetUint(4);
      if length.None? {
        return None;
      }
      var size := length.value;
      if size > limits.maxString {
        ok := false;
        return None;
      }
      if !ok {
        return None;
      }
      if size > limits.maxTotal || size > |data| - offset {
        ok := false;
        return None;
      }
      s := Some(data[offset..offset + size]);
      assert data[offset..][..size] == data[offset..offset + size];
      assert data[offset..][size..] == data[offset + size..];
      offset := offset + size;
    }

    method GetBounded(width: nat, max: nat) returns (v: Option<Value>)
      requires Valid()
      modifies this
      ensures Valid() && (State(), v) == Archive.GetBounded(old(State()), width, max)
    {
      var n := GetUint(width);
      if n.None? {
        return None;
      }
      if n.value > max {
        ok := false;
        return None;
      }
      return Some(Nat(n.value));
    }

    method GetInt(low: int, high: int) returns (v: Option<Value>)
      requires Valid()
      modifies this
      ensures Valid() && (State(), v) == Archive.GetInt(old(State()), low, high)
    {
      var n := GetUint(8);
      if n.None? || n.value >= U64 {
        return None;
      }
      var i := FromTwosComplement(n.value);
      if i < low || i >= high {
        ok := false;
        return None;
      }
      return Some(Int(i));
    }

    /** Decodes one field. */
    method Field(t: Type) returns (v: Option<Value>)
      requires Valid()
      modifies this
      ensures Valid() && (State(), v) == Get(limits, old(State()), t)
      decreases t, 0
    {
      match t
      case Bool => v := GetBounded(1, 1);
      case Enum(width, max) => v := GetBounded(width, max);
      case Uint(width) =>
        var n := GetUint(width);
        v := if n.Some? then Some(Nat(n.value)) else None;
      case Int32 => v := GetInt(-0x8000_0000, 0x8000_0000);
      case Int64 => v := GetInt(-I64_SPAN, I64_SPAN);
      case Text =>
        var s := GetText();
        v := if s.Some? then Some(Str(s.value)) else None;
      case Maybe(item) => v := Presence(item);
      case Pair(first, second) =>
        var a := Field(first);
        var b := Field(second);
        v := if a.Some? && b.Some? then Some(Two(a.value, b.value)) else None;
      case Vector(item) => v := Counted(item);
      case Variant(cases) => v := Indexed(cases);
      case Struct(fields) =>
        var vs := VisitFields(fields);
        v := if vs.Some? then Some(Fields(vs.value)) else None;
    }

    method Presence(item: Type) returns (v: Option<Value>)
      requires Valid()
      modifies this
      ensures Valid() && (State(), v) == Get(limits, old(State()), Maybe(item))
      decreases item, 2
    {
      var flag := GetUint(1);
      if flag.None? {
        return None;
      }
      if flag.value == 0 {
        return Some(Absent);
      }
      if flag.value > 1 {
        ok := false;
        return None;
      }
      var inner := Field(item);
      v := if inner.Some? then Some(Present(inner.value)) else None;
    }

    method Counted(item: Type) returns (v: Option<Value>)
      requires Valid()
      modifies this
      ensures Valid() && (State(), v) == Get(limits, old(State()), Vector(item))
      decreases item, 2
    {
      var count := GetUint(4);
      if count.None? {
        return None;
      }
      if count.value > limits.maxItems || count.value > |data| - offset {
        ok := false;
        return None;
      }
      var vs := Elements(item, count.value);
      v := if vs.Some? then Some(Many(vs.value)) else None;
    }

    method Indexed(cases: Types) returns (v: Option<Value>)
      requires Valid()
      modifies this
      ensures Valid() && (State(), v) == Get(limits, old(State()), Variant(cases))
      decreases cases, 1
    {
      var index := GetUint(1);
      if index.None? {
        return None;
      }
      if index.value >= Length(cases) {
        ok := false;
        return None;
      }
      var inner := Alternative(cases, index.value);
      v := if inner.Some? then Some(Case(index.value, inner.value)) else None;
    }

    method Elements(t: Type, n: nat) returns (vs: Option<Values>)
      requires Valid()
      modifies this
      ensures Valid() && (State(), vs) == GetEach(limits, old(State()), t, n)
      decreases t, 1, n
    {
      if n == 0 {
        return Some(VNil);
      }
      var head := Field(t);
      if !ok {
        return None;
      }
      var tail := Elements(t, n - 1);
      vs := if head.Some? && tail.Some? then Some(VCons(head.value, tail.value)) else None;
    }

    method VisitFields(ts: Types) returns (vs: Option<Values>)
      requires Valid()
      modifies this
      ensures Valid() && (State(), vs) == GetAll(limits, old(State()), ts)
      decreases ts, 0
    {
      if ts.TNil? {
        return Some(VNil);
      }
      var head := Field(ts.head);
      var tail := VisitFields(ts.tail);
      vs := if head.Some? && tail.Some? then Some(VCons(head.value, tail.value)) else None;
    }

    method Alternative(ts: Types, i: nat) returns (v: Option<Value>)
      requires Valid() && i < Length(ts)
      modifies this
      ensures Valid() && (State(), v) == GetCase(limits, old(State()), ts, i)
      decreases ts, 0
    {
      if i == 0 {
        v := Field(ts.head);
      } else {
        v := Alternative(ts.tail, i - 1);
      }
    }
  }
}
