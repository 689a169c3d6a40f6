/** Symbolic input formats: fields of arbitrary bit width, repacked into bytes. */
module SymbolicFormat {
  import opened Isa
  import opened Bits
  import opened Concolic

  /** The number of bytes that hold a number of bits. */
  function ToByteSize(bits: nat): (n: nat)
    ensures 8 * n >= bits && (n > 0 ==> 8 * (n - 1) < bits)
  {
    var rem := bits % 8;
    if rem == 0 then bits / 8 else ((bits - rem) + 8) / 8
  }

  /** One element of a field's value list: a constraint string or a number. */
  datatype Element = Constraint | Number(n: int)

  /** Name, width and value list of a field. */
  datatype Field = Field(name: string, bits: nat, elements: seq<Element>)

  /**
    What the value library supplies: unconstrained bytes for a name, and a constant made of
    given bytes (in an order of its own).
   */
  datatype Library = Library(symbolicBytes: (string, nat) -> Value, fromBytes: seq<nat> -> Value)

  predicate Numeric(e: Element) {
    e.Number? && 0 <= e.n < 256
  }

  function Trimmed(v: Value, bits: nat): Value {
    if bits % 8 == 0 then v else Extract(v, 0, bits)
  }

  predicate WellFormed(f: Field) {
    |f.elements| == ToByteSize(f.bits) && forall k :: 0 <= k < |f.elements| ==> Numeric(f.elements[k])
  }

  /** The bytes of a concrete field. */
  function Payload(f: Field): (bytes: seq<nat>)
    requires WellFormed(f)
    ensures |bytes| == |f.elements|
    ensures forall k :: 0 <= k < |bytes| ==> f.elements[k] == Number(bytes[k]) && bytes[k] < 256
  {
    seq(|f.elements|, (k: nat) requires k < |f.elements| && Numeric(f.elements[k]) => f.elements[k].n as nat)
  }

  /** The value of a field, or none if its list is malformed. */
  function FieldValue(lib: Library, f: Field): Option<Value> {
    if f.elements == [] then Some(Trimmed(lib.symbolicBytes(f.name, ToByteSize(f.bits)), f.bits))
    else if WellFormed(f) then Some(Trimmed(lib.fromBytes(Payload(f)), f.bits))
    else None
  }

  /** The library makes values of eight bits a byte, under every reading. */
  ghost predicate ByteWide(lib: Library) {
    && (forall name, n: nat :: Wide(lib.symbolicBytes(name, n), 8 * n))
    && (forall bytes :: Wide(lib.fromBytes(bytes), 8 * |bytes|))
  }

  /** The fields joined from left to right, the first one in the high bits. */
  function Concated(vs: seq<Value>): Value
    requires vs != []
  {
    if |vs| == 1 then vs[0] else ConcatV(Concated(vs[..|vs| - 1]), vs[|vs| - 1])
  }

  function Slice8(v: Value, width: nat, i: nat): Value
    requires 8 * (i + 1) <= width
  {
    Extract(v, width - 8 * (i + 1), 8)
  }

  function Bytes(v: Value): (bs: seq<Value>)
    ensures |bs| == v.concrete.width / 8
  {
    var w := v.concrete.width;
    seq(w / 8, (i: nat) requires i < w / 8 => Slice8(v, w, i))
  }

  /** What `get_bytes` returns; `None` is a failed assertion on the total width. */
  function Repacked(vs: seq<Value>): Option<seq<Value>> {
    if vs == [] then Some([])
    else
      var v := Concated(vs);
      if v.concrete.width % 8 != 0 || v.concrete.width < 8 then None else Some(Bytes(v))
  }

  lemma ConcatedGrows(vs: seq<Value>, k: nat)
    requires 0 < k < |vs|
    ensures Concated(vs[..k + 1]) == ConcatV(Concated(vs[..k]), vs[k])
  {
    assert vs[..k + 1][..k] == vs[..k];
  }

  class Format {
    const fields: seq<Field>
    const lib: Library
    var parsed: bool
    var values: seq<Value>

    constructor (fs: seq<Field>, l: Library)
      ensures fields == fs && lib == l && !parsed && values == []
    {
      fields, lib, parsed, values := fs, l, false, [];
    }

    ghost predicate Valid()
      reads this
    {
      && |values| <= |fields| && (parsed ==> |values| == |fields|) && (!parsed ==> values == [])
      && forall k :: 0 <= k < |values| ==> FieldValue(lib, fields[k]) == Some(values[k])
    }

    /** The stream is read once; later calls return the same values. */
    method GetValues() returns (ok: bool)
      requires Valid()
      modifies this
      ensures ok ==> Valid() && parsed
      ensures old(parsed) ==> ok && values == old(values)
      ensures !ok <==> !old(parsed) && exists k :: 0 <= k < |fields| && FieldValue(lib, fields[k]) == None
    {
      if parsed {
        return true;
      }
      var k := 0;
      while k < |fields|
        invariant 0 <= k <= |fields| && |values| == k && !parsed
        invariant forall j :: 0 <= j < k ==> FieldValue(lib, fields[j]) == Some(values[j])
      {
        var v := FieldValue(lib, fields[k]);
        if v.None? {
          return false;
        }
        values := values + [v.value];
        k := k + 1;
      }
      parsed := true;
      return true;
    }

    /** The first loop of `get_bytes`: all fields concatenated. */
    method Join() returns (concated: Value)
      requires values != []
      ensures concated == Concated(values)
    {
      concated := values[0];
      var k := 1;
      while k < |values|
        invariant 1 <= k <= |values|
        invariant concated == Concated(values[..k])
      {
        ConcatedGrows(values, k);
        concated := ConcatV(concated, values[k]);
        k := k + 1;
      }
      assert values[..k] == values;
    }

    method GetBytes() returns (vec: Option<seq<Value>>)
      requires Valid() && parsed
      ensures vec == Repacked(values)
    {
      if |values| == 0 {
        return Some([]);
      }
      var concated := Join();
      if concated.concrete.width % 8 != 0 || concated.concrete.width < 8 {
        return None;
      }
      var bytes := Split(concated);
      return Some(bytes);
    }
  }

  /** The second loop of `get_bytes`: bytes from the highest offset down. */
  method Split(v: Value) returns (bytes: seq<Value>)
    requires v.concrete.width % 8 == 0
    ensures bytes == Bytes(v)
  {
    var width := v.concrete.width;
    bytes := [];
    var off: nat := width;
    while off != 0
      invariant off + 8 * |bytes| == width
      invariant forall j: nat :: j < |bytes| ==> 8 * (j + 1) <= width && bytes[j] == Slice8(v, width, j)
    {
      off := off - 8;
      bytes := bytes + [Extract(v, off, 8)];
    }
  }

  /** A field is accepted exactly if its list is empty or well-formed; its value always has the field's width. */
  lemma FieldWidth(lib: Library, f: Field)
    requires ByteWide(lib)
    ensures FieldValue(lib, f).Some? <==> f.elements == [] || WellFormed(f)
    ensures FieldValue(lib, f).Some? ==> Wide(FieldValue(lib, f).value, f.bits)
  {
    if FieldValue(lib, f).Some? {
      var whole := if f.elements == [] then lib.symbolicBytes(f.name, ToByteSize(f.bits)) else lib.fromBytes(Payload(f));
      assert Wide(whole, 8 * ToByteSize(f.bits));
      forall how: Reading
        ensures Read(Trimmed(whole, f.bits), how).width == f.bits
      {
        ReadUnary(whole, 0, f.bits, how);
      }
    }
  }

  lemma LowBits(x: BV, bits: nat)
    ensures ExtractBits(x, 0, bits).value == x.value % Pow2(bits)
    ensures x.width == bits ==> Mod(x.value, Pow2(bits)) == x.value
    ensures Mod(x.value, Pow2(bits)) == x.value % Pow2(bits)
  {
    assert x.value / Pow2(0) == x.value;
    ModIs(x.value, Pow2(bits));
  }

  /** A value cut to a field's width reads as its low bits. */
  lemma TrimmedReads(v: Value, bits: nat, how: Reading)
    requires Wide(v, 8 * ToByteSize(bits))
    ensures Read(Trimmed(v, bits), how).width == bits
    ensures Read(Trimmed(v, bits), how).value == Read(v, how).value % Pow2(bits)
  {
    LowBits(Read(v, how), bits);
    if bits % 8 == 0 {
      assert 8 * ToByteSize(bits) == bits;
    } else {
      ReadUnary(v, 0, bits, how);
    }
  }

  /** A field reads as the low bits of what the library makes of its name or of its numbers. */
  lemma FieldReads(lib: Library, f: Field, how: Reading)
    requires ByteWide(lib) && FieldValue(lib, f).Some?
    ensures f.elements == [] ==>
              Read(FieldValue(lib, f).value, how).value ==
              Read(lib.symbolicBytes(f.name, ToByteSize(f.bits)), how).value % Pow2(f.bits)
    ensures f.elements != [] ==>
              exists bytes :: |bytes| == |f.elements| &&
                               (forall k :: 0 <= k < |bytes| ==> f.elements[k] == Number(bytes[k]))
                && Read(FieldValue(lib, f).value, how).value == Read(lib.fromBytes(bytes), how).value % Pow2(f.bits)
  {
    if f.elements == [] {
      TrimmedReads(lib.symbolicBytes(f.name, ToByteSize(f.bits)), f.bits, how);
    } else {
      var bytes := Payload(f);
      TrimmedReads(lib.fromBytes(bytes), f.bits, how);
      assert |bytes| == |f.elements| && forall k :: 0 <= k < |bytes| ==> f.elements[k] == Number(bytes[k]);
    }
  }

  // ----- bit conservation -----

  /** The bits of a bit-vector, the highest first. */
  function BitsOf(w: nat, v: int): (bs: seq<bool>)
    ensures |bs| == w
  {
    if w == 0 then [] else BitsOf(w - 1, v / 2) + [v % 2 == 1]
  }

  function AllBits(vs: seq<BV>): seq<bool> {
    if vs == [] then [] else AllBits(vs[..|vs| - 1]) + BitsOf(vs[|vs| - 1].width, vs[|vs| - 1].value)
  }

  /** The value without its `n` lowest bits. */
  function Upper(v: int, n: nat): int {
    v / Pow2(n)
  }

  lemma SplitGrows(v: int, u: int, m: nat, n: nat)
    requires n > 0 && BitsOf(m + (n - 1), v / 2) == BitsOf(m, u) + BitsOf(n - 1, v / 2)
    ensures BitsOf(m + n, v) == BitsOf(m, u) + BitsOf(n, v)
  {
  }

  lemma {:induction false} BitsSplit(v: int, m: nat, n: nat)
    ensures BitsOf(m + n, v) == BitsOf(m, Upper(v, n)) + BitsOf(n, v)
    decreases n
  {
    if n > 0 {
      BitsSplit(v / 2, m, n - 1);
      HalvesFirst(v, n);
      SplitGrows(v, Upper(v, n), m, n);
    } else {
      ShiftByNone(v);
    }
  }

  lemma ShiftByNone(v: int)
    ensures Upper(v, 0) == v
  {
  }

  lemma QuotientIs(n: int, m: nat, q: int, r: nat)
    requires m > 0 && n == q * m + r && r < m
    ensures n / m == q && n % m == r
  {
    DivModUnique(n, m, q, r);
  }

  lemma HalfModulo(w: nat, v: int)
    requires w > 0
    ensures v % Pow2(w) / 2 == v / 2 % Pow2(w - 1) && v % Pow2(w) % 2 == v % 2
  {
    var p := Pow2(w - 1);
    var q, r := v / Pow2(w), v % Pow2(w);
    assert v == q * (2 * p) + r;
    assert v / 2 == q * p + r / 2;
    QuotientIs(v / 2, p, q, r / 2);
  }

  lemma {:induction false} BitsModulo(w: nat, v: int)
    ensures BitsOf(w, v % Pow2(w)) == BitsOf(w, v)
  {
    if w > 0 {
      HalfModulo(w, v);
      BitsModulo(w - 1, v / 2);
    }
  }

  lemma MkBits(w: nat, v: int)
    ensures BitsOf(w, Mk(w, v).value) == BitsOf(w, v)
  {
    BitsModulo(w, v);
  }

  lemma JoinBits(a: BV, b: BV)
    ensures BitsOf(a.width + b.width, Join(a, b).value) == BitsOf(a.width, a.value) + BitsOf(b.width, b.value)
  {
    var v := a.value * Pow2(b.width) + b.value;
    MkBits(a.width + b.width, v);
    BitsSplit(v, a.width, b.width);
    QuotientIs(v, Pow2(b.width), a.value, b.value);
    BitsModulo(b.width, v);
  }

  function Readings(vs: seq<Value>, how: Reading): (rs: seq<BV>)
    ensures |rs| == |vs|
  {
    seq(|vs|, (i: nat) requires i < |vs| => Read(vs[i], how))
  }

  /** Bits joined to the bits of one more value. */
  lemma {:induction false} BitsAppend(rs: seq<BV>, n: nat)
    requires |rs| == n + 1
    ensures AllBits(rs) == AllBits(rs[..n]) + BitsOf(rs[n].width, rs[n].value)
  {
  }

  lemma LastBits(vs: seq<Value>, how: Reading, n: nat)
    requires |vs| == n + 1
    ensures var r := Read(vs[n], how);
            AllBits(Readings(vs, how)) == AllBits(Readings(vs[..n], how)) + BitsOf(r.width, r.value)
  {
    assert Readings(vs, how)[..n] == Readings(vs[..n], how);
    BitsAppend(Readings(vs, how), n);
  }

  lemma ConcatStep(joined: Value, last: Value, how: Reading, front: seq<bool>)
    requires BitsOf(Read(joined, how).width, Read(joined, how).value) == front
    ensures var r := Read(ConcatV(joined, last), how);
            BitsOf(r.width, r.value) == front + BitsOf(Read(last, how).width, Read(last, how).value)
  {
    ReadConcat(joined, last, how);
    JoinBits(Read(joined, how), Read(last, how));
  }

  lemma {:induction false} ConcatedBits(vs: seq<Value>, how: Reading)
    requires vs != []
    ensures var r := Read(Concated(vs), how); BitsOf(r.width, r.value) == AllBits(Readings(vs, how))
    decreases |vs|
  {
    var n := |vs| - 1;
    if n == 0 {
      assert AllBits(Readings(vs, how)[..0]) == [];
    } else {
      ConcatedBits(vs[..n], how);
      LastBits(vs, how, n);
      ConcatStep(Concated(vs[..n]), vs[n], how, AllBits(Readings(vs[..n], how)));
    }
  }

  lemma ByteBits(v: Value, how: Reading, off: nat)
    ensures var r := Read(Extract(v, off, 8), how);
            r.width == 8 && BitsOf(8, r.value) == BitsOf(8, Upper(Read(v, how).value, off))
  {
    ReadUnary(v, off, 8, how);
    MkBits(8, Upper(Read(v, how).value, off));
  }

  lemma UpperSplit(x: nat, off: nat, m: nat)
    ensures BitsOf(m, Upper(x, off + 8)) + BitsOf(8, Upper(x, off)) == BitsOf(m + 8, Upper(x, off))
  {
    BitsSplit(Upper(x, off), m, 8);
    ShiftTwice(x, off, 8);
  }

  lemma LastByte(v: Value, how: Reading, n: nat, off: nat)
    requires Wide(v, v.concrete.width) && v.concrete.width % 8 == 0 && v.concrete.width == off + 8 * (n + 1)
    ensures AllBits(Readings(Bytes(v)[..n + 1], how)) ==
            AllBits(Readings(Bytes(v)[..n], how)) + BitsOf(8, Upper(Read(v, how).value, off))
  {
    var bs := Bytes(v)[..n + 1];
    assert bs[..n] == Bytes(v)[..n] && bs[n] == Extract(v, off, 8);
    ByteBits(v, how, off);
    LastBits(bs, how, n);
  }

  /** The first `n` bytes of a value hold its highest bits; `off` bits are left. */
  lemma {:induction false} BytesBits(v: Value, how: Reading, n: nat, off: nat)
    requires Wide(v, v.concrete.width) && v.concrete.width % 8 == 0 && v.concrete.width == off + 8 * n
    ensures AllBits(Readings(Bytes(v)[..n], how)) == BitsOf(8 * n, Upper(Read(v, how).value, off))
    decreases n
  {
    if n > 0 {
      BytesBits(v, how, n - 1, off + 8);
      LastByte(v, how, n - 1, off);
      UpperSplit(Read(v, how).value, off, 8 * n - 8);
    }
  }

  lemma {:induction false} ShiftTwice(x: int, m: nat, n: nat)
    ensures Upper(Upper(x, m), n) == Upper(x, m + n)
    decreases m
  {
    if m == 0 {
      ShiftByNone(x);
    } else {
      HalvesFirst(x, m);
      HalvesFirst(x, m + n);
      ShiftTwice(x / 2, m - 1, n);
    }
  }

  /** Joined fields have one width under every reading, if each field has. */
  lemma {:induction false} ConcatedWide(vs: seq<Value>)
    requires vs != [] && forall k :: 0 <= k < |vs| ==> Wide(vs[k], vs[k].concrete.width)
    ensures Wide(Concated(vs), Concated(vs).concrete.width)
    decreases |vs|
  {
    if |vs| > 1 {
      var n := |vs| - 1;
      ConcatedWide(vs[..n]);
      forall how: Reading
        ensures Read(Concated(vs), how).width == Concated(vs).concrete.width
      {
        ReadConcat(Concated(vs[..n]), vs[n], how);
      }
    }
  }

  /**
    The bytes, joined in order, are the fields joined in order, bit for bit and under every
    reading, and there are as many of them as the total width gives.
   */
  lemma BitsConserved(vs: seq<Value>, how: Reading)
    requires vs != [] && Repacked(vs).Some?
    requires forall k :: 0 <= k < |vs| ==> Wide(vs[k], vs[k].concrete.width)
    ensures AllBits(Readings(Repacked(vs).value, how)) == AllBits(Readings(vs, how))
    ensures 8 * |Repacked(vs).value| == |AllBits(Readings(vs, how))|
  {
    var v := Concated(vs);
    var w := v.concrete.width;
    ConcatedWide(vs);
    ConcatedBits(vs, how);
    BytesBits(v, how, w / 8, 0);
    assert Bytes(v)[..w / 8] == Bytes(v);
    ShiftByNone(Read(v, how).value);
  }

  function TotalBits(fs: seq<Field>): nat {
    if fs == [] then 0 else TotalBits(fs[..|fs| - 1]) + fs[|fs| - 1].bits
  }

  /** The values of the fields, as `get_values` collects them. */
  predicate ValuesOf(lib: Library, fs: seq<Field>, vs: seq<Value>) {
    |vs| == |fs| && forall k :: 0 <= k < |fs| ==> FieldValue(lib, fs[k]) == Some(vs[k])
  }

  /** Each value has the width of its field under every reading. */
  ghost predicate Widths(fs: seq<Field>, vs: seq<Value>) {
    |vs| == |fs| && forall k :: 0 <= k < |vs| ==> vs[k].concrete.width == fs[k].bits && Wide(vs[k], vs[k].concrete.width)
  }

  lemma FieldsWide(lib: Library, fs: seq<Field>, vs: seq<Value>)
    requires ByteWide(lib) && ValuesOf(lib, fs, vs)
    ensures Widths(fs, vs)
  {
    forall k | 0 <= k < |vs|
      ensures vs[k].concrete.width == fs[k].bits && Wide(vs[k], vs[k].concrete.width)
    {
      FieldWidth(lib, fs[k]);
      assert Read(vs[k], Concretely).width == fs[k].bits;
    }
  }

  lemma {:induction false} ConcatedWidth(fs: seq<Field>, vs: seq<Value>)
    requires Widths(fs, vs) && vs != []
    ensures Concated(vs).concrete.width == TotalBits(fs)
    decreases |vs|
  {
    var n := |vs| - 1;
    if n > 0 {
      ConcatedWidth(fs[..n], vs[..n]);
    } else {
      assert TotalBits(fs[..0]) == 0;
    }
  }

  lemma RepackedSize(vs: seq<Value>, w: nat)
    requires vs != [] && Concated(vs).concrete.width == w && w > 0 && w % 8 == 0
    ensures Repacked(vs).Some? && |Repacked(vs).value| == w / 8
  {
  }

  /**
    Any fields whose widths add up to a positive multiple of eight are repacked into that many
    bytes, with every bit in its place.
   */
  lemma {:induction false} FormatConserved(lib: Library, fs: seq<Field>, vs: seq<Value>, how: Reading)
    requires ByteWide(lib) && ValuesOf(lib, fs, vs) && fs != []
    requires TotalBits(fs) > 0 && TotalBits(fs) % 8 == 0
    ensures Repacked(vs).Some? && |Repacked(vs).value| == TotalBits(fs) / 8
    ensures AllBits(Readings(Repacked(vs).value, how)) == AllBits(Readings(vs, how))
  {
    FieldsWide(lib, fs, vs);
    ConcatedWidth(fs, vs);
    RepackedSize(vs, TotalBits(fs));
    BitsConserved(vs, how);
  }
}
