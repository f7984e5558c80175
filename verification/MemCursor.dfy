/** The bounded cursors over a byte buffer (src/libratel/MemReader.cpp,
    src/libratel/MemWriter.cpp), with the widths of the comparisons made explicit. */
module MemCursor {
  import opened Wrappers
  import opened SocksTypes
  import opened HostBytes

  const TWO_32: int := 0x1_0000_0000
  const TWO_63: int := 0x8000_0000_0000_0000
  const TWO_64: int := 0x1_0000_0000_0000_0000

  type Word32 = w: int | 0 <= w < 0x1_0000_0000 witness 0
  type Word64 = w: int | 0 <= w < 0x1_0000_0000_0000_0000 witness 0

  /** `int64_t` */
  type Int64 = w: int | -0x8000_0000_0000_0000 <= w < 0x8000_0000_0000_0000 witness 0

  /** The value a 64-bit quantity has once it is compared as `size_t`. */
  function AsSize(v: int): (n: nat)
    requires -TWO_63 <= v < TWO_64
    ensures v < 0 ==> n >= TWO_63
  {
    if v < 0 then v + TWO_64 else v
  }

  // ---------------------------------------------------------------- cursor movements

  datatype Move =
    | SetPos(at: Word32)
    | Access(n: nat)
    | Shift(delta: Int64)
    | ShiftFromStart(at: Word32)

  /** No object is larger than `PTRDIFF_MAX`, and `shift` must not overflow `int64_t`. */
  predicate Defined(size: nat, pos: nat, m: Move) {
    pos <= size < TWO_63 &&
    match m
    case Access(n) => n < TWO_63
    case Shift(delta) => pos + delta < TWO_63
    case _ => true
  }

  /** The offset after a movement, `None` when it is refused. */
  function Moved(size: nat, pos: nat, m: Move): Option<int>
    requires Defined(size, pos, m)
  {
    match m
    case SetPos(at) => if at > size then None else Some(at)
    case Access(n) => if AsSize(pos + n) > size then None else Some(pos + n)
    case Shift(delta) => if AsSize(pos + delta) >= size then None else Some(pos + delta)
    case ShiftFromStart(at) => if at >= size then None else Some(at)
  }

  /** Exactly when each movement is accepted, and where it leads. A negative result is refused
      by the unsigned comparison; only `SetPos` and an access can reach the end. */
  lemma MovedExactly(size: nat, pos: nat, m: Move)
    requires Defined(size, pos, m)
    ensures match m
            case SetPos(at) => Moved(size, pos, m) == if at <= size then Some(at) else None
            case Access(n) => Moved(size, pos, m) == if pos + n <= size then Some(pos + n) else None
            case Shift(delta) => Moved(size, pos, m) == if 0 <= pos + delta < size then Some(pos + delta) else None
            case ShiftFromStart(at) => Moved(size, pos, m) == if at < size then Some(at) else None
  {
  }

  /** The same check for any `size_t`, whose sum wraps around: it says whether the bytes
      are there exactly when the sum does not overflow. */
  lemma AccessCheckExactly(size: nat, pos: nat, n: Word64)
    requires pos <= size < TWO_63
    ensures ((pos + n) % TWO_64 <= size <==> pos + n <= size) <==> pos + n < TWO_64
    ensures n < TWO_63 ==> (pos + n) % TWO_64 == AsSize(pos + n)
  {
    if pos + n >= TWO_64 {
      assert (pos + n) % TWO_64 == pos + n - TWO_64;
    }
  }

  function After(size: nat, pos: nat, m: Move): int
    requires Defined(size, pos, m)
  {
    match Moved(size, pos, m) case None => pos case Some(p) => p
  }

  ghost predicate AllDefined(size: nat, pos: int, moves: seq<Move>)
    decreases |moves|
  {
    |moves| > 0 ==>
      0 <= pos && Defined(size, pos, moves[0]) && AllDefined(size, After(size, pos, moves[0]), moves[1..])
  }

  ghost function AfterAll(size: nat, pos: int, moves: seq<Move>): int
    requires AllDefined(size, pos, moves)
    decreases |moves|
  {
    if |moves| == 0 then pos else AfterAll(size, After(size, pos, moves[0]), moves[1..])
  }

  /** No sequence of movements takes the cursor out of the buffer. */
  lemma {:induction false} CursorStaysInside(size: nat, pos: nat, moves: seq<Move>)
    requires pos <= size && AllDefined(size, pos, moves)
    ensures 0 <= AfterAll(size, pos, moves) <= size
    decreases |moves|
  {
    if |moves| == 0 {
    } else {
      MovedExactly(size, pos, moves[0]);
      CursorStaysInside(size, After(size, pos, moves[0]), moves[1..]);
    }
  }

  // ---------------------------------------------------------------- MemReader

  class MemReader {
    const data: array<Byte>
    var pos: nat

    ghost predicate Valid()
      reads this
    {
      pos <= data.Length < TWO_63
    }

    constructor (data: array<Byte>)
      requires data.Length < TWO_63
      ensures this.data == data && pos == 0 && Valid()
    {
      this.data, pos := data, 0;
    }

    method SetPos(at: Word32) returns (ok: bool)
      requires Valid()
      modifies this
      ensures Valid() && ok == (at <= data.Length)
      ensures pos == After(data.Length, old(pos), Move.SetPos(at))
      ensures pos == if ok then at else old(pos)
    {
      if at > data.Length {
        return false;
      }
      pos := at;
      return true;
    }

    /** `readData`: the bytes go to the caller's buffer, of size `n`. */
    method ReadData(n: nat) returns (ok: bool, bytes: Bytes)
      requires Valid() && n < TWO_63
      modifies this
      ensures Valid() && ok == (old(pos) + n <= data.Length)
      ensures pos == After(data.Length, old(pos), Access(n))
      ensures pos == old(pos) + if ok then n else 0
      ensures ok ==> bytes == data[..][old(pos)..pos]
    {
      if AsSize(pos + n) > data.Length {
        return false, [];
      }
      bytes := data[pos..pos + n];
      assert bytes == data[..][pos..pos + n];
      pos := pos + n;
      return true, bytes;
    }

    method ReadUint(n: nat) returns (ok: bool, val: nat)
      requires Valid() && n <= 8
      modifies this
      ensures Valid() && ok == (old(pos) + n <= data.Length)
      ensures pos == After(data.Length, old(pos), Access(n))
      ensures pos == old(pos) + if ok then n else 0
      ensures ok ==> val == Value(data[..][old(pos)..pos])
    {
      var bytes;
      ok, bytes := ReadData(n);
      val := if ok then Value(bytes) else 0;
    }

    method ReadUint8() returns (ok: bool, val: Byte)
      requires Valid()
      modifies this
      ensures Valid() && ok == (old(pos) + 1 <= data.Length)
      ensures pos == After(data.Length, old(pos), Access(1))
      ensures pos == old(pos) + if ok then 1 else 0
      ensures ok ==> Image(val, 1) == data[..][old(pos)..pos]
    {
      var bytes;
      ok, bytes := ReadData(1);
      val := if ok then bytes[0] else 0;
    }

    method ReadUint16() returns (ok: bool, val: Word)
      requires Valid()
      modifies this
      ensures Valid() && ok == (old(pos) + 2 <= data.Length)
      ensures pos == After(data.Length, old(pos), Access(2))
      ensures pos == old(pos) + if ok then 2 else 0
      ensures ok ==> WordImage(val) == data[..][old(pos)..pos]
    {
      var bytes;
      ok, bytes := ReadData(2);
      if ok {
        val := WordValue(bytes);
        WordRoundTrip(val, bytes);
      } else {
        val := 0;
      }
    }

    method ReadUint32() returns (ok: bool, val: Word32)
      requires Valid()
      modifies this
      ensures Valid() && ok == (old(pos) + 4 <= data.Length)
      ensures pos == After(data.Length, old(pos), Access(4))
      ensures pos == old(pos) + if ok then 4 else 0
      ensures ok ==> Image(val, 4) == data[..][old(pos)..pos]
    {
      var n;
      ok, n := ReadUint(4);
      Width4();
      val := if ok then n else 0;
      if ok {
        ImageOfValue(data[..][old(pos)..pos]);
      }
    }

    method ReadUint64() returns (ok: bool, val: Word64)
      requires Valid()
      modifies this
      ensures Valid() && ok == (old(pos) + 8 <= data.Length)
      ensures pos == After(data.Length, old(pos), Access(8))
      ensures pos == old(pos) + if ok then 8 else 0
      ensures ok ==> Image(val, 8) == data[..][old(pos)..pos]
    {
      var n;
      ok, n := ReadUint(8);
      Width8();
      val := if ok then n else 0;
      if ok {
        ImageOfValue(data[..][old(pos)..pos]);
      }
    }

    method Shift(val: Int64) returns (ok: bool)
      requires Valid() && pos + val < TWO_63
      modifies this
      ensures Valid() && ok == (0 <= old(pos) + val < data.Length)
      ensures pos == After(data.Length, old(pos), Move.Shift(val))
      ensures pos == old(pos) + if ok then val else 0
    {
      if AsSize(pos + val) >= data.Length {
        return false;
      }
      pos := pos + val;
      return true;
    }

    method ShiftFromStart(val: Word32) returns (ok: bool)
      requires Valid()
      modifies this
      ensures Valid() && ok == (val < data.Length)
      ensures pos == After(data.Length, old(pos), Move.ShiftFromStart(val))
      ensures pos == if ok then val else old(pos)
    {
      if val >= data.Length {
        return false;
      }
      pos := val;
      return true;
    }

    /** `getRemainingSize` returns `uint32_t`: exact unless 4 GiB or more remain. */
    function GetRemainingSize(): (r: Word32)
      requires Valid()
      reads this
      ensures r == data.Length - pos <==> data.Length - pos < TWO_32
    {
      (data.Length - pos) % TWO_32
    }
  }

  lemma Width4()
    ensures Pow256(4) == TWO_32
  {
    assert Pow256(2) == 0x1_0000;
    assert Pow256(3) == 0x100_0000;
  }

  lemma Width8()
    ensures Pow256(8) == TWO_64
  {
    Width4();
    assert Pow256(5) == 0x100_0000_0000;
    assert Pow256(6) == 0x1_0000_0000_0000;
    assert Pow256(7) == 0x100_0000_0000_0000;
  }

  // ---------------------------------------------------------------- MemWriter

  function Overwritten(s: Bytes, at: nat, bytes: Bytes): Bytes
    requires at + |bytes| <= |s|
  {
    s[..at] + bytes + s[at + |bytes|..]
  }

  class MemWriter {
    const data: array<Byte>
    var pos: nat

    ghost predicate Valid()
      reads this
    {
      pos <= data.Length < TWO_63
    }

    constructor (data: array<Byte>)
      requires data.Length < TWO_63
      ensures this.data == data && pos == 0 && Valid()
    {
      this.data, pos := data, 0;
    }

    method WriteData(bytes: Bytes) returns (ok: bool)
      requires Valid() && |bytes| < TWO_63
      modifies this, data
      ensures Valid() && ok == (old(pos) + |bytes| <= data.Length)
      ensures pos == After(data.Length, old(pos), Access(|bytes|))
      ensures pos == old(pos) + if ok then |bytes| else 0
      ensures data[..] == if ok then Overwritten(old(data[..]), old(pos), bytes)
                          else old(data[..])
    {
      if AsSize(pos + |bytes|) > data.Length {
        return false;
      }
      ghost var was := data[..];
      forall i | 0 <= i < |bytes| {
        data[pos + i] := bytes[i];
      }
      assert data[..] == was[..pos] + bytes + was[pos + |bytes|..];
      pos := pos + |bytes|;
      return true;
    }

    method WriteUint8(val: Byte) returns (ok: bool)
      requires Valid()
      modifies this, data
      ensures Valid() && ok == (old(pos) + 1 <= data.Length)
      ensures pos == After(data.Length, old(pos), Access(1))
      ensures pos == old(pos) + if ok then 1 else 0
      ensures data[..] == if ok then Overwritten(old(data[..]), old(pos), Image(val, 1))
                          else old(data[..])
    {
      ok := WriteData(Image(val, 1));
    }

    method WriteUint16(val: Word) returns (ok: bool)
      requires Valid()
      modifies this, data
      ensures Valid() && ok == (old(pos) + 2 <= data.Length)
      ensures pos == After(data.Length, old(pos), Access(2))
      ensures pos == old(pos) + if ok then 2 else 0
      ensures data[..] == if ok then Overwritten(old(data[..]), old(pos), Image(val, 2))
                          else old(data[..])
    {
      ok := WriteData(Image(val, 2));
    }

    method WriteUint32(val: Word32) returns (ok: bool)
      requires Valid()
      modifies this, data
      ensures Valid() && ok == (old(pos) + 4 <= data.Length)
      ensures pos == After(data.Length, old(pos), Access(4))
      ensures pos == old(pos) + if ok then 4 else 0
      ensures data[..] == if ok then Overwritten(old(data[..]), old(pos), Image(val, 4))
                          else old(data[..])
    {
      ok := WriteData(Image(val, 4));
    }

    method WriteUint64(val: Word64) returns (ok: bool)
      requires Valid()
      modifies this, data
      ensures Valid() && ok == (old(pos) + 8 <= data.Length)
      ensures pos == After(data.Length, old(pos), Access(8))
      ensures pos == old(pos) + if ok then 8 else 0
      ensures data[..] == if ok then Overwritten(old(data[..]), old(pos), Image(val, 8))
                          else old(data[..])
    {
      ok := WriteData(Image(val, 8));
    }

    method ShiftFromStart(val: Word32) returns (ok: bool)
      requires Valid()
      modifies this
      ensures Valid() && ok == (val < data.Length)
      ensures pos == After(data.Length, old(pos), Move.ShiftFromStart(val))
      ensures pos == if ok then val else old(pos)
    {
      if val >= data.Length {
        return false;
      }
      pos := val;
      return true;
    }
  }

  // ---------------------------------------------------------------- typed round trip

  datatype Scalar = U8(b: Byte) | U16(w: Word) | U32(d: Word32) | U64(q: Word64) | Raw(bytes: Bytes)

  datatype ScalarKind = Kind8 | Kind16 | Kind32 | Kind64 | KindRaw(n: nat)

  function KindOf(s: Scalar): ScalarKind {
    match s
    case U8(_) => Kind8
    case U16(_) => Kind16
    case U32(_) => Kind32
    case U64(_) => Kind64
    case Raw(bytes) => KindRaw(|bytes|)
  }

  function Width(kind: ScalarKind): nat {
    match kind
    case Kind8 => 1
    case Kind16 => 2
    case Kind32 => 4
    case Kind64 => 8
    case KindRaw(n) => n
  }

  function ScalarImage(s: Scalar): (r: Bytes)
    ensures |r| == Width(KindOf(s))
  {
    match s
    case U8(b) => Image(b, 1)
    case U16(w) => Image(w, 2)
    case U32(d) => Image(d, 4)
    case U64(q) => Image(q, 8)
    case Raw(bytes) => bytes
  }

  lemma ScalarsInBytes(b: Byte, w: Word, d: Word32, bytes: Bytes)
    ensures ScalarImage(U8(b)) == [b] && ScalarImage(Raw(bytes)) == bytes
    ensures ScalarImage(U16(w)) == [w % 0x100, w / 0x100]
    ensures ScalarImage(U32(d)) == [d % 0x100, d / 0x100 % 0x100, d / 0x1_0000 % 0x100, d / 0x100_0000]
  {
    OneByte(b);
    TwoBytes(w);
    FourBytes(d);
  }

  /** Where value `i` starts when the values follow one another from offset `at`. */
  function Offset(at: nat, vs: seq<Scalar>, i: nat): nat
    requires i <= |vs|
  {
    if i == 0 then at else Offset(at, vs, i - 1) + Width(KindOf(vs[i - 1]))
  }

  lemma {:induction false} OffsetMonotone(at: nat, vs: seq<Scalar>, i: nat, j: nat)
    requires i <= j <= |vs|
    ensures Offset(at, vs, i) <= Offset(at, vs, j)
    decreases j
  {
    if i == j {
    } else {
      OffsetMonotone(at, vs, i, j - 1);
    }
  }

  predicate FieldIn(s: Bytes, at: nat, vs: seq<Scalar>, i: nat)
    requires i < |vs|
  {
    Offset(at, vs, i + 1) <= |s| && s[Offset(at, vs, i)..Offset(at, vs, i + 1)] == ScalarImage(vs[i])
  }

  /** The first `n` values lie one after the other in `s` from `at` on. */
  predicate FieldsIn(s: Bytes, at: nat, vs: seq<Scalar>, n: nat)
    requires n <= |vs|
  {
    forall i :: 0 <= i < n ==> FieldIn(s, at, vs, i)
  }

  /** The bytes are there, and every other byte is as before. */
  lemma OverwrittenExactly(s: Bytes, at: nat, bytes: Bytes, t: Bytes)
    requires at + |bytes| <= |s|
    ensures t == Overwritten(s, at, bytes) <==>
            |t| == |s| && t[at..at + |bytes|] == bytes
            && forall i :: 0 <= i < |s| && (i < at || i >= at + |bytes|) ==> t[i] == s[i]
  {
    if |t| == |s| && t[at..at + |bytes|] == bytes
       && forall i :: 0 <= i < |s| && (i < at || i >= at + |bytes|) ==> t[i] == s[i] {
      assert t == t[..at] + t[at..at + |bytes|] + t[at + |bytes|..];
      assert t[..at] == s[..at] && t[at + |bytes|..] == s[at + |bytes|..];
    }
  }

  lemma BeforeOverwrite(s: Bytes, at: nat, bytes: Bytes, i: nat, j: nat)
    requires at + |bytes| <= |s| && i <= j <= at
    ensures Overwritten(s, at, bytes)[i..j] == s[i..j]
    ensures Overwritten(s, at, bytes)[at..at + |bytes|] == bytes
  {
  }

  lemma WritingAddsField(s: Bytes, at: nat, vs: seq<Scalar>, n: nat)
    requires n < |vs| && FieldsIn(s, at, vs, n) && Offset(at, vs, n + 1) <= |s|
    ensures FieldsIn(Overwritten(s, Offset(at, vs, n), ScalarImage(vs[n])), at, vs, n + 1)
  {
    var t := Overwritten(s, Offset(at, vs, n), ScalarImage(vs[n]));
    BeforeOverwrite(s, Offset(at, vs, n), ScalarImage(vs[n]), 0, 0);
    forall i: nat | i < n + 1
      ensures FieldIn(t, at, vs, i)
    {
      if i < n {
        OffsetMonotone(at, vs, i + 1, n);
        assert FieldIn(s, at, vs, i);
        BeforeOverwrite(s, Offset(at, vs, n), ScalarImage(vs[n]), Offset(at, vs, i), Offset(at, vs, i + 1));
      }
    }
  }

  predicate Storable(vs: seq<Scalar>) {
    forall i :: 0 <= i < |vs| ==> Width(KindOf(vs[i])) < TWO_63
  }

  method WriteScalar(writer: MemWriter, v: Scalar) returns (ok: bool)
    requires writer.Valid() && Width(KindOf(v)) < TWO_63
    modifies writer, writer.data
    ensures writer.Valid() && ok == (old(writer.pos) + Width(KindOf(v)) <= writer.data.Length)
    ensures writer.pos == After(writer.data.Length, old(writer.pos), Access(Width(KindOf(v))))
    ensures writer.data[..] ==
            if ok then Overwritten(old(writer.data[..]), old(writer.pos), ScalarImage(v))
            else old(writer.data[..])
  {
    match v {
      case U8(b) => ok := writer.WriteUint8(b);
      case U16(w) => ok := writer.WriteUint16(w);
      case U32(d) => ok := writer.WriteUint32(d);
      case U64(q) => ok := writer.WriteUint64(q);
      case Raw(bytes) => ok := writer.WriteData(bytes);
    }
  }

  lemma {:induction false} ImageInjective(a: nat, b: nat, k: nat)
    requires a < Pow256(k) && b < Pow256(k) && Image(a, k) == Image(b, k)
    ensures a == b
  {
    ValueOfImage(a, k);
    ValueOfImage(b, k);
  }

  /** Values of one type have different images. */
  lemma ScalarImageInjective(a: Scalar, b: Scalar)
    requires KindOf(a) == KindOf(b) && ScalarImage(a) == ScalarImage(b)
    ensures a == b
  {
    assert Pow256(0) == 1 && Pow256(1) == 0x100 && Pow256(2) == 0x1_0000;
    Width4();
    Width8();
    match a
    case U8(x) => ImageInjective(x, b.b, 1);
    case U16(x) => ImageInjective(x, b.w, 2);
    case U32(x) => ImageInjective(x, b.d, 4);
    case U64(x) => ImageInjective(x, b.q, 8);
    case Raw(_) =>
  }

  /** Reads a value of the given type. */
  method ReadScalar(reader: MemReader, kind: ScalarKind) returns (ok: bool, v: Scalar)
    requires reader.Valid() && Width(kind) < TWO_63
    modifies reader
    ensures reader.Valid() && ok == (old(reader.pos) + Width(kind) <= reader.data.Length)
    ensures reader.pos == After(reader.data.Length, old(reader.pos), Access(Width(kind)))
    ensures ok ==> KindOf(v) == kind && ScalarImage(v) == reader.data[..][old(reader.pos)..reader.pos]
  {
    match kind {
      case Kind8 =>
        var x;
        ok, x := reader.ReadUint8();
        v := U8(x);
      case Kind16 =>
        var x;
        ok, x := reader.ReadUint16();
        v := U16(x);
      case Kind32 =>
        var x;
        ok, x := reader.ReadUint32();
        v := U32(x);
      case Kind64 =>
        var x;
        ok, x := reader.ReadUint64();
        v := U64(x);
      case KindRaw(n) =>
        var x;
        ok, x := reader.ReadData(n);
        v := Raw(x);
    }
  }

  method WriteAll(writer: MemWriter, vs: seq<Scalar>) returns (ok: bool)
    requires writer.Valid() && Storable(vs)
    modifies writer, writer.data
    ensures writer.Valid() && ok == (Offset(old(writer.pos), vs, |vs|) <= writer.data.Length)
    ensures ok ==> writer.pos == Offset(old(writer.pos), vs, |vs|)
    ensures ok ==> FieldsIn(writer.data[..], old(writer.pos), vs, |vs|)
  {
    ghost var at := writer.pos;
    var i := 0;
    while i < |vs|
      invariant 0 <= i <= |vs| && writer.Valid() && writer.pos == Offset(at, vs, i)
      invariant FieldsIn(writer.data[..], at, vs, i)
    {
      ghost var before := writer.data[..];
      ok := WriteScalar(writer, vs[i]);
      if !ok {
        OffsetMonotone(at, vs, i + 1, |vs|);
        return;
      }
      WritingAddsField(before, at, vs, i);
      i := i + 1;
    }
    return true;
  }

  method ReadAll(reader: MemReader, kinds: seq<ScalarKind>, ghost vs: seq<Scalar>) returns (back: seq<Scalar>)
    requires reader.Valid() && Storable(vs)
    requires |kinds| == |vs| && forall i :: 0 <= i < |vs| ==> kinds[i] == KindOf(vs[i])
    requires FieldsIn(reader.data[..], reader.pos, vs, |vs|)
    modifies reader
    ensures back == vs && reader.Valid() && reader.pos == Offset(old(reader.pos), vs, |vs|)
  {
    ghost var at := reader.pos;
    back := [];
    var i := 0;
    while i < |kinds|
      invariant 0 <= i <= |vs| && reader.Valid() && reader.pos == Offset(at, vs, i)
      invariant |back| == i && forall j :: 0 <= j < i ==> back[j] == vs[j]
    {
      assert FieldIn(reader.data[..], at, vs, i);
      var ok, v := ReadScalar(reader, kinds[i]);
      assert ok && reader.pos == Offset(at, vs, i + 1);
      ScalarImageInjective(v, vs[i]);
      back := back + [v];
      i := i + 1;
    }
  }

  /** Whatever sequence of typed values is written successfully from an offset on, reading
      the same types from there gives the same values. */
  method WriteThenRead(data: array<Byte>, at: Word32, vs: seq<Scalar>) returns (fits: bool, back: seq<Scalar>)
    requires data.Length < TWO_63 && Storable(vs)
    modifies data
    ensures fits == (at < data.Length && Offset(at, vs, |vs|) <= data.Length)
    ensures fits ==> back == vs
  {
    var writer := new MemWriter(data);
    fits := writer.ShiftFromStart(at);
    back := [];
    if fits {
      fits := WriteAll(writer, vs);
    }
    if fits {
      var reader := new MemReader(data);
      var ok := reader.SetPos(at);
      back := ReadAll(reader, seq(|vs|, i requires 0 <= i < |vs| => KindOf(vs[i])), vs);
    }
  }
}
