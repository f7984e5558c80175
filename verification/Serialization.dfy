/** Reading typed values, length-prefixed strings and nested vectors from a cursor
    (src/libratel/Serialization.h, src/libratel/Serialization.cpp). */
module Serialization {
  import opened Wrappers
  import opened SocksTypes
  import opened HostBytes
  import opened MemCursor

  /** The types that `Serialize::read` is instantiated with; the template picks the
      overload from the static type, here it is an argument. */
  datatype Ty = U8Ty | U16Ty | U32Ty | StringTy | VectorTy(elem: Ty)

  datatype Val = U8Val(b: Byte) | U16Val(w: Word) | U32Val(d: Word32) | StringVal(s: Bytes) | VectorVal(items: seq<Val>)

  predicate HasType(v: Val, ty: Ty)
    decreases ty, 0
  {
    match ty
    case U8Ty => v.U8Val?
    case U16Ty => v.U16Val?
    case U32Ty => v.U32Val?
    case StringTy => v.StringVal? && |v.s| < 0x1_0000
    case VectorTy(elem) =>
      v.VectorVal? && |v.items| < 0x1_0000 && AllHaveType(v.items, elem)
  }

  predicate AllHaveType(vs: seq<Val>, elem: Ty)
    decreases elem, 1
  {
    forall i :: 0 <= i < |vs| ==> HasType(vs[i], elem)
  }

  function WireImage(v: Val): Bytes
    decreases v
  {
    match v
    case U8Val(b) => [b]
    case U16Val(w) => WordImage(w)
    case U32Val(d) => Image(d, 4)
    case StringVal(s) => Image(|s|, 2) + s
    case VectorVal(items) => Image(|items|, 2) + WireImages(items)
  }

  function WireImages(vs: seq<Val>): Bytes
    decreases vs
  {
    if |vs| == 0 then [] else WireImage(vs[0]) + WireImages(vs[1..])
  }

  /** The wire images in plain bytes; a string or vector follows its length. */
  lemma ImagesInBytes(b: Byte, w: Word, d: Word32, s: Bytes, items: seq<Val>, v: Val)
    ensures WireImage(U8Val(b)) == [b]
    ensures WireImage(U16Val(w)) == [w % 0x100, w / 0x100]
    ensures WireImage(U32Val(d)) == [d % 0x100, d / 0x100 % 0x100, d / 0x1_0000 % 0x100, d / 0x100_0000]
    ensures |s| < 0x1_0000 ==> WireImage(StringVal(s)) == [|s| % 0x100, |s| / 0x100] + s
    ensures WireImage(VectorVal([])) == [0, 0]
    ensures |items| < 0xffff ==>
              var n := |items| + 1;
              WireImage(VectorVal([v] + items))
              == [n % 0x100, n / 0x100] + (WireImage(v) + WireImage(VectorVal(items))[2..])
  {
    TwoBytes(w);
    FourBytes(d);
    TwoBytes(0);
    if |s| < 0x1_0000 {
      TwoBytes(|s|);
    }
    if |items| < 0xffff {
      TwoBytes(|items| + 1);
      assert ([v] + items)[1..] == items;
      assert WireImage(VectorVal(items))[2..] == WireImages(items);
    }
  }

  predicate StoredAt(s: Bytes, pos: nat, image: Bytes) {
    pos + |image| <= |s| && s[pos..pos + |image|] == image
  }

  lemma StoredSum(s: Bytes, pos: nat, a: Bytes, b: Bytes)
    ensures StoredAt(s, pos, a + b) <==> StoredAt(s, pos, a) && StoredAt(s, pos + |a|, b)
  {
    if pos + |a| + |b| <= |s| {
      var whole := s[pos..pos + |a + b|];
      assert whole == s[pos..pos + |a|] + s[pos + |a|..pos + |a| + |b|];
      assert whole[..|a|] == s[pos..pos + |a|] && whole[|a|..] == s[pos + |a|..pos + |a| + |b|];
      assert (a + b)[..|a|] == a && (a + b)[|a|..] == b;
    }
  }

  // ---------------------------------------------------------------- what is read

  /** `end` is where the cursor is left, also when the read fails halfway. */
  datatype Parsed<T> = Parsed(value: Option<T>, end: nat)

  function ParseWord(s: Bytes, pos: nat): (r: Parsed<Word>) {
    if pos + 2 > |s| then Parsed(None, pos) else Parsed(Some(WordValue(s[pos..pos + 2])), pos + 2)
  }

  function Word32Value(s: Bytes): Word32
    requires |s| == 4
  {
    Width4();
    Value(s)
  }

  function ParseValue(ty: Ty, s: Bytes, pos: nat): (r: Parsed<Val>)
    decreases ty, 0, 0
  {
    match ty
    case U8Ty =>
      if pos + 1 > |s| then Parsed(None, pos) else Parsed(Some(U8Val(s[pos])), pos + 1)
    case U16Ty => (
      match ParseWord(s, pos)
      case Parsed(None, end) => Parsed(None, end)
      case Parsed(Some(w), end) => Parsed(Some(U16Val(w)), end))
    case U32Ty =>
      if pos + 4 > |s| then Parsed(None, pos)
      else Parsed(Some(U32Val(Word32Value(s[pos..pos + 4]))), pos + 4)
    case StringTy => (
      match ParseWord(s, pos)
      case Parsed(None, end) => Parsed(None, end)
      case Parsed(Some(n), end) =>
        if end + n > |s| then Parsed(None, end) else Parsed(Some(StringVal(s[end..end + n])), end + n))
    case VectorTy(elem) => (
      match ParseWord(s, pos)
      case Parsed(None, end) => Parsed(None, end)
      case Parsed(Some(n), end) => AsVector(ParseItems(elem, s, end, n)))
  }

  function AsVector(r: Parsed<seq<Val>>): Parsed<Val> {
    match r
    case Parsed(None, end) => Parsed(None, end)
    case Parsed(Some(items), end) => Parsed(Some(VectorVal(items)), end)
  }

  function Preceded(first: Val, r: Parsed<seq<Val>>): Parsed<seq<Val>> {
    match r
    case Parsed(None, end) => Parsed(None, end)
    case Parsed(Some(rest), end) => Parsed(Some([first] + rest), end)
  }

  function ParseItems(elem: Ty, s: Bytes, pos: nat, n: nat): (r: Parsed<seq<Val>>)
    decreases elem, 1, n
  {
    if n == 0 then Parsed(Some([]), pos)
    else
      match ParseValue(elem, s, pos)
      case Parsed(None, end) => Parsed(None, end)
      case Parsed(Some(v), end) => Preceded(v, ParseItems(elem, s, end, n - 1))
  }

  // ---------------------------------------------------------------- exactness

  lemma WordSound(s: Bytes, pos: nat)
    requires ParseWord(s, pos).value.Some?
    ensures ParseWord(s, pos).end == pos + 2 <= |s| && StoredAt(s, pos, WordImage(ParseWord(s, pos).value.value))
  {
    WordRoundTrip(0, s[pos..pos + 2]);
  }

  lemma WordComplete(w: Word, s: Bytes, pos: nat)
    requires StoredAt(s, pos, WordImage(w))
    ensures ParseWord(s, pos) == Parsed(Some(w), pos + 2)
  {
    WordRoundTrip(w, s[pos..pos + 2]);
  }

  /** A value of the type was read, and the bytes passed over are exactly its image; or
      nothing was, and the cursor is still inside the buffer. */
  predicate Sound(r: Parsed<Val>, ty: Ty, s: Bytes, pos: nat) {
    pos <= r.end <= |s| &&
    (r.value.Some? ==>
      HasType(r.value.value, ty) && r.end == pos + |WireImage(r.value.value)|
      && StoredAt(s, pos, WireImage(r.value.value)))
  }

  predicate SoundItems(r: Parsed<seq<Val>>, elem: Ty, s: Bytes, pos: nat, n: nat) {
    pos <= r.end <= |s| &&
    (r.value.Some? ==>
      |r.value.value| == n && AllHaveType(r.value.value, elem)
      && r.end == pos + |WireImages(r.value.value)| && StoredAt(s, pos, WireImages(r.value.value)))
  }

  lemma StringIsSound(s: Bytes, pos: nat)
    requires pos <= |s|
    ensures Sound(ParseValue(StringTy, s, pos), StringTy, s, pos)
  {
    if ParseWord(s, pos).value.Some? {
      var n := ParseWord(s, pos).value.value;
      WordSound(s, pos);
      if pos + 2 + n <= |s| {
        StoredSum(s, pos, WordImage(n), s[pos + 2..pos + 2 + n]);
      }
    }
  }

  lemma VectorIsSound(r: Parsed<seq<Val>>, elem: Ty, s: Bytes, pos: nat, n: Word)
    requires StoredAt(s, pos, WordImage(n)) && SoundItems(r, elem, s, pos + 2, n)
    ensures Sound(AsVector(r), VectorTy(elem), s, pos)
  {
    if r.value.Some? {
      StoredSum(s, pos, WordImage(n), WireImages(r.value.value));
    }
  }

  lemma PrecededIsSound(first: Parsed<Val>, r: Parsed<seq<Val>>, elem: Ty, s: Bytes, pos: nat, n: nat)
    requires first.value.Some? && Sound(first, elem, s, pos) && SoundItems(r, elem, s, first.end, n)
    ensures SoundItems(Preceded(first.value.value, r), elem, s, pos, n + 1)
  {
    if r.value.Some? {
      ConsImages(first.value.value, r.value.value, elem);
      StoredSum(s, pos, WireImage(first.value.value), WireImages(r.value.value));
    }
  }

  lemma {:induction false} ReadIsSound(ty: Ty, s: Bytes, pos: nat)
    requires pos <= |s|
    ensures Sound(ParseValue(ty, s, pos), ty, s, pos)
    decreases ty, 0, 0
  {
    match ty
    case U8Ty =>
    case U16Ty =>
      if ParseWord(s, pos).value.Some? {
        WordSound(s, pos);
      }
    case U32Ty =>
      if pos + 4 <= |s| {
        ImageOfValue(s[pos..pos + 4]);
      }
    case StringTy => StringIsSound(s, pos);
    case VectorTy(elem) =>
      if ParseWord(s, pos).value.Some? {
        var n := ParseWord(s, pos).value.value;
        WordSound(s, pos);
        ItemsAreSound(elem, s, pos + 2, n);
        VectorIsSound(ParseItems(elem, s, pos + 2, n), elem, s, pos, n);
      }
  }

  lemma ConsImages(v: Val, vs: seq<Val>, elem: Ty)
    ensures WireImages([v] + vs) == WireImage(v) + WireImages(vs)
    ensures HasType(v, elem) && AllHaveType(vs, elem) ==> AllHaveType([v] + vs, elem)
  {
    assert ([v] + vs)[1..] == vs;
  }

  lemma {:induction false} ItemsAreSound(elem: Ty, s: Bytes, pos: nat, n: nat)
    requires pos <= |s|
    ensures SoundItems(ParseItems(elem, s, pos, n), elem, s, pos, n)
    decreases elem, 1, n
  {
    if n == 0 {
    } else {
      ReadIsSound(elem, s, pos);
      var first := ParseValue(elem, s, pos);
      if first.value.Some? {
        ItemsAreSound(elem, s, first.end, n - 1);
        PrecededIsSound(first, ParseItems(elem, s, first.end, n - 1), elem, s, pos, n - 1);
      }
    }
  }

  /** Wherever the image of a value of the type lies, reading returns that value and
      consumes exactly the image. */
  lemma {:induction false} ReadIsComplete(v: Val, ty: Ty, s: Bytes, pos: nat)
    requires HasType(v, ty) && StoredAt(s, pos, WireImage(v))
    ensures ParseValue(ty, s, pos) == Parsed(Some(v), pos + |WireImage(v)|)
    decreases ty, 0, 0
  {
    match ty
    case U8Ty =>
    case U16Ty =>
      WordComplete(v.w, s, pos);
    case U32Ty =>
      Width4();
      ValueOfImage(v.d, 4);
    case StringTy =>
      StoredSum(s, pos, WordImage(|v.s|), v.s);
      WordComplete(|v.s|, s, pos);
    case VectorTy(elem) =>
      StoredSum(s, pos, WordImage(|v.items|), WireImages(v.items));
      WordComplete(|v.items|, s, pos);
      ItemsAreComplete(v.items, elem, s, pos + 2);
  }

  lemma FirstItemStored(vs: seq<Val>, s: Bytes, pos: nat)
    requires |vs| > 0 && StoredAt(s, pos, WireImages(vs))
    ensures StoredAt(s, pos, WireImage(vs[0]))
    ensures StoredAt(s, pos + |WireImage(vs[0])|, WireImages(vs[1..]))
    ensures |WireImages(vs)| == |WireImage(vs[0])| + |WireImages(vs[1..])|
  {
    StoredSum(s, pos, WireImage(vs[0]), WireImages(vs[1..]));
  }

  lemma FirstItemParsed(vs: seq<Val>, elem: Ty, s: Bytes, pos: nat, mid: nat, end: nat)
    requires |vs| > 0 && ParseValue(elem, s, pos) == Parsed(Some(vs[0]), mid)
    requires ParseItems(elem, s, mid, |vs| - 1) == Parsed(Some(vs[1..]), end)
    ensures ParseItems(elem, s, pos, |vs|) == Parsed(Some(vs), end)
  {
    assert vs == [vs[0]] + vs[1..];
  }

  lemma {:induction false} ItemsAreComplete(vs: seq<Val>, elem: Ty, s: Bytes, pos: nat)
    requires AllHaveType(vs, elem)
    requires StoredAt(s, pos, WireImages(vs))
    ensures ParseItems(elem, s, pos, |vs|) == Parsed(Some(vs), pos + |WireImages(vs)|)
    decreases elem, 1, |vs|
  {
    if |vs| == 0 {
    } else {
      var mid := pos + |WireImage(vs[0])|;
      FirstItemStored(vs, s, pos);
      ReadIsComplete(vs[0], elem, s, pos);
      ItemsAreComplete(vs[1..], elem, s, mid);
      FirstItemParsed(vs, elem, s, pos, mid, pos + |WireImages(vs)|);
    }
  }

  function LengthIn(low: int, high: int): int {
    low + 0x100 * high
  }

  /** What a failed read has consumed: nothing when the length is missing, the length when the
      bytes of a string are. */
  lemma FailedReadConsumes(s: Bytes, pos: nat, elem: Ty)
    requires pos <= |s|
    ensures pos + 2 > |s| ==>
              ParseValue(StringTy, s, pos) == Parsed(None, pos)
              && ParseValue(VectorTy(elem), s, pos) == Parsed(None, pos)
    ensures pos + 2 <= |s| && pos + 2 + LengthIn(s[pos], s[pos + 1]) > |s| ==>
              ParseValue(StringTy, s, pos) == Parsed(None, pos + 2)
    ensures pos + 2 <= |s| && s[pos] == 0 && s[pos + 1] == 0 ==>
              ParseValue(VectorTy(elem), s, pos) == Parsed(Some(VectorVal([])), pos + 2)
  {
    if pos + 2 <= |s| {
      WordRoundTrip(0, s[pos..pos + 2]);
      TwoBytes(WordValue(s[pos..pos + 2]));
    }
  }

  /** Reading succeeds with `v` exactly when the image of `v` is what lies at the cursor;
      hence no image of a type is a proper prefix of another. */
  lemma ReadExactly(v: Val, ty: Ty, s: Bytes, pos: nat)
    requires pos <= |s|
    ensures ParseValue(ty, s, pos).value == Some(v) <==> HasType(v, ty) && StoredAt(s, pos, WireImage(v))
  {
    ReadIsSound(ty, s, pos);
    if HasType(v, ty) && StoredAt(s, pos, WireImage(v)) {
      ReadIsComplete(v, ty, s, pos);
    }
  }

  // ---------------------------------------------------------------- the readers

  method ReadString(reader: MemReader) returns (ok: bool, s: Bytes)
    requires reader.Valid()
    modifies reader
    ensures reader.Valid()
    ensures var r := ParseValue(StringTy, reader.data[..], old(reader.pos));
            ok == r.value.Some? && reader.pos == r.end && (ok ==> r.value.value == StringVal(s))
  {
    var size;
    ok, size := reader.ReadUint16();
    if !ok {
      return false, [];
    }
    WordRoundTrip(size, reader.data[..][old(reader.pos)..reader.pos]);
    ok, s := reader.ReadData(size);
  }

  /** What reading the remaining items gives once `items` have been read. */
  function Following(items: seq<Val>, r: Parsed<seq<Val>>): Parsed<seq<Val>> {
    match r
    case Parsed(None, end) => Parsed(None, end)
    case Parsed(Some(rest), end) => Parsed(Some(items + rest), end)
  }

  /** One round of the item loop. */
  lemma ItemRead(items: seq<Val>, elem: Ty, s: Bytes, pos: nat, n: nat)
    requires n > 0
    ensures var first, all := ParseValue(elem, s, pos), Following(items, ParseItems(elem, s, pos, n));
            match first.value
            case None => all == Parsed(None, first.end)
            case Some(v) => all == Following(items + [v], ParseItems(elem, s, first.end, n - 1))
  {
    var first := ParseValue(elem, s, pos);
    if first.value.Some? {
      var rest := ParseItems(elem, s, first.end, n - 1).value;
      if rest.Some? {
        assert items + ([first.value.value] + rest.value) == items + [first.value.value] + rest.value;
      }
    }
  }

  lemma NoItemsRead(items: seq<Val>, elem: Ty, s: Bytes, pos: nat)
    ensures Following(items, ParseItems(elem, s, pos, 0)) == Parsed(Some(items), pos)
  {
    assert items + [] == items;
  }

  lemma NothingBefore(r: Parsed<seq<Val>>)
    ensures Following([], r) == r
  {
    if r.value.Some? {
      assert [] + r.value.value == r.value.value;
    }
  }

  lemma VectorRead(elem: Ty, s: Bytes, pos: nat, n: Word)
    requires StoredAt(s, pos, WordImage(n))
    ensures ParseValue(VectorTy(elem), s, pos) == AsVector(ParseItems(elem, s, pos + 2, n))
  {
    WordComplete(n, s, pos);
  }

  lemma CountMissing(elem: Ty, s: Bytes, pos: nat)
    requires pos + 2 > |s|
    ensures ParseValue(VectorTy(elem), s, pos) == Parsed(None, pos)
  {
  }

  /** The item loop: each item is read into its place. */
  method ReadItems(reader: MemReader, elem: Ty, n: nat) returns (ok: bool, items: seq<Val>)
    requires reader.Valid()
    modifies reader
    ensures reader.Valid()
    ensures var r := ParseItems(elem, reader.data[..], old(reader.pos), n);
            ok == r.value.Some? && reader.pos == r.end && (ok ==> r.value == Some(items))
    decreases elem, 1
  {
    ghost var s := reader.data[..];
    ghost var whole := ParseItems(elem, s, reader.pos, n);
    items := [];
    NothingBefore(whole);
    var i := 0;
    while i < n
      invariant 0 <= i <= n && reader.Valid()
      invariant whole == Following(items, ParseItems(elem, s, reader.pos, n - i))
    {
      ItemRead(items, elem, s, reader.pos, n - i);
      var item;
      ok, item := Read(reader, elem);
      if !ok {
        return false, [];
      }
      items := items + [item];
      i := i + 1;
    }
    NoItemsRead(items, elem, s, reader.pos);
    return true, items;
  }

  /** The template for `std::vector`: a count, then that many items. */
  method ReadVector(reader: MemReader, elem: Ty) returns (ok: bool, items: seq<Val>)
    requires reader.Valid()
    modifies reader
    ensures reader.Valid()
    ensures var r := ParseValue(VectorTy(elem), reader.data[..], old(reader.pos));
            ok == r.value.Some? && reader.pos == r.end && (ok ==> r.value == Some(VectorVal(items)))
    decreases elem, 2
  {
    ghost var s, from := reader.data[..], reader.pos;
    var size;
    ok, size := reader.ReadUint16();
    if !ok {
      CountMissing(elem, s, from);
      return false, [];
    }
    VectorRead(elem, s, from, size);
    ok, items := ReadItems(reader, elem, size);
  }

  /** The overloads, by the static type of the value to fill. */
  method Read(reader: MemReader, ty: Ty) returns (ok: bool, v: Val)
    requires reader.Valid()
    modifies reader
    ensures reader.Valid()
    ensures var r := ParseValue(ty, reader.data[..], old(reader.pos));
            ok == r.value.Some? && reader.pos == r.end && (ok ==> r.value == Some(v))
    decreases ty, 0
  {
    ghost var s, from := reader.data[..], reader.pos;
    match ty {
      case U8Ty =>
        var b;
        ok, b := reader.ReadUint8();
        v := U8Val(b);
        if ok {
          ReadIsComplete(v, U8Ty, s, from);
        }
      case U16Ty =>
        var w;
        ok, w := reader.ReadUint16();
        v := U16Val(w);
        if ok {
          ReadIsComplete(v, U16Ty, s, from);
        }
      case U32Ty =>
        var d;
        ok, d := reader.ReadUint32();
        v := U32Val(d);
        if ok {
          ReadIsComplete(v, U32Ty, s, from);
        }
      case StringTy =>
        var str;
        ok, str := ReadString(reader);
        v := StringVal(str);
      case VectorTy(elem) =>
        var items;
        ok, items := ReadVector(reader, elem);
        v := VectorVal(items);
    }
  }
}
