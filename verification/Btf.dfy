/** Searching the kernel's BTF blob for a type by name. */
module Btf {
  import opened Prelude
  import opened Bytes

  const HEADER_SIZE: int := 24
  const TYPE_SIZE: int := 12

  function Kind(info: Word): (k: int)
    ensures 0 <= k < 32
  {
    info / 0x100_0000 % 0x20
  }

  function Vlen(info: Word): (v: int)
    ensures 0 <= v < 0x1_0000
  {
    info % 0x1_0000
  }

  /** How many bytes follow the fixed part of a type record. */
  function ExtraSize(kind: int, vlen: nat): nat {
    match kind
    case 1 => 4          // INT
    case 3 => 12         // ARRAY
    case 4 => vlen * 12  // STRUCT
    case 5 => vlen * 12  // UNION
    case 6 => vlen * 8   // ENUM
    case 13 => vlen * 8  // FUNC_PROTO
    case 14 => 4         // VAR
    case 15 => vlen * 12 // DATASEC
    case 17 => 4         // DECL_TAG
    case 19 => vlen * 12 // ENUM64
    case _ => 0
  }

  /** The string at an offset: up to the next zero byte or the end of the section. */
  function StringAt(strs: seq<Byte>, off: nat): seq<Byte>
    decreases |strs| - off
  {
    if off >= |strs| || strs[off] == 0 then [] else [strs[off]] + StringAt(strs, off + 1)
  }

  /** A name without zero bytes, followed by a zero byte or by the end of the section, reads
      back at its offset. */
  lemma {:induction false} NameReads(before: seq<Byte>, name: seq<Byte>, rest: seq<Byte>)
    requires (forall i :: 0 <= i < |name| ==> name[i] != 0) && (|rest| > 0 ==> rest[0] == 0)
    ensures StringAt(before + name + rest, |before|) == name
    decreases |name|
  {
    var s := before + name + rest;
    if |name| > 0 {
      NameReads(before + [name[0]], name[1..], rest);
      assert s == (before + [name[0]]) + name[1..] + rest;
      assert s[|before|] == name[0];
    }
  }

  /** What is read never contains a zero byte, and offsets outside the section read as empty. */
  lemma {:induction false} NoZeroRead(strs: seq<Byte>, off: nat)
    ensures forall i :: 0 <= i < |StringAt(strs, off)| ==> StringAt(strs, off)[i] != 0
    ensures off >= |strs| ==> StringAt(strs, off) == []
    decreases |strs| - off
  {
    if off < |strs| && strs[off] != 0 {
      NoZeroRead(strs, off + 1);
    }
  }

  /** Every outcome of the search; Panic is a slice whose bounds are out of order. */
  datatype Lookup = Found(id: int) | TooSmall | BadMagic | Truncated | NotFound | Panic

  /** The walk over the type section, from position pos and type number id. */
  function Walk(section: seq<Byte>, strs: seq<Byte>, name: seq<Byte>, pos: nat, id: nat): Lookup
    decreases |section| - pos
  {
    if pos + TYPE_SIZE > |section| then NotFound
    else if StringAt(strs, Le32(section, pos)) == name then Found(id)
    else
      var info := Le32(section, pos + 4);
      Walk(section, strs, name, pos + TYPE_SIZE + ExtraSize(Kind(info), Vlen(info)), id + 1)
  }

  /** Where the two sections begin and end. */
  datatype Header = Header(typeStart: Word, typeEnd: Word, strStart: Word, strEnd: Word)

  /** Addition of 32-bit words wraps around. */
  function Add32(x: Word, y: Word): Word {
    (x + y) % TWO_32
  }

  function Layout(hdrLen: Word, typeOff: Word, typeLen: Word, strOff: Word, strLen: Word): Header {
    Header(Add32(hdrLen, typeOff), Add32(Add32(hdrLen, typeOff), typeLen),
      Add32(hdrLen, strOff), Add32(Add32(hdrLen, strOff), strLen))
  }

  function ReadHeader(data: seq<Byte>): Header
    requires |data| >= HEADER_SIZE
  {
    Layout(Le32(data, 4), Le32(data, 8), Le32(data, 12), Le32(data, 16), Le32(data, 20))
  }

  function Find(data: seq<Byte>, name: seq<Byte>): Lookup {
    if |data| < HEADER_SIZE then TooSmall
    else if Le16(data, 0) != 0xeB9F then BadMagic
    else
      FindIn(data, ReadHeader(data), name)
  }

  function FindIn(data: seq<Byte>, h: Header, name: seq<Byte>): Lookup {
    if |data| % TWO_32 < h.typeEnd || |data| % TWO_32 < h.strEnd then Truncated
    else if h.typeStart > h.typeEnd || h.strStart > h.strEnd then Panic
    else
      LowBitsSmaller(|data|);
      Walk(data[h.typeStart..h.typeEnd], data[h.strStart..h.strEnd], name, 0, 1)
  }

  lemma LowBitsSmaller(n: nat)
    ensures n % TWO_32 <= n
    ensures n < TWO_32 ==> n % TWO_32 == n
  {
  }

  method GetString(strs: seq<Byte>, off: Word) returns (s: seq<Byte>)
    ensures s == StringAt(strs, off)
  {
    if off >= |strs| {
      return [];
    }
    var end: int := off;
    while end < |strs| && strs[end] != 0
      invariant off <= end <= |strs|
      invariant StringAt(strs, off) == strs[off..end] + StringAt(strs, end)
    {
      assert strs[off..end + 1] == strs[off..end] + [strs[end]];
      end := end + 1;
    }
    s := strs[off..end];
  }

  method FindBTFTypeByName(data: seq<Byte>, name: seq<Byte>) returns (r: Lookup)
    ensures r == Find(data, name)
  {
    if |data| < HEADER_SIZE {
      return TooSmall;
    }
    if Le16(data, 0) != 0xeB9F {
      return BadMagic;
    }
    var h := ReadHeader(data);
    if |data| % TWO_32 < h.typeEnd || |data| % TWO_32 < h.strEnd {
      return Truncated;
    }
    if h.typeStart > h.typeEnd || h.strStart > h.strEnd {
      return Panic;
    }
    LowBitsSmaller(|data|);
    var section, strs := data[h.typeStart..h.typeEnd], data[h.strStart..h.strEnd];
    r := WalkTypes(section, strs, name);
  }

  /** The loop of findBTFTypeByName; every record moves pos by at least twelve. */
  method WalkTypes(section: seq<Byte>, strs: seq<Byte>, name: seq<Byte>) returns (r: Lookup)
    ensures r == Walk(section, strs, name, 0, 1)
  {
    var typeID, pos := 1, 0;
    while pos + TYPE_SIZE <= |section|
      invariant pos >= 0 && typeID >= 1
      invariant Walk(section, strs, name, 0, 1) == Walk(section, strs, name, pos, typeID)
      decreases |section| - pos
    {
      var nameOff, info := Le32(section, pos), Le32(section, pos + 4);
      var typeName := GetString(strs, nameOff);
      if typeName == name {
        return Found(typeID);
      }
      pos := pos + TYPE_SIZE + ExtraSize(Kind(info), Vlen(info));
      typeID := typeID + 1;
    }
    return NotFound;
  }

  // ------------------------------------------------- encoded sequences of types

  type KindCode = x: int | 0 <= x < 32

  type Count16 = x: int | 0 <= x < 0x1_0000

  /** A type record as the format defines it; extra is the part after the fixed words. */
  datatype TypeRecord = TypeRecord(
    nameOff: Word,
    kindFlag: bool,
    kind: KindCode,
    vlen: Count16,
    sizeOrType: Word,
    extra: seq<Byte>)

  /** The info word: vlen in bits 0 to 15, kind in bits 24 to 28, the flag in bit 31. */
  function InfoWord(t: TypeRecord): Word {
    (if t.kindFlag then 0x8000_0000 else 0) + t.kind * 0x100_0000 + t.vlen
  }

  /** The walk reads kind and vlen from where the format puts them. */
  lemma InfoFields(t: TypeRecord)
    ensures Kind(InfoWord(t)) == t.kind && Vlen(InfoWord(t)) == t.vlen
  {
  }

  /** The 32-bit words after a record, by the structures the format lists for each
      kind: btf_array, btf_member and btf_var_secinfo, btf_enum64 have three words,
      btf_enum and btf_param two, and INT, VAR and DECL_TAG carry one. */
  function TrailingWords(kind: int, vlen: nat): Option<nat> {
    if kind in {1, 14, 17} then Some(1)
    else if kind == 3 then Some(3)
    else if kind in {4, 5, 15, 19} then Some(3 * vlen)
    else if kind in {6, 13} then Some(2 * vlen)
    else if kind in {2, 7, 8, 9, 10, 11, 12, 16, 18} then Some(0)
    else None
  }

  /** Kinds 1 to 19, followed by as many words as the format says. */
  predicate WellFormed(t: TypeRecord) {
    var words := TrailingWords(t.kind, t.vlen);
    words.Some? && |t.extra| == 4 * words.value
  }

  /** The extra part has the size by which the walk skips it. */
  predicate Sized(t: TypeRecord) {
    |t.extra| == ExtraSize(t.kind, t.vlen)
  }

  lemma WellFormedIsSized(t: TypeRecord)
    requires WellFormed(t)
    ensures Sized(t)
  {
  }

  function EncodeType(t: TypeRecord): (b: seq<Byte>)
    ensures |b| == TYPE_SIZE + |t.extra|
  {
    WordBytes(t.nameOff) + WordBytes(InfoWord(t)) + WordBytes(t.sizeOrType) + t.extra
  }

  function EncodeAll(types: seq<TypeRecord>): seq<Byte> {
    if |types| == 0 then [] else EncodeType(types[0]) + EncodeAll(types[1..])
  }

  /** The position of the first type with the name. */
  function FirstNamed(types: seq<TypeRecord>, strs: seq<Byte>, name: seq<Byte>): (k: nat)
    ensures k <= |types|
    ensures k < |types| ==> StringAt(strs, types[k].nameOff) == name
    ensures forall i :: 0 <= i < k ==> StringAt(strs, types[i].nameOff) != name
  {
    if |types| == 0 || StringAt(strs, types[0].nameOff) == name then 0 else 1 + FirstNamed(types[1..], strs, name)
  }

  /** The encoded type's two header words read back. */
  lemma RecordReads(prefix: seq<Byte>, t: TypeRecord, rest: seq<Byte>)
    ensures var s := prefix + EncodeType(t) + rest;
      && |s| >= |prefix| + TYPE_SIZE
      && Le32(s, |prefix|) == t.nameOff && Le32(s, |prefix| + 4) == InfoWord(t)
  {
    var s := prefix + EncodeType(t) + rest;
    var pos := |prefix|;
    assert s[pos..pos + 8] == WordBytes(t.nameOff) + WordBytes(InfoWord(t));
    WordRoundTrip(t.nameOff);
    WordRoundTrip(InfoWord(t));
  }

  /** On every encoded sequence of types, with fewer than twelve stray bytes after
      it, the walk returns the number of the first type with the name, counting
      from id, and NotFound exactly when there is none. */
  lemma {:induction false} WalkFindsFirst(types: seq<TypeRecord>, prefix: seq<Byte>, tail: seq<Byte>,
    strs: seq<Byte>, name: seq<Byte>, id: nat)
    requires forall i :: 0 <= i < |types| ==> Sized(types[i])
    requires |tail| < TYPE_SIZE
    ensures Walk(prefix + EncodeAll(types) + tail, strs, name, |prefix|, id) ==
      var k := FirstNamed(types, strs, name);
      if k < |types| then Found(id + k) else NotFound
    decreases |types|
  {
    if |types| > 0 {
      var t := types[0];
      var next := prefix + EncodeType(t);
      EncodeAssoc(types, prefix, tail);
      WalkOneRecord(prefix, t, EncodeAll(types[1..]) + tail, strs, name, id);
      if StringAt(strs, t.nameOff) != name {
        WalkFindsFirst(types[1..], next, tail, strs, name, id + 1);
      }
    }
  }

  lemma EncodeAssoc(types: seq<TypeRecord>, prefix: seq<Byte>, tail: seq<Byte>)
    requires |types| > 0
    ensures prefix + EncodeAll(types) + tail == prefix + EncodeType(types[0]) + (EncodeAll(types[1..]) + tail)
    ensures prefix + EncodeAll(types) + tail == (prefix + EncodeType(types[0])) + EncodeAll(types[1..]) + tail
  {
    Regroup(prefix, EncodeType(types[0]), EncodeAll(types[1..]), tail);
  }

  lemma Regroup(a: seq<Byte>, b: seq<Byte>, c: seq<Byte>, d: seq<Byte>)
    ensures a + (b + c) + d == a + b + (c + d)
    ensures a + (b + c) + d == (a + b) + c + d
  {
  }

  /** The walk either finds the record at hand or skips exactly over it. */
  lemma WalkOneRecord(prefix: seq<Byte>, t: TypeRecord, rest: seq<Byte>, strs: seq<Byte>, name: seq<Byte>, id: nat)
    requires Sized(t)
    ensures Walk(prefix + EncodeType(t) + rest, strs, name, |prefix|, id) ==
      if StringAt(strs, t.nameOff) == name then Found(id)
      else Walk(prefix + EncodeType(t) + rest, strs, name, |prefix + EncodeType(t)|, id + 1)
  {
    hide Kind, Vlen, InfoWord, ExtraSize, Compose, StringAt;
    RecordReads(prefix, t, rest);
    InfoFields(t);
  }

  /** The header places its two sections inside the blob, without wrapping. */
  ghost predicate Placed(data: seq<Byte>, typeStart: nat, typeEnd: nat, strStart: nat, strEnd: nat) {
    && HEADER_SIZE <= |data| < TWO_32
    && Le16(data, 0) == 0xeB9F
    && typeStart == Le32(data, 4) + Le32(data, 8) && typeEnd == typeStart + Le32(data, 12) <= |data|
    && strStart == Le32(data, 4) + Le32(data, 16) && strEnd == strStart + Le32(data, 20) <= |data|
  }

  /** The search over a whole blob that encodes a sequence of types (and may end in
      fewer than twelve stray bytes): the number of the first type of that name,
      counting from one, or NotFound. */
  lemma FindsFirst(data: seq<Byte>, typeStart: nat, typeEnd: nat, strStart: nat, strEnd: nat,
    types: seq<TypeRecord>, tail: seq<Byte>, name: seq<Byte>)
    requires Placed(data, typeStart, typeEnd, strStart, strEnd)
    requires data[typeStart..typeEnd] == EncodeAll(types) + tail && |tail| < TYPE_SIZE
    requires forall i :: 0 <= i < |types| ==> WellFormed(types[i])
    ensures Find(data, name) ==
      var k := FirstNamed(types, data[strStart..strEnd], name);
      if k < |types| then Found(k + 1) else NotFound
  {
    FindIsWalk(data, typeStart, typeEnd, strStart, strEnd, name);
    AllSized(types);
    WalkFromStart(types, tail, data[strStart..strEnd], name);
  }

  lemma WalkFromStart(types: seq<TypeRecord>, tail: seq<Byte>, strs: seq<Byte>, name: seq<Byte>)
    requires |tail| < TYPE_SIZE
    requires forall i :: 0 <= i < |types| ==> Sized(types[i])
    ensures Walk(EncodeAll(types) + tail, strs, name, 0, 1) ==
      var k := FirstNamed(types, strs, name);
      if k < |types| then Found(k + 1) else NotFound
  {
    hide Walk, FirstNamed;
    assert [] + EncodeAll(types) + tail == EncodeAll(types) + tail;
    WalkFindsFirst(types, [], tail, strs, name, 1);
  }

  lemma AllSized(types: seq<TypeRecord>)
    requires forall i :: 0 <= i < |types| ==> WellFormed(types[i])
    ensures forall i :: 0 <= i < |types| ==> Sized(types[i])
  {
    forall i | 0 <= i < |types| ensures Sized(types[i]) {
      WellFormedIsSized(types[i]);
    }
  }

  lemma FindIsWalk(data: seq<Byte>, typeStart: nat, typeEnd: nat, strStart: nat, strEnd: nat, name: seq<Byte>)
    requires Placed(data, typeStart, typeEnd, strStart, strEnd)
    ensures Find(data, name) == Walk(data[typeStart..typeEnd], data[strStart..strEnd], name, 0, 1)
  {
    PlacedHeader(data, typeStart, typeEnd, strStart, strEnd);
  }

  lemma PlacedHeader(data: seq<Byte>, typeStart: nat, typeEnd: nat, strStart: nat, strEnd: nat)
    requires Placed(data, typeStart, typeEnd, strStart, strEnd)
    ensures ReadHeader(data) == Header(typeStart, typeEnd, strStart, strEnd)
    ensures |data| % TWO_32 == |data|
  {
    LowBitsSmaller(|data|);
    NoWrap(Le32(data, 4), Le32(data, 8), Le32(data, 12), Le32(data, 16), Le32(data, 20));
  }

  lemma NoWrap(hdrLen: Word, typeOff: Word, typeLen: Word, strOff: Word, strLen: Word)
    requires hdrLen + typeOff + typeLen < TWO_32 && hdrLen + strOff + strLen < TWO_32
    ensures Layout(hdrLen, typeOff, typeLen, strOff, strLen) ==
      Header(hdrLen + typeOff, hdrLen + typeOff + typeLen, hdrLen + strOff, hdrLen + strOff + strLen)
  {
  }

  /** When the search gives up on the header: too few bytes, another magic number than 9F EB,
      or a section whose end, in 32-bit arithmetic, lies outside the blob. */
  lemma HeaderErrorsIff(data: seq<Byte>, name: seq<Byte>)
    ensures Find(data, name) == TooSmall <==> |data| < 24
    ensures |data| >= 24 ==> (Find(data, name) == BadMagic <==> !(data[0] == 0x9f && data[1] == 0xeb))
    ensures |data| >= 24 && data[0] == 0x9f && data[1] == 0xeb ==>
      (Find(data, name) == Truncated <==>
        || |data| % TWO_32 < (Le32(data, 4) + Le32(data, 8) + Le32(data, 12)) % TWO_32
        || |data| % TWO_32 < (Le32(data, 4) + Le32(data, 16) + Le32(data, 20)) % TWO_32)
  {
    hide Le32, Compose;
    if |data| >= 24 && data[0] == 0x9f && data[1] == 0xeb {
      var h := ReadHeader(data);
      WrapTwice(Le32(data, 4), Le32(data, 8), Le32(data, 12));
      WrapTwice(Le32(data, 4), Le32(data, 16), Le32(data, 20));
      LowBitsSmaller(|data|);
      if h.typeStart <= h.typeEnd <= |data| % TWO_32 && h.strStart <= h.strEnd <= |data| % TWO_32 {
        WalkNeverPanics(data[h.typeStart..h.typeEnd], data[h.strStart..h.strEnd], name, 0, 1);
      }
    }
  }

  lemma WrapTwice(x: Word, y: Word, z: Word)
    ensures Add32(Add32(x, y), z) == (x + y + z) % TWO_32
  {
  }

  /** The search panics exactly when both section ends, in 32-bit arithmetic, lie inside
      the blob although one of the sections really ends past 2^32. */
  lemma PanicsIffWrapped(data: seq<Byte>, name: seq<Byte>)
    ensures Find(data, name) == Panic <==>
      && |data| >= HEADER_SIZE && Le16(data, 0) == 0xeB9F
      && var h := ReadHeader(data);
      && h.typeEnd <= |data| % TWO_32 && h.strEnd <= |data| % TWO_32
      && (h.typeStart + Le32(data, 12) >= TWO_32 || h.strStart + Le32(data, 20) >= TWO_32)
  {
    if |data| >= HEADER_SIZE && Le16(data, 0) == 0xeB9F {
      LayoutPanics(data, ReadHeader(data), Le32(data, 12), Le32(data, 20), name);
    }
  }

  lemma LayoutPanics(data: seq<Byte>, h: Header, typeLen: Word, strLen: Word, name: seq<Byte>)
    requires h.typeEnd == Add32(h.typeStart, typeLen) && h.strEnd == Add32(h.strStart, strLen)
    ensures FindIn(data, h, name) == Panic <==>
      && h.typeEnd <= |data| % TWO_32 && h.strEnd <= |data| % TWO_32
      && (h.typeStart + typeLen >= TWO_32 || h.strStart + strLen >= TWO_32)
  {
    WrapsBelow(h.typeStart, typeLen);
    WrapsBelow(h.strStart, strLen);
    if h.typeStart <= h.typeEnd && h.strStart <= h.strEnd
      && h.typeEnd <= |data| % TWO_32 && h.strEnd <= |data| % TWO_32
    {
      LowBitsSmaller(|data|);
      WalkNeverPanics(data[h.typeStart..h.typeEnd], data[h.strStart..h.strEnd], name, 0, 1);
    }
  }

  /** A blob that is only a header: its type section starts behind the header and is
      2^32 - 1 bytes long. */
  const PANICKING_BLOB: seq<Byte> :=
    [0x9f, 0xeb, 1, 0, 24, 0, 0, 0, 0, 0, 0, 0, 0xff, 0xff, 0xff, 0xff, 0, 0, 0, 0, 0, 0, 0, 0]

  lemma BlobWords()
    ensures var d := PANICKING_BLOB;
      && |d| == 24 && Le16(d, 0) == 0xeB9F
      && Le32(d, 4) == 24 && Le32(d, 8) == 0 && Le32(d, 12) == TWO_32 - 1 && Le32(d, 16) == 0 && Le32(d, 20) == 0
  {
    hide Compose, Le32;
    var d := PANICKING_BLOB;
    WordOfBytes(d, 4, 24, 0);
    WordOfBytes(d, 8, 0, 0);
    WordOfBytes(d, 12, 0xff, 0xff);
    WordOfBytes(d, 16, 0, 0);
    WordOfBytes(d, 20, 0, 0);
  }

  lemma WordOfBytes(d: seq<Byte>, i: nat, low: Byte, others: Byte)
    requires i + 4 <= |d| && d[i] == low && d[i + 1] == d[i + 2] == d[i + 3] == others
    ensures Le32(d, i) == (low as int) + (others as int) * 0x101_0100
  {
  }

  /** Whatever name is looked up in it, the search panics. */
  lemma HeaderCanPanic(name: seq<Byte>)
    ensures Find(PANICKING_BLOB, name) == Panic
  {
    hide Walk, StringAt, Compose, Le16, Le32;
    BlobWords();
    assert ReadHeader(PANICKING_BLOB) == Header(24, 23, 24, 24);
  }

  lemma WrapsBelow(x: Word, y: Word)
    ensures Add32(x, y) < x <==> x + y >= TWO_32
  {
  }

  lemma {:induction false} WalkNeverPanics(s: seq<Byte>, strs: seq<Byte>, name: seq<Byte>, pos: nat, id: nat)
    ensures Walk(s, strs, name, pos, id).Found? || Walk(s, strs, name, pos, id) == NotFound
    decreases |s| - pos
  {
    hide Kind, Vlen, ExtraSize, Compose;
    if pos + TYPE_SIZE <= |s| && StringAt(strs, Le32(s, pos)) != name {
      var info := Le32(s, pos + 4);
      WalkNeverPanics(s, strs, name, pos + TYPE_SIZE + ExtraSize(Kind(info), Vlen(info)), id + 1);
    }
  }
}
