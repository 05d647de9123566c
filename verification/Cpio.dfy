/** The decoder of the "newc" cpio format, and the format itself as an encoder. */
module Cpio {
  import opened Bits

  type Byte = b: nat | b < 256

  datatype Error = MagicError | Utf8Error | ParseIntError | FileTypeError | FileNameError | BufferShortError

  datatype Result<T> = Ok(value: T) | Err(error: Error) {
    predicate IsFailure() { Err? }

    function PropagateFailure<U>(): Result<U>
      requires Err?
    {
      Err(error)
    }

    function Extract(): T
      requires Ok?
    {
      value
    }
  }

  // ---- Text ----

  predicate Continues(b: Byte) { 0x80 <= b <= 0xBF }

  /** How long a UTF-8 sequence with this first byte is (section 4 of RFC 3629), or 0 if there is none. */
  function LeadLength(b: Byte): nat {
    if b < 0x80 then 1
    else if 0xC2 <= b <= 0xDF then 2
    else if 0xE0 <= b <= 0xEF then 3
    else if 0xF0 <= b <= 0xF4 then 4
    else 0
  }

  /** What some first bytes demand of the second. */
  predicate SecondOk(first: Byte, second: Byte) {
    && (first == 0xE0 ==> second >= 0xA0) && (first == 0xED ==> second <= 0x9F)
    && (first == 0xF0 ==> second >= 0x90) && (first == 0xF4 ==> second <= 0x8F)
  }

  /** The string starts with a UTF-8 sequence of `n` bytes. */
  predicate StartsChar(s: seq<Byte>, n: nat) {
    && 0 < n <= |s| && LeadLength(s[0]) == n
    && (forall i | 1 <= i < n :: Continues(s[i])) && (n > 1 ==> SecondOk(s[0], s[1]))
  }

  /** `from_utf8` succeeds. */
  predicate IsUtf8(s: seq<Byte>)
    decreases |s|
  {
    s == [] || (var n := LeadLength(s[0]); StartsChar(s, n) && IsUtf8(s[n..]))
  }

  lemma {:induction false} AsciiIsUtf8(s: seq<Byte>)
    requires forall i | 0 <= i < |s| :: s[i] < 0x80
    ensures IsUtf8(s)
  {
    if s != [] { AsciiIsUtf8(s[1..]); }
  }

  // ---- Numbers ----

  /** The value of a hexadecimal digit in ASCII. */
  function DigitValue(b: Byte): Result<nat> {
    if 48 <= b <= 57 then Ok(b - 48)
    else if 65 <= b <= 70 then Ok(b - 55)
    else if 97 <= b <= 102 then Ok(b - 87)
    else Err(ParseIntError)
  }

  function DigitsValue(s: seq<Byte>): Result<nat> {
    if s == [] then Ok(0)
    else
      var v :- DigitsValue(s[..|s| - 1]);
      var d :- DigitValue(s[|s| - 1]);
      Ok(16 * v + d)
  }

  /** `read_hex_bytes_to_u32` on eight bytes; a plus sign in front is allowed, as in every number that Rust parses. */
  function ReadHex(s: seq<Byte>): Result<nat> {
    if !IsUtf8(s) then Err(Utf8Error)
    else if s != [] && s[0] == 43 then (if |s| == 1 then Err(ParseIntError) else DigitsValue(s[1..]))
    else if s == [] then Err(ParseIntError)
    else DigitsValue(s)
  }

  function HexDigit(d: nat): Byte
    requires d < 16
  {
    if d < 10 then 48 + d else 55 + d
  }

  /** `n` in `k` hexadecimal digits. */
  function ToHex(n: nat, k: nat): (s: seq<Byte>)
    ensures |s| == k
  {
    if k == 0 then [] else ToHex(n / 16, k - 1) + [HexDigit(n % 16)]
  }

  function Pow16(k: nat): nat { if k == 0 then 1 else 16 * Pow16(k - 1) }

  lemma {:induction false} HexRoundTrip(n: nat, k: nat)
    requires n < Pow16(k)
    ensures DigitsValue(ToHex(n, k)) == Ok(n)
    ensures k > 0 ==> ToHex(n, k)[0] != 43
    ensures forall i | 0 <= i < k :: ToHex(n, k)[i] < 0x80
  {
    if k > 0 {
      HexRoundTrip(n / 16, k - 1);
      var s := ToHex(n, k);
      assert s[..k - 1] == ToHex(n / 16, k - 1) && s[k - 1] == HexDigit(n % 16);
      if k > 1 { assert s[0] == ToHex(n / 16, k - 1)[0]; }
    }
  }

  /** The byte is the digit, in upper or lower case. */
  predicate SameDigit(b: Byte, digit: Byte) { b == digit || (65 <= digit <= 70 && b == digit + 32) }

  predicate SpelledAs(s: seq<Byte>, digits: seq<Byte>) {
    |s| == |digits| && forall i | 0 <= i < |s| :: SameDigit(s[i], digits[i])
  }

  lemma DigitIff(b: Byte, d: nat)
    ensures DigitValue(b) == Ok(d) <==> d < 16 && SameDigit(b, HexDigit(d))
  {
  }

  /** A string stands for a number exactly when it is the number's digits, each in upper or lower case. */
  lemma {:induction false} HexIff(s: seq<Byte>, n: nat)
    ensures DigitsValue(s) == Ok(n) <==> n < Pow16(|s|) && SpelledAs(s, ToHex(n, |s|))
    decreases |s|
  {
    if s != [] {
      var k, v := |s| - 1, n / 16;
      LastDigitIff(s, n, k, v);
      HexIff(s[..k], v);
      var digits := ToHex(n, |s|);
      assert digits[..k] == ToHex(v, k) && digits[k] == HexDigit(n % 16);
      SpelledSplit(s, digits, k);
    }
  }

  lemma {:induction false} LastDigitIff(s: seq<Byte>, n: nat, k: nat, v: nat)
    requires |s| == k + 1 && v == n / 16
    ensures DigitsValue(s) == Ok(n) <==> DigitsValue(s[..k]) == Ok(v) && SameDigit(s[k], HexDigit(n % 16))
    ensures n < Pow16(k + 1) <==> v < Pow16(k)
  {
    DigitIff(s[k], n % 16);
    if DigitValue(s[k]).Ok? { DigitIff(s[k], DigitValue(s[k]).value); }
  }

  lemma SpelledSplit(s: seq<Byte>, digits: seq<Byte>, k: nat)
    requires |s| == |digits| == k + 1
    ensures SpelledAs(s, digits) <==> SpelledAs(s[..k], digits[..k]) && SameDigit(s[k], digits[k])
  {
    if SpelledAs(s[..k], digits[..k]) && SameDigit(s[k], digits[k]) {
      forall i | 0 <= i < |s| ensures SameDigit(s[i], digits[i]) {
        if i < k { assert SameDigit(s[..k][i], digits[..k][i]); }
      }
    }
  }

  const TWO32: nat := 0x1_0000_0000

  lemma {:induction false} ReadBack(n: nat, k: nat)
    requires n < TWO32 && k == 8
    ensures ReadHex(ToHex(n, k)) == Ok(n)
  {
    assert Pow16(8) == TWO32;
    HexRoundTrip(n, k);
    AsciiIsUtf8(ToHex(n, k));
  }

  // ---- Padding ----

  /** `align_up_pad(size, 4)`. */
  function Pad(size: nat): nat { (4 - size % 4) % 4 }

  lemma PadAligns(size: nat)
    ensures Pad(size) < 4 && (size + Pad(size)) % 4 == 0
  {
  }

  /** The masking in `align_up` amounts to that. */
  lemma {:induction false} PadIsMask(size: nat, width: nat, w: nat)
    requires w == Pow2(width) && 4 < w && size + 3 < w
    ensures 3 < w && And(size + 3, Not(3, width)) == size + Pad(size)
  {
    assert Pow2(2) == 4;
    if width < 2 { Pow2Monotone(width, 2); }
    MaskRoundsUp(size, 2, width, 4, w);
  }

  lemma {:induction false} MaskRoundsUp(size: nat, k: nat, width: nat, p: nat, w: nat)
    requires p == Pow2(k) && w == Pow2(width) && k <= width && p == 4 && size + 3 < w
    ensures p - 1 < w && And(size + 3, Not(p - 1, width)) == size + Pad(size)
  {
    AndHighMask(size + 3, k, width, p, w);
    ShrLow(size + 3, k, p);
    PadOf(size, Shr(size + 3, k), Low(size + 3, k));
  }

  lemma PadOf(size: nat, q: nat, r: nat)
    requires size + 3 == 4 * q + r && r < 4
    ensures 3 - r == Pad(size)
  {
  }

  // ---- The format ----

  datatype FileType = FiFo | CharDev | Dir | BlockDev | File | Link | Socket

  function TypeCode(t: FileType): nat {
    match t
    case FiFo => 0x1000
    case CharDev => 0x2000
    case Dir => 0x4000
    case BlockDev => 0x6000
    case File => 0x8000
    case Link => 0xA000
    case Socket => 0xC000
  }

  /** `FileType::try_from`. */
  function TypeOf(code: nat): Result<FileType> {
    if code == 0x1000 then Ok(FiFo)
    else if code == 0x2000 then Ok(CharDev)
    else if code == 0x4000 then Ok(Dir)
    else if code == 0x6000 then Ok(BlockDev)
    else if code == 0x8000 then Ok(File)
    else if code == 0xA000 then Ok(Link)
    else if code == 0xC000 then Ok(Socket)
    else Err(FileTypeError)
  }

  datatype Metadata = Metadata(ino: nat, typ: FileType, mode: nat, uid: nat, gid: nat, nlink: nat, mtime: nat,
                               size: nat, devMaj: nat, devMin: nat, rdevMaj: nat, rdevMin: nat)

  const DEFAULT_METADATA := Metadata(0, File, 0, 0, 0, 0, 0, 0, 0, 0, 0, 0)

  const MAGIC: seq<Byte> := [48, 55, 48, 55, 48, 49]
  const TRAILER: seq<Byte> := [84, 82, 65, 73, 76, 69, 82, 33, 33, 33]
  const HEADER_LEN: nat := 110

  datatype Entry = Entry(meta: Metadata, name: seq<Byte>, data: seq<Byte>)

  /** The numbers of a header, in order. */
  function Fields(m: Metadata, nameSize: nat): seq<nat> {
    [m.ino, TypeCode(m.typ) + m.mode, m.uid, m.gid, m.nlink, m.mtime, m.size, m.devMaj, m.devMin, m.rdevMaj, m.rdevMin,
     nameSize, 0]
  }

  predicate MetadataOk(m: Metadata) {
    && m.mode < 0x1000
    && m.ino < TWO32 && m.uid < TWO32 && m.gid < TWO32 && m.nlink < TWO32 && m.mtime < TWO32 && m.size < TWO32
    && m.devMaj < TWO32 && m.devMin < TWO32 && m.rdevMaj < TWO32 && m.rdevMin < TWO32
  }

  predicate NameOk(name: seq<Byte>) { |name| + 1 < TWO32 && 0 !in name && IsUtf8(name) }

  predicate EntryOk(e: Entry) { MetadataOk(e.meta) && NameOk(e.name) && e.name != TRAILER && |e.data| == e.meta.size }

  function HexAll(fields: seq<nat>, k: nat): (s: seq<Byte>)
    ensures |s| == k * |fields|
  {
    if fields == [] then [] else HexAll(fields[..|fields| - 1], k) + ToHex(fields[|fields| - 1], k)
  }

  function Zeros(n: nat): (s: seq<Byte>)
    ensures |s| == n
  {
    seq(n, _ => 0)
  }

  /** Header, name and padding of an entry. */
  function EncodeHead(m: Metadata, name: seq<Byte>): seq<Byte> {
    MAGIC + HexAll(Fields(m, |name| + 1), 8) + (name + [0]) + Zeros(Pad(HEADER_LEN + |name| + 1))
  }

  function Encode(e: Entry): seq<Byte> { EncodeHead(e.meta, e.name) + (e.data + Zeros(Pad(|e.data|))) }

  function EncodeAll(es: seq<Entry>): seq<Byte> { Concat(Parts(es)) }

  function Parts(es: seq<Entry>): seq<seq<Byte>> { seq(|es|, i requires 0 <= i < |es| => Encode(es[i])) }

  function Concat(parts: seq<seq<Byte>>): seq<Byte> {
    if parts == [] then [] else Concat(parts[..|parts| - 1]) + parts[|parts| - 1]
  }

  lemma {:induction false} PartsPrefix(es: seq<Entry>, i: nat)
    requires i < |es|
    ensures EncodeAll(es[..i + 1]) == EncodeAll(es[..i]) + Encode(es[i])
    ensures Parts(es)[..i] == Parts(es[..i]) && Parts(es)[i] == Encode(es[i])
  {
    var parts := Parts(es[..i + 1]);
    assert parts[..i] == Parts(es[..i]) && parts[i] == Encode(es[i]);
  }

  /** Every entry starts at a multiple of four. */
  lemma {:induction false} EntriesAreAligned(es: seq<Entry>)
    ensures |EncodeAll(es)| % 4 == 0
  {
    if es != [] {
      var n := |es| - 1;
      EntriesAreAligned(es[..n]);
      EncodeLength(es[n]);
      PartsPrefix(es, n);
      assert es[..n + 1] == es;
      SumAligned(|EncodeAll(es[..n])|, |Encode(es[n])|);
    }
  }

  lemma SumAligned(a: nat, b: nat)
    requires a % 4 == 0 && b % 4 == 0
    ensures (a + b) % 4 == 0
  {
  }

  lemma {:induction false} EncodeLength(e: Entry)
    ensures |EncodeHead(e.meta, e.name)| == HeadLength(e.name)
    ensures |Encode(e)| == |EncodeHead(e.meta, e.name)| + |e.data| + Pad(|e.data|)
    ensures |Encode(e)| % 4 == 0
  {
    PadAligns(HEADER_LEN + |e.name| + 1);
    PadAligns(|e.data|);
    SumAligned(HEADER_LEN + |e.name| + 1 + Pad(HEADER_LEN + |e.name| + 1), |e.data| + Pad(|e.data|));
  }

  // ---- Reading an entry's head ----

  datatype Head = Head(meta: Metadata, name: seq<Byte>, dataPad: nat)

  /** The numbers in a header, as far as each can be read. */
  function FieldsOf(h: seq<Byte>): (f: seq<Result<nat>>)
    requires |h| == HEADER_LEN
    ensures |f| == 13
  {
    seq(13, i requires 0 <= i < 13 => ReadHex(h[6 + 8 * i..14 + 8 * i]))
  }

  /** `CStr::from_bytes_with_nul`, which wants one NUL, at the end, and then `to_str`. */
  function CName(s: seq<Byte>): Result<seq<Byte>> {
    if s == [] || s[|s| - 1] != 0 || 0 in s[..|s| - 1] then Err(FileNameError)
    else if !IsUtf8(s[..|s| - 1]) then Err(Utf8Error)
    else Ok(s[..|s| - 1])
  }

  /** The numbers from one place up to another. */
  function Numbers(f: seq<Result<nat>>, from: nat, end: nat): (r: Result<seq<nat>>)
    requires from <= end <= |f|
    ensures r.Ok? ==> |r.value| == end - from
  {
    if from == end then Ok([])
    else
      var vs :- Numbers(f, from, end - 1);
      var v :- f[end - 1];
      Ok(vs + [v])
  }

  /** `FileMetadata::new`: the mode is read first, then the inode number, then the type, and then the other numbers. */
  function MetadataOf(f: seq<Result<nat>>): Result<Metadata>
    requires |f| == 13
  {
    var rawMode :- f[1];
    var ino :- f[0];
    var typ :- TypeOf(And(rawMode, 0xF000));
    var b :- Numbers(f, 2, 11);
    Ok(Metadata(ino, typ, And(rawMode, 0xFFF), b[0], b[1], b[2], b[3], b[4], b[5], b[6], b[7], b[8]))
  }

  /** What `CpioEntry::new` makes of the bytes at a position: the head of an entry, and where its data starts. */
  function HeadAt(data: seq<Byte>, pos: nat): (r: Result<(Head, nat)>)
    ensures r.Ok? ==> r.value.1 <= |data|
  {
    if pos + HEADER_LEN > |data| then Err(BufferShortError)
    else HeadFrom(data, data[pos..pos + HEADER_LEN], pos + HEADER_LEN)
  }

  /** The same once the header is read. */
  function HeadFrom(data: seq<Byte>, h: seq<Byte>, pos: nat): (r: Result<(Head, nat)>)
    requires |h| == HEADER_LEN
    ensures r.Ok? ==> r.value.1 <= |data|
  {
    if h[..6] != MAGIC then Err(MagicError)
    else
      var f := FieldsOf(h);
      var nameSize :- f[11];
      if pos + nameSize > |data| then Err(BufferShortError)
      else
        var name :- CName(data[pos..pos + nameSize]);
        HeadNamed(data, f, name, pos + nameSize)
  }

  /** The same once the name is read. */
  function HeadNamed(data: seq<Byte>, f: seq<Result<nat>>, name: seq<Byte>, pos: nat): (r: Result<(Head, nat)>)
    requires |f| == 13
    ensures r.Ok? ==> r.value.1 <= |data|
  {
    var meta :- if name == TRAILER then Ok(DEFAULT_METADATA) else MetadataOf(f);
    var start := pos + Pad(HEADER_LEN + |name| + 1);
    if start > |data| then Err(BufferShortError) else Ok((Head(meta, name, Pad(meta.size)), start))
  }

  ghost predicate AllRead(f: seq<Result<nat>>, fields: seq<nat>) {
    |f| == |fields| == 13 && forall i | 0 <= i < 13 :: f[i] == Ok(fields[i])
  }

  /** The numbers of a header read back. */
  lemma {:induction false} FieldsRead(fields: seq<nat>, h: seq<Byte>)
    requires |fields| == 13 && h == MAGIC + HexAll(fields, 8) && forall i | 0 <= i < 13 :: fields[i] < TWO32
    ensures |h| == HEADER_LEN && AllRead(FieldsOf(h), fields)
  {
    assert |h| == HEADER_LEN;
    forall i | 0 <= i < 13 ensures FieldsOf(h)[i] == Ok(fields[i]) {
      HexSlice(fields, 8, i);
      assert h[6 + 8 * i..14 + 8 * i] == HexAll(fields, 8)[8 * i..8 * i + 8];
      ReadBack(fields[i], 8);
    }
  }

  lemma {:induction false} HexSlice(fields: seq<nat>, k: nat, i: nat)
    requires i < |fields| && k == 8
    ensures HexAll(fields, k)[8 * i..8 * i + 8] == ToHex(fields[i], k)
  {
    var n := |fields| - 1;
    var all := HexAll(fields, k);
    if i == n {
      assert all[8 * n..8 * n + 8] == ToHex(fields[n], k);
    } else {
      HexSlice(fields[..n], k, i);
      assert all[8 * i..8 * i + 8] == HexAll(fields[..n], k)[8 * i..8 * i + 8];
    }
  }

  /** The two parts of a mode. */
  lemma {:induction false} ModeSplits(code: nat, mode: nat, k: nat, width: nat, p: nat, w: nat)
    requires p == Pow2(k) && w == Pow2(width) && k <= width && p == 0x1000 && w == 0x1_0000
    requires code % 0x1000 == 0 && code < 0x1_0000 && mode < 0x1000
    ensures And(code + mode, p - 1) == mode && And(code + mode, w - p) == code
  {
    AndLowMask(code + mode, k, p);
    AndHighMask(code + mode, k, width, p, w);
    ShrLow(code + mode, k, p);
    RemainderIs(p, Shr(code + mode, k), Low(code + mode, k), code, mode);
  }

  lemma RemainderIs(p: nat, q: nat, r: nat, code: nat, mode: nat)
    requires p == 0x1000 && code + mode == p * q + r && r < p && code % 0x1000 == 0 && mode < p
    ensures r == mode
  {
  }

  lemma {:induction false} NumbersRead(f: seq<Result<nat>>, fields: seq<nat>, from: nat, end: nat)
    requires AllRead(f, fields) && from <= end <= 13
    ensures Numbers(f, from, end) == Ok(fields[from..end])
  {
    if from < end {
      NumbersRead(f, fields, from, end - 1);
      assert fields[from..end - 1] + [fields[end - 1]] == fields[from..end];
    } else {
      assert fields[from..end] == [];
    }
  }

  lemma {:induction false} MetadataFrom(m: Metadata, nameSize: nat, f: seq<Result<nat>>)
    requires MetadataOk(m) && AllRead(f, Fields(m, nameSize))
    ensures MetadataOf(f) == Ok(m)
  {
    var fields := Fields(m, nameSize);
    NumbersRead(f, fields, 2, 11);
    assert fields[2..11] == [m.uid, m.gid, m.nlink, m.mtime, m.size, m.devMaj, m.devMin, m.rdevMaj, m.rdevMin];
    ModeReads(m.typ, m.mode);
  }

  lemma {:induction false} MetadataReads(m: Metadata, nameSize: nat, h: seq<Byte>)
    requires MetadataOk(m) && nameSize < TWO32 && h == MAGIC + HexAll(Fields(m, nameSize), 8)
    ensures |h| == HEADER_LEN && h[..6] == MAGIC
    ensures FieldsOf(h)[11] == Ok(nameSize) && MetadataOf(FieldsOf(h)) == Ok(m)
  {
    forall i | 0 <= i < 13 ensures Fields(m, nameSize)[i] < TWO32 { SmallFields(m, nameSize, i); }
    FieldsRead(Fields(m, nameSize), h);
    MetadataFrom(m, nameSize, FieldsOf(h));
  }

  lemma {:induction false} ModePowers(k: nat, width: nat)
    requires k == 12 && width == 16
    ensures Pow2(k) == 0x1000 && Pow2(width) == 0x1_0000
  {
    Pow2Values();
  }

  lemma {:induction false} ModeReads(typ: FileType, mode: nat)
    requires mode < 0x1000
    ensures And(TypeCode(typ) + mode, 0xFFF) == mode && TypeOf(And(TypeCode(typ) + mode, 0xF000)) == Ok(typ)
  {
    var code := TypeCode(typ);
    TypeReads(typ, code);
    ModePowers(12, 16);
    ModeSplits(code, mode, 12, 16, 0x1000, 0x1_0000);
  }

  lemma TypeReads(typ: FileType, code: nat)
    requires code == TypeCode(typ)
    ensures code % 0x1000 == 0 && code < 0x1_0000 && TypeOf(code) == Ok(typ)
  {
  }

  lemma {:induction false} SmallFields(m: Metadata, nameSize: nat, i: nat)
    requires MetadataOk(m) && nameSize < TWO32 && i < 13
    ensures Fields(m, nameSize)[i] < TWO32
  {
  }

  /** The head of an encoded entry reads back; of the trailer only the name does. */
  lemma {:induction false} HeadReads(before: seq<Byte>, m: Metadata, name: seq<Byte>, after: seq<Byte>, data: seq<Byte>)
    requires MetadataOk(m) && NameOk(name) && data == before + EncodeHead(m, name) + after
    ensures var meta := if name == TRAILER then DEFAULT_METADATA else m;
            HeadAt(data, |before|) == Ok((Head(meta, name, Pad(meta.size)), |before| + HeadLength(name)))
  {
    var hex := MAGIC + HexAll(Fields(m, |name| + 1), 8);
    MetadataReads(m, |name| + 1, hex);
    HeadReadsFrom(before, hex, m, name, Zeros(Pad(HEADER_LEN + |name| + 1)), after, data);
  }

  lemma {:induction false} HeadReadsFrom(before: seq<Byte>, hex: seq<Byte>, m: Metadata, name: seq<Byte>,
                                         zeros: seq<Byte>, after: seq<Byte>, data: seq<Byte>)
    requires |hex| == HEADER_LEN && hex[..6] == MAGIC
    requires FieldsOf(hex)[11] == Ok(|name| + 1) && MetadataOf(FieldsOf(hex)) == Ok(m)
    requires 0 !in name && IsUtf8(name) && |zeros| == Pad(HEADER_LEN + |name| + 1)
    requires data == before + (hex + (name + [0]) + zeros) + after
    ensures var meta := if name == TRAILER then DEFAULT_METADATA else m;
            HeadAt(data, |before|) == Ok((Head(meta, name, Pad(meta.size)), |before| + HeadLength(name)))
  {
    ThreeParts(before, hex, name + [0], zeros, after, data);
    NameReads(name);
    HeadIs(data, |before|, hex, |name| + 1, name);
  }

  function HeadLength(name: seq<Byte>): nat { HEADER_LEN + (|name| + 1) + Pad(HEADER_LEN + |name| + 1) }

  lemma ThreeParts(before: seq<Byte>, a: seq<Byte>, b: seq<Byte>, c: seq<Byte>, after: seq<Byte>, data: seq<Byte>)
    requires data == before + (a + b + c) + after
    ensures var pos := |before|;
            && pos + |a| + |b| + |c| <= |data|
            && data[pos..pos + |a|] == a && data[pos + |a|..pos + |a| + |b|] == b
  {
  }

  lemma NameReads(name: seq<Byte>)
    requires 0 !in name && IsUtf8(name)
    ensures CName(name + [0]) == Ok(name)
  {
    assert (name + [0])[..|name|] == name;
  }

  /** `HeadAt` where the header and the name can be read. */
  lemma HeadIs(data: seq<Byte>, pos: nat, h: seq<Byte>, nameSize: nat, name: seq<Byte>)
    requires |h| == HEADER_LEN && pos + HEADER_LEN + nameSize + Pad(HEADER_LEN + |name| + 1) <= |data|
    requires data[pos..pos + HEADER_LEN] == h && h[..6] == MAGIC && FieldsOf(h)[11] == Ok(nameSize)
    requires CName(data[pos + HEADER_LEN..pos + HEADER_LEN + nameSize]) == Ok(name) && MetadataOf(FieldsOf(h)).Ok?
    ensures var meta := if name == TRAILER then DEFAULT_METADATA else MetadataOf(FieldsOf(h)).value;
            var start := pos + (HEADER_LEN + nameSize + Pad(HEADER_LEN + |name| + 1));
            HeadAt(data, pos) == Ok((Head(meta, name, Pad(meta.size)), start))
  {
  }

  // ---- The decoder ----

  class Decoder {
    const data: seq<Byte>
    var pos: nat
    var isError: bool

    constructor (data: seq<Byte>)
      ensures this.data == data && pos == 0 && !isError
    {
      this.data, pos, isError := data, 0, false;
    }

    /** `read_exact`. */
    method ReadExact(n: nat) returns (r: Result<seq<Byte>>)
      requires pos <= |data|
      modifies this`pos
      ensures pos <= |data|
      ensures r == if old(pos) + n <= |data| then Ok(data[old(pos)..old(pos) + n]) else Err(BufferShortError)
      ensures r.Ok? ==> pos == old(pos) + n
    {
      if pos + n > |data| { return Err(BufferShortError); }
      r := Ok(data[pos..pos + n]);
      pos := pos + n;
    }

    /** `CpioEntry::new`. */
    method NewEntry() returns (r: Result<Head>)
      requires pos <= |data|
      modifies this`pos
      ensures pos <= |data|
      ensures match HeadAt(data, old(pos))
              case Err(e) => r == Err(e)
              case Ok(v) => r == Ok(v.0) && pos == v.1
    {
      var h :- ReadExact(HEADER_LEN);
      r := NewFrom(h);
    }

    method NewFrom(h: seq<Byte>) returns (r: Result<Head>)
      requires pos <= |data| && |h| == HEADER_LEN
      modifies this`pos
      ensures pos <= |data|
      ensures match HeadFrom(data, h, old(pos))
              case Err(e) => r == Err(e)
              case Ok(v) => r == Ok(v.0) && pos == v.1
    {
      if h[..6] != MAGIC { return Err(MagicError); }
      var f := FieldsOf(h);
      var nameSize :- f[11];
      var nameBytes :- ReadExact(nameSize);
      var name :- CName(nameBytes);
      r := NewNamed(f, name);
    }

    method NewNamed(f: seq<Result<nat>>, name: seq<Byte>) returns (r: Result<Head>)
      requires pos <= |data| && |f| == 13
      modifies this`pos
      ensures pos <= |data|
      ensures match HeadNamed(data, f, name, old(pos))
              case Err(e) => r == Err(e)
              case Ok(v) => r == Ok(v.0) && pos == v.1
    {
      var meta := DEFAULT_METADATA;
      if name != TRAILER { meta :- MetadataOf(f); }
      var headPad := Pad(HEADER_LEN + |name| + 1);
      if headPad > 0 { var _ :- ReadExact(headPad); }
      return Ok(Head(meta, name, Pad(meta.size)));
    }

    /** `next`: it stops at the trailer, and after an error. */
    method Next() returns (r: NextResult)
      requires pos <= |data|
      modifies this
      ensures pos <= |data|
      ensures old(isError) ==> r == End && isError
      ensures !old(isError) ==>
                match HeadAt(data, old(pos))
                case Err(e) => r == Failed(e) && isError
                case Ok(v) => !isError && pos == v.1 && r == if v.0.name == TRAILER then End else Item(v.0)
    {
      if isError { return End; }
      var entry := NewEntry();
      if entry.Err? {
        isError := true;
        return Failed(entry.error);
      }
      return if entry.value.name == TRAILER then End else Item(entry.value);
    }

    /** `read_all`: the data of the entry, in pieces, and then its padding. */
    method ReadAll(head: Head) returns (r: Result<seq<Byte>>)
      requires pos <= |data|
      modifies this`pos
      ensures pos <= |data|
      ensures old(pos) + head.meta.size + head.dataPad <= |data| ==>
                r == Ok(data[old(pos)..old(pos) + head.meta.size]) && pos == old(pos) + head.meta.size + head.dataPad
      ensures old(pos) + head.meta.size + head.dataPad > |data| ==> r == Err(BufferShortError)
    {
      var out: seq<Byte> := [];
      while |out| < head.meta.size
        invariant |out| <= head.meta.size && pos == old(pos) + |out| <= |data| && out == data[old(pos)..pos]
      {
        var len := if 0x1000 < head.meta.size - |out| then 0x1000 else head.meta.size - |out|;
        var piece :- ReadExact(len);
        assert data[old(pos)..pos] == out + piece;
        out := out + piece;
      }
      if head.dataPad > 0 { var _ :- ReadExact(head.dataPad); }
      return Ok(out);
    }
  }

  datatype NextResult = Item(head: Head) | Failed(error: Error) | End

  /** The archive of some entries, with anything in the header of its trailer and after that. */
  ghost predicate IsArchive(data: seq<Byte>, es: seq<Entry>, m: Metadata, after: seq<Byte>) {
    && MetadataOk(m) && (forall i | 0 <= i < |es| :: EntryOk(es[i]))
    && data == EncodeAll(es) + EncodeHead(m, TRAILER) + after
  }

  datatype Step = Got(entry: Entry) | Bad(error: Error) | Stop

  /** The entries are at the given offsets, one after the other, and the trailer comes last. */
  ghost predicate ReadsAll(data: seq<Byte>, es: seq<Entry>, offs: seq<nat>) {
    && |offs| == |es| + 1 && (forall i | 0 <= i <= |es| :: offs[i] <= |data| && offs[i] % 4 == 0)
    && (forall i {:trigger ReadsAt(data, es, offs, i)} | 0 <= i < |es| :: ReadsAt(data, es, offs, i))
    && StepAt(data, offs[|es|]).0 == Stop
  }

  ghost predicate ReadsAt(data: seq<Byte>, es: seq<Entry>, offs: seq<nat>, i: nat)
    requires i < |es| < |offs|
  {
    StepAt(data, offs[i]) == (Got(es[i]), offs[i + 1])
  }

  /** The entries are read one after the other from the start on. */
  ghost predicate Chain(data: seq<Byte>, es: seq<Entry>, offs: seq<nat>) {
    && |offs| == |es| + 1 && offs[0] == 0 && offs[|es|] <= |data|
    && forall i {:trigger ReadsAt(data, es, offs, i)} | 0 <= i < |es| :: ReadsAt(data, es, offs, i)
  }

  /** A driver that reads the data of every entry that has any, on any bytes: it gives the entries it has read when it
      meets a trailer, and fails at the first position where there is neither an entry nor a trailer. */
  method Decode(data: seq<Byte>) returns (r: Result<seq<Entry>>, ghost es: seq<Entry>, ghost offs: seq<nat>)
    ensures Chain(data, es, offs)
    ensures match StepAt(data, offs[|es|]).0
            case Stop => r == Ok(es)
            case Bad(e) => r == Err(e)
            case Got(_) => false
  {
    var decoder := new Decoder(data);
    var out: seq<Entry> := [];
    es, offs := [], [0];
    while true
      invariant fresh(decoder) && decoder.data == data && !decoder.isError
      invariant Chain(data, es, offs) && out == es && decoder.pos == offs[|es|]
      decreases |data| - decoder.pos
    {
      ghost var pos := decoder.pos;
      StepAdvances(data, pos);
      var step := ReadEntry(decoder);
      match step
      case Stop => return Ok(out), es, offs;
      case Bad(error) => return Err(error), es, offs;
      case Got(entry) =>
        out := out + [entry];
        ChainMore(data, es, offs, entry, decoder.pos);
        es, offs := es + [entry], offs + [decoder.pos];
    }
  }

  lemma ChainMore(data: seq<Byte>, es: seq<Entry>, offs: seq<nat>, e: Entry, end: nat)
    requires Chain(data, es, offs) && StepAt(data, offs[|es|]) == (Got(e), end) && end <= |data|
    ensures Chain(data, es + [e], offs + [end])
  {
    var es', offs' := es + [e], offs + [end];
    forall i | 0 <= i < |es'| ensures ReadsAt(data, es', offs', i) { assert i < |es| ==> ReadsAt(data, es, offs, i); }
  }

  lemma {:induction false} StepAdvances(data: seq<Byte>, pos: nat)
    ensures StepAt(data, pos).0.Got? ==> pos < StepAt(data, pos).1 <= |data|
  {
  }

  /** The driver gets the entries of an archive back. */
  method DecodeAll(data: seq<Byte>, ghost es: seq<Entry>, ghost m: Metadata, ghost after: seq<Byte>)
    returns (r: Result<seq<Entry>>)
    requires IsArchive(data, es, m, after)
    ensures r == Ok(es)
  {
    ghost var offs := ArchiveReads(es, data, m, after);
    ghost var es', offs';
    r, es', offs' := Decode(data);
    ChainsAgree(data, es, offs, es', offs');
  }

  lemma {:induction false} ChainsAgree(data: seq<Byte>, es: seq<Entry>, offs: seq<nat>, es': seq<Entry>,
                                       offs': seq<nat>)
    requires Chain(data, es, offs) && Chain(data, es', offs')
    requires !StepAt(data, offs[|es|]).0.Got? && !StepAt(data, offs'[|es'|]).0.Got?
    ensures es == es' && offs == offs'
  {
    var n := if |es| <= |es'| then |es| else |es'|;
    ChainsAgreeTo(data, es, offs, es', offs', n);
    assert n < |es'| ==> ReadsAt(data, es', offs', n);
    assert n < |es| ==> ReadsAt(data, es, offs, n);
    assert es == es[..n] && es' == es'[..n];
    forall i | 0 <= i <= n ensures offs[i] == offs'[i] { ChainsAgreeTo(data, es, offs, es', offs', i); }
  }

  lemma {:induction false} ChainsAgreeTo(data: seq<Byte>, es: seq<Entry>, offs: seq<nat>, es': seq<Entry>,
                                         offs': seq<nat>, i: nat)
    requires Chain(data, es, offs) && Chain(data, es', offs') && i <= |es| && i <= |es'|
    ensures es[..i] == es'[..i] && offs[i] == offs'[i]
  {
    if i > 0 {
      ChainsAgreeTo(data, es, offs, es', offs', i - 1);
      SameStep(data, es, offs, es', offs', i - 1);
      assert es[..i] == es[..i - 1] + [es[i - 1]] && es'[..i] == es'[..i - 1] + [es'[i - 1]];
    }
  }

  lemma {:induction false} SameStep(data: seq<Byte>, es: seq<Entry>, offs: seq<nat>, es': seq<Entry>, offs': seq<nat>,
                                    i: nat)
    requires Chain(data, es, offs) && Chain(data, es', offs') && i < |es| && i < |es'| && offs[i] == offs'[i]
    ensures es[i] == es'[i] && offs[i + 1] == offs'[i + 1]
  {
    assert ReadsAt(data, es, offs, i) && ReadsAt(data, es', offs', i);
  }

  /** What one round of the driver makes of the bytes at a position, and where it leaves the reader. */
  ghost function StepAt(data: seq<Byte>, pos: nat): (Step, nat) { StepFrom(data, HeadAt(data, pos)) }

  ghost function StepFrom(data: seq<Byte>, head: Result<(Head, nat)>): (Step, nat)
    requires head.Ok? ==> head.value.1 <= |data|
  {
    match head
    case Err(e) => (Bad(e), 0)
    case Ok(v) =>
      var (head, start) := v;
      var end := start + head.meta.size + head.dataPad;
      if head.name == TRAILER then (Stop, start)
      else if head.meta.size == 0 then (Got(Entry(head.meta, head.name, [])), start)
      else if end > |data| then (Bad(BufferShortError), 0)
      else (Got(Entry(head.meta, head.name, data[start..start + head.meta.size])), end)
  }

  /** One round of the driver. */
  method ReadEntry(decoder: Decoder) returns (step: Step)
    requires decoder.pos <= |decoder.data| && !decoder.isError
    modifies decoder
    ensures decoder.pos <= |decoder.data| && step == StepAt(decoder.data, old(decoder.pos)).0
    ensures !step.Bad? ==> !decoder.isError && decoder.pos == StepAt(decoder.data, old(decoder.pos)).1
  {
    var next := decoder.Next();
    match next
    case End => return Stop;
    case Failed(error) => return Bad(error);
    case Item(head) =>
      var bytes: seq<Byte> := [];
      if head.meta.size > 0 {
        var r := decoder.ReadAll(head);
        if r.Err? { return Bad(r.error); }
        bytes := r.value;
      }
      return Got(Entry(head.meta, head.name, bytes));
  }

  /** Where entry `i` of an archive starts. */
  ghost function Offset(es: seq<Entry>, i: nat): nat
    requires i <= |es|
  {
    |EncodeAll(es[..i])|
  }

  /** What is read at the start of an entry. */
  lemma {:induction false} EntryAt(es: seq<Entry>, i: nat, data: seq<Byte>, m: Metadata, after: seq<Byte>)
    requires IsArchive(data, es, m, after) && i < |es|
    ensures StepAt(data, Offset(es, i)) == (Got(es[i]), Offset(es, i + 1))
  {
    var rest := EntryBytes(es, i, data, m, after);
    EntryReads(data, EncodeAll(es[..i]), es[i], rest, Offset(es, i + 1));
  }

  lemma {:induction false} EntryReads(data: seq<Byte>, before: seq<Byte>, e: Entry, rest: seq<Byte>, end: nat)
    requires EntryOk(e) && data == before + EncodeHead(e.meta, e.name) + rest
    requires var start := |before| + HeadLength(e.name);
             end == start + |e.data| + Pad(|e.data|) <= |data| && data[start..start + |e.data|] == e.data
    ensures StepAt(data, |before|) == (Got(e), end)
  {
    HeadReads(before, e.meta, e.name, rest, data);
    StepAtIs(data, |before|, e, |before| + HeadLength(e.name), end);
  }

  lemma {:induction false} StepIs(data: seq<Byte>, head: Result<(Head, nat)>, e: Entry, start: nat, end: nat)
    requires head == Ok((Head(e.meta, e.name, Pad(e.meta.size)), start)) && e.name != TRAILER && |e.data| == e.meta.size
    requires end == start + |e.data| + Pad(|e.data|) <= |data| && data[start..start + |e.data|] == e.data
    ensures StepFrom(data, head) == (Got(e), end)
  {
  }

  lemma {:induction false} StepAtIs(data: seq<Byte>, pos: nat, e: Entry, start: nat, end: nat)
    requires HeadAt(data, pos) == Ok((Head(e.meta, e.name, Pad(e.meta.size)), start))
    requires e.name != TRAILER && |e.data| == e.meta.size && DataSpelled(data, start, e.data, end)
    ensures StepAt(data, pos) == (Got(e), end)
  {
    StepIs(data, Ok((Head(e.meta, e.name, Pad(e.meta.size)), start)), e, start, end);
  }

  lemma {:induction false} EntryBytes(es: seq<Entry>, i: nat, data: seq<Byte>, m: Metadata, after: seq<Byte>)
    returns (rest: seq<Byte>)
    requires IsArchive(data, es, m, after) && i < |es|
    ensures data == EncodeAll(es[..i]) + EncodeHead(es[i].meta, es[i].name) + rest
    ensures var start := Offset(es, i) + HeadLength(es[i].name);
            && Offset(es, i + 1) == start + |es[i].data| + Pad(|es[i].data|) <= |data|
            && data[start..start + |es[i].data|] == es[i].data
  {
    var e := es[i];
    var r := SplitAll(es, i);
    var head, body, trailer := EncodeHead(e.meta, e.name), e.data + Zeros(Pad(|e.data|)), EncodeHead(m, TRAILER);
    EncodeLength(e);
    Regroup(EncodeAll(es[..i]), head, body, r, trailer, after, e.data, data);
    rest := body + (r + trailer + after);
    PartsPrefix(es, i);
  }

  lemma {:induction false} ArchiveReads(es: seq<Entry>, data: seq<Byte>, m: Metadata, after: seq<Byte>)
    returns (offs: seq<nat>)
    requires IsArchive(data, es, m, after)
    ensures ReadsAll(data, es, offs) && offs[0] == 0
  {
    offs := seq(|es| + 1, i requires 0 <= i <= |es| => Offset(es, i));
    assert es[..0] == [];
    forall i | 0 <= i <= |es| ensures offs[i] <= |data| && offs[i] % 4 == 0 { OffsetOk(es, i, data, m, after); }
    forall i | 0 <= i < |es| ensures ReadsAt(data, es, offs, i) { EntryAt(es, i, data, m, after); }
    TrailerAt(es, data, m, after);
  }

  lemma {:induction false} OffsetOk(es: seq<Entry>, i: nat, data: seq<Byte>, m: Metadata, after: seq<Byte>)
    requires IsArchive(data, es, m, after) && i <= |es|
    ensures Offset(es, i) <= |data| && Offset(es, i) % 4 == 0
  {
    EntriesAreAligned(es[..i]);
    if i < |es| { var rest := EntryBytes(es, i, data, m, after); } else { assert es[..i] == es; }
  }

  lemma Regroup(before: seq<Byte>, head: seq<Byte>, body: seq<Byte>, rest: seq<Byte>, trailer: seq<Byte>,
                after: seq<Byte>, content: seq<Byte>, data: seq<Byte>)
    requires data == (before + (head + body) + rest) + trailer + after && content <= body
    ensures data == before + head + (body + (rest + trailer + after))
    ensures var start := |before| + |head|; start + |body| <= |data| && data[start..start + |content|] == content
  {
  }

  lemma {:induction false} SplitAll(es: seq<Entry>, i: nat) returns (rest: seq<Byte>)
    requires i < |es|
    ensures EncodeAll(es) == EncodeAll(es[..i]) + Encode(es[i]) + rest
  {
    PartsPrefix(es, i);
    rest := ConcatSplits(Parts(es), i);
  }

  lemma {:induction false} ConcatSplits(parts: seq<seq<Byte>>, i: nat) returns (rest: seq<Byte>)
    requires i < |parts|
    ensures Concat(parts) == Concat(parts[..i]) + parts[i] + rest
  {
    var n := |parts| - 1;
    if i == n {
      rest := [];
    } else {
      var r := ConcatSplits(parts[..n], i);
      assert parts[..n][..i] == parts[..i];
      rest := r + parts[n];
      Regroup3(Concat(parts[..i]), parts[i], r, parts[n]);
    }
  }

  lemma Regroup3(a: seq<Byte>, b: seq<Byte>, c: seq<Byte>, d: seq<Byte>)
    ensures a + b + c + d == a + b + (c + d)
  {
  }

  lemma {:induction false} TrailerAt(es: seq<Entry>, data: seq<Byte>, m: Metadata, after: seq<Byte>)
    requires IsArchive(data, es, m, after)
    ensures es[..|es|] == es && StepAt(data, Offset(es, |es|)).0 == Stop
  {
    assert es[..|es|] == es;
    var name := TRAILER;
    TrailerIsText(name);
    HeadReads(EncodeAll(es), m, name, after, data);
  }

  // ---- What is read from any bytes ----

  /** The numbers of a header stand for the metadata. Of the mode only the low sixteen bits count. */
  ghost predicate MetadataSpelled(f: seq<Result<nat>>, m: Metadata)
    requires |f| == 13
  {
    && f[0] == Ok(m.ino) && f[1].Ok?
    && And(f[1].value, 0xF000) == TypeCode(m.typ) && And(f[1].value, 0xFFF) == m.mode
    && f[2] == Ok(m.uid) && f[3] == Ok(m.gid) && f[4] == Ok(m.nlink) && f[5] == Ok(m.mtime) && f[6] == Ok(m.size)
    && f[7] == Ok(m.devMaj) && f[8] == Ok(m.devMin) && f[9] == Ok(m.rdevMaj) && f[10] == Ok(m.rdevMin)
  }

  /** At the position there are a header with these numbers and a name, and room for the padding. */
  ghost predicate HeadSpelled(data: seq<Byte>, pos: nat, f: seq<Result<nat>>, name: seq<Byte>) {
    && pos + HeadLength(name) <= |data| && data[pos..pos + 6] == MAGIC
    && f == FieldsOf(data[pos..pos + HEADER_LEN]) && f[11] == Ok(|name| + 1)
    && data[pos + HEADER_LEN..pos + HEADER_LEN + |name| + 1] == name + [0]
  }

  /** The bytes from `pos` to `end` are the entry, up to the spelling of its numbers and the content of its padding. */
  ghost predicate Spelled(data: seq<Byte>, pos: nat, e: Entry, end: nat) {
    EntryHeadSpelled(data, pos, e.meta, e.name) && DataSpelled(data, pos + HeadLength(e.name), e.data, end)
  }

  ghost predicate EntryHeadSpelled(data: seq<Byte>, pos: nat, m: Metadata, name: seq<Byte>) {
    && pos + HEADER_LEN <= |data|
    && var f := FieldsOf(data[pos..pos + HEADER_LEN]); HeadSpelled(data, pos, f, name) && MetadataSpelled(f, m)
  }

  predicate DataSpelled(data: seq<Byte>, start: nat, content: seq<Byte>, end: nat) {
    end == start + |content| + Pad(|content|) <= |data| && data[start..start + |content|] == content
  }

  ghost predicate TrailerSpelled(data: seq<Byte>, pos: nat) {
    pos + HEADER_LEN <= |data| && HeadSpelled(data, pos, FieldsOf(data[pos..pos + HEADER_LEN]), TRAILER)
  }

  lemma {:induction false} NumbersIff(f: seq<Result<nat>>, from: nat, end: nat, vs: seq<nat>)
    requires from <= end <= |f|
    ensures Numbers(f, from, end) == Ok(vs)
       <==> |vs| == end - from && forall i | 0 <= i < |vs| :: f[from + i] == Ok(vs[i])
  {
    if from < end {
      var n := end - from - 1;
      if |vs| == n + 1 {
        NumbersIff(f, from, end - 1, vs[..n]);
        assert vs == vs[..n] + [vs[n]];
        assert f[from + n] == f[end - 1];
      }
      if Numbers(f, from, end - 1).Ok? {
        var front := Numbers(f, from, end - 1).value;
        NumbersIff(f, from, end - 1, front);
      }
    }
  }

  lemma TypeOfIff(code: nat, typ: FileType)
    ensures TypeOf(code) == Ok(typ) <==> code == TypeCode(typ)
  {
  }

  /** `FileMetadata::new` gives exactly the metadata that the header stands for. */
  lemma {:induction false} MetadataIff(f: seq<Result<nat>>, m: Metadata)
    requires |f| == 13
    ensures MetadataOf(f) == Ok(m) <==> MetadataSpelled(f, m)
  {
    var rest := [m.uid, m.gid, m.nlink, m.mtime, m.size, m.devMaj, m.devMin, m.rdevMaj, m.rdevMin];
    NumbersIff(f, 2, 11, rest);
    if f[1].Ok? { TypeOfIff(And(f[1].value, 0xF000), m.typ); }
    if MetadataOf(f) == Ok(m) {
      assert Numbers(f, 2, 11).value == rest;
      assert forall i | 0 <= i < 9 :: f[2 + i] == Ok(rest[i]);
    }
    if MetadataSpelled(f, m) {
      forall i | 0 <= i < 9 ensures f[2 + i] == Ok(rest[i]) {}
    }
  }

  lemma {:induction false} DigitsSmall(s: seq<Byte>)
    ensures DigitsValue(s).Ok? ==> DigitsValue(s).value < Pow16(|s|)
  {
    if s != [] { DigitsSmall(s[..|s| - 1]); }
  }

  lemma {:induction false} FieldSmall(h: seq<Byte>, i: nat)
    requires |h| == HEADER_LEN && i < 13
    ensures FieldsOf(h)[i].Ok? ==> FieldsOf(h)[i].value < TWO32
  {
    var s := h[6 + 8 * i..14 + 8 * i];
    assert Pow16(7) <= TWO32 && Pow16(8) == TWO32;
    DigitsSmall(s);
    DigitsSmall(s[1..]);
  }

  lemma {:induction false} SpelledIsOk(h: seq<Byte>, m: Metadata)
    requires |h| == HEADER_LEN && MetadataSpelled(FieldsOf(h), m)
    ensures MetadataOk(m)
  {
    forall i | 0 <= i < 13 ensures FieldsOf(h)[i].Ok? ==> FieldsOf(h)[i].value < TWO32 { FieldSmall(h, i); }
    LowModeBits(FieldsOf(h)[1].value);
  }

  lemma {:induction false} LowModeBits(x: nat)
    ensures And(x, 0xFFF) < 0x1000
  {
    ModePowers(12, 16);
    AndLowMask(x, 12, 0x1000);
    ShrLow(x, 12, 0x1000);
  }

  lemma {:induction false} NameIff(s: seq<Byte>, name: seq<Byte>)
    ensures CName(s) == Ok(name) <==> s == name + [0] && 0 !in name && IsUtf8(name)
  {
    if s != [] && s[|s| - 1] == 0 { assert s == s[..|s| - 1] + [0]; }
    if s == name + [0] { assert s[..|s| - 1] == name; }
  }

  /** The metadata of a head, of which the trailer has none. */
  ghost predicate HeadMetadata(f: seq<Result<nat>>, head: Head)
    requires |f| == 13
  {
    if head.name == TRAILER then head.meta == DEFAULT_METADATA else MetadataOf(f) == Ok(head.meta)
  }

  /** A head that is read is spelled there. */
  lemma {:induction false} HeadIsSpelled(data: seq<Byte>, pos: nat, head: Head, start: nat)
    requires HeadAt(data, pos) == Ok((head, start))
    ensures pos + HEADER_LEN <= |data| && start == pos + HeadLength(head.name) && head.dataPad == Pad(head.meta.size)
    ensures 0 !in head.name && IsUtf8(head.name)
    ensures var f := FieldsOf(data[pos..pos + HEADER_LEN]);
            HeadSpelled(data, pos, f, head.name) && HeadMetadata(f, head)
  {
    var h := data[pos..pos + HEADER_LEN];
    assert h[..6] == data[pos..pos + 6];
    NameIff(data[pos + HEADER_LEN..pos + HEADER_LEN + FieldsOf(h)[11].value], head.name);
  }

  /** A head that is spelled is read. */
  lemma {:induction false} SpelledIsHead(data: seq<Byte>, pos: nat, f: seq<Result<nat>>, head: Head, start: nat)
    requires pos + HEADER_LEN <= |data| && f == FieldsOf(data[pos..pos + HEADER_LEN])
    requires HeadSpelled(data, pos, f, head.name) && HeadMetadata(f, head) && head.dataPad == Pad(head.meta.size)
    requires 0 !in head.name && IsUtf8(head.name) && start == pos + HeadLength(head.name)
    ensures HeadAt(data, pos) == Ok((head, start))
  {
    var h := data[pos..pos + HEADER_LEN];
    assert h[..6] == data[pos..pos + 6];
    NameIff(data[pos + HEADER_LEN..pos + HEADER_LEN + (|head.name| + 1)], head.name);
  }

  /** An entry that the driver gets is valid and spelled there. */
  lemma {:induction false} GotIsSpelled(data: seq<Byte>, pos: nat, e: Entry, end: nat)
    requires StepAt(data, pos) == (Got(e), end)
    ensures EntryOk(e) && Spelled(data, pos, e, end)
  {
    var (head, start) := HeadAt(data, pos).value;
    HeadIsSpelled(data, pos, head, start);
    var h := data[pos..pos + HEADER_LEN];
    FromHead(data, head, start, e, end);
    MetadataIff(FieldsOf(h), e.meta);
    SpelledIsOk(h, e.meta);
    FieldSmall(h, 11);
  }

  lemma {:induction false} FromHead(data: seq<Byte>, head: Head, start: nat, e: Entry, end: nat)
    requires start <= |data| && StepFrom(data, Ok((head, start))) == (Got(e), end)
    requires head.dataPad == Pad(head.meta.size)
    ensures e.meta == head.meta && e.name == head.name != TRAILER && |e.data| == e.meta.size
    ensures end == start + |e.data| + Pad(|e.data|) <= |data| && data[start..start + |e.data|] == e.data
  {
  }

  lemma {:induction false} SpelledEntryHead(data: seq<Byte>, pos: nat, m: Metadata, name: seq<Byte>, start: nat)
    requires 0 !in name && IsUtf8(name) && name != TRAILER && EntryHeadSpelled(data, pos, m, name)
    requires start == pos + HeadLength(name)
    ensures HeadAt(data, pos) == Ok((Head(m, name, Pad(m.size)), start))
  {
    var f := FieldsOf(data[pos..pos + HEADER_LEN]);
    assert HeadMetadata(f, Head(m, name, Pad(m.size))) by { MetadataIff(f, m); }
    SpelledIsHead(data, pos, f, Head(m, name, Pad(m.size)), start);
  }

  lemma {:induction false} SpelledIsGotFrom(data: seq<Byte>, pos: nat, e: Entry, start: nat, end: nat)
    requires 0 !in e.name && IsUtf8(e.name) && e.name != TRAILER && EntryHeadSpelled(data, pos, e.meta, e.name)
    requires start == pos + HeadLength(e.name) && |e.data| == e.meta.size && DataSpelled(data, start, e.data, end)
    ensures StepAt(data, pos) == (Got(e), end)
  {
    SpelledEntryHead(data, pos, e.meta, e.name, start);
    StepAtIs(data, pos, e, start, end);
  }

  /** A valid entry that is spelled is what the driver gets. */
  lemma {:induction false} SpelledIsGot(data: seq<Byte>, pos: nat, e: Entry, end: nat)
    requires EntryOk(e) && Spelled(data, pos, e, end)
    ensures StepAt(data, pos) == (Got(e), end)
  {
    SpelledIsGotFrom(data, pos, e, pos + HeadLength(e.name), end);
  }

  /** What the driver gets at a position, on any bytes: an entry exactly when it is valid and spelled there. */
  lemma {:induction false} GotIff(data: seq<Byte>, pos: nat, e: Entry, end: nat)
    ensures StepAt(data, pos) == (Got(e), end) <==> EntryOk(e) && Spelled(data, pos, e, end)
  {
    if StepAt(data, pos) == (Got(e), end) { GotIsSpelled(data, pos, e, end); }
    if EntryOk(e) && Spelled(data, pos, e, end) { SpelledIsGot(data, pos, e, end); }
  }

  /** And it stops exactly where a trailer is spelled. */
  lemma {:induction false} StopIff(data: seq<Byte>, pos: nat)
    ensures StepAt(data, pos).0 == Stop <==> TrailerSpelled(data, pos)
  {
    if StepAt(data, pos).0 == Stop {
      var (head, start) := HeadAt(data, pos).value;
      HeadIsSpelled(data, pos, head, start);
    }
    if TrailerSpelled(data, pos) {
      var name := TRAILER;
      TrailerIsText(name);
      var head := Head(DEFAULT_METADATA, name, Pad(DEFAULT_METADATA.size));
      SpelledIsHead(data, pos, FieldsOf(data[pos..pos + HEADER_LEN]), head, pos + HeadLength(name));
    }
  }

  lemma {:induction false} TrailerIsText(name: seq<Byte>)
    requires name == TRAILER
    ensures 0 !in name && IsUtf8(name)
  {
    AsciiIsUtf8(name);
  }

  /** The bytes that a run of the driver has read, from its start to its trailer, are an archive of the entries it
      gives, up to the spelling of numbers and the content of padding; so they are as long as its encoding. */
  lemma {:induction false} ChainIsSpelled(data: seq<Byte>, es: seq<Entry>, offs: seq<nat>, i: nat)
    requires Chain(data, es, offs) && i < |es|
    ensures EntryOk(es[i]) && Spelled(data, offs[i], es[i], offs[i + 1]) && offs[i + 1] == offs[i] + |Encode(es[i])|
  {
    assert ReadsAt(data, es, offs, i);
    GotIsSpelled(data, offs[i], es[i], offs[i + 1]);
    EncodeLength(es[i]);
  }

  /** The driver's run over some bytes: these entries, and then a trailer. */
  ghost predicate RunsTo(data: seq<Byte>, es: seq<Entry>, offs: seq<nat>) {
    Chain(data, es, offs) && StepAt(data, offs[|es|]).0 == Stop
  }

  /** Whatever the driver has read, it reads again from the encoding of that. */
  lemma {:induction false} ReadsAgain(data: seq<Byte>, es: seq<Entry>, offs: seq<nat>, m: Metadata, after: seq<Byte>)
    returns (offs': seq<nat>)
    requires RunsTo(data, es, offs) && MetadataOk(m)
    ensures RunsTo(EncodeAll(es) + EncodeHead(m, TRAILER) + after, es, offs')
  {
    forall i | 0 <= i < |es| ensures EntryOk(es[i]) { ChainIsSpelled(data, es, offs, i); }
    offs' := ArchiveReads(es, EncodeAll(es) + EncodeHead(m, TRAILER) + after, m, after);
  }

  /** The driver on some bytes, and on the encoding of what it has read there. */
  method Normalise(data: seq<Byte>, m: Metadata, after: seq<Byte>)
    returns (r: Result<seq<Entry>>, again: Result<seq<Entry>>, ghost es: seq<Entry>, ghost offs: seq<nat>)
    requires MetadataOk(m)
    ensures Chain(data, es, offs) && !StepAt(data, offs[|es|]).0.Got?
    ensures r == if RunsTo(data, es, offs) then Ok(es) else Err(StepAt(data, offs[|es|]).0.error)
    ensures again == r
  {
    r, es, offs := Decode(data);
    again := r;
    if r.Ok? {
      forall i | 0 <= i < |es| ensures EntryOk(es[i]) { ChainIsSpelled(data, es, offs, i); }
      again := DecodeAll(EncodeAll(r.value) + EncodeHead(m, TRAILER) + after, es, m, after);
    }
  }
}
