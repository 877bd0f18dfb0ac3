/** The 512-byte tar header (src/common/header.cpp): octal numbers, the name split over two fields, the
    checksum and the byte image. The layout is that of the ustar interchange format with GNU magic. */
module TarHeader {
  import opened Bytes

  const HEADER_LEN: nat := 512
  const NAME_LEN: nat := 100
  const SIZE_LEN: nat := 12
  const CHKSUM_LEN: nat := 8
  const PREFIX_LEN: nat := 155
  const MAX_FILE_LEN: nat := 255
  const MAGIC: seq<byte> := [0x75, 0x73, 0x74, 0x61, 0x72, 0x20, 0x20, 0x00]   // "ustar ", then the version " \0"

  const INVALID: byte := 0
  const ORDINARYFILE: byte := 0x30
  const DIRECTORY: byte := 0x35
  const RESERVE: byte := 0x37

  // ------------------------------------------------------------ C strings in fixed fields

  function CString(f: seq<byte>): (r: seq<byte>)
    ensures r <= f
  {
    if f == [] || f[0] == 0 then [] else [f[0]] + CString(f[1..])
  }

  predicate NulFree(s: seq<byte>)
  {
    forall i :: 0 <= i < |s| ==> s[i] != 0
  }

  /** snprintf_s of "%s" into a zeroed field of n bytes: at most n - 1 characters, then zeros. */
  function Field(s: seq<byte>, n: nat): (r: seq<byte>)
    requires n > 0
    ensures |r| == n
  {
    var t := s[..Min(|s|, n - 1)];
    t + Zeros(n - |t|)
  }

  lemma {:induction false} CStringOfField(s: seq<byte>, n: nat)
    requires NulFree(s)
    ensures CString(s + Zeros(n)) == s
  {
    if s == [] {
      assert s + Zeros(n) == Zeros(n);
    } else {
      assert (s + Zeros(n))[1..] == s[1..] + Zeros(n);
      CStringOfField(s[1..], n);
    }
  }

  lemma FieldHolds(s: seq<byte>, n: nat)
    requires NulFree(s) && n > 0
    ensures CString(Field(s, n)) == s[..Min(|s|, n - 1)]
  {
    var t := s[..Min(|s|, n - 1)];
    CStringOfField(t, n - |t|);
  }

  // ------------------------------------------------------------ octal numbers

  function OctalDigits(v: nat): (r: seq<byte>)
    ensures |r| > 0
  {
    if v < 8 then [0x30 + v] else OctalDigits(v / 8) + [0x30 + v % 8]
  }

  /** At least `width` digits, filled with '0' from the left. */
  function DecimalToOctalString(v: nat, width: nat): seq<byte>
  {
    var d := OctalDigits(v);
    (if |d| < width then seq(width - |d|, _ => 0x30) else []) + d
  }

  predicate IsOctal(s: seq<byte>)
  {
    forall i :: 0 <= i < |s| ==> 0x30 <= s[i] <= 0x37
  }

  function ParseOctal(s: seq<byte>): nat
    requires IsOctal(s)
  {
    if s == [] then 0 else 8 * ParseOctal(s[..|s| - 1]) + (s[|s| - 1] - 0x30)
  }

  function Scale8(n: nat): nat
  {
    if n == 0 then 1 else 8 * Scale8(n - 1)
  }

  lemma {:induction false} DigitsParse(v: nat, zeros: nat)
    ensures var s := seq(zeros, _ => 0x30) + OctalDigits(v); IsOctal(s) && ParseOctal(s) == v
    decreases v
  {
    var pad: seq<byte> := seq(zeros, _ => 0x30);
    var s := pad + OctalDigits(v);
    if v < 8 {
      assert s[..|s| - 1] == pad;
      ZerosParse(zeros);
    } else {
      DigitsParse(v / 8, zeros);
      assert s[..|s| - 1] == pad + OctalDigits(v / 8);
    }
  }

  lemma {:induction false} ZerosParse(zeros: nat)
    ensures var pad: seq<byte> := seq(zeros, _ => 0x30); IsOctal(pad) && ParseOctal(pad) == 0
  {
    var pad: seq<byte> := seq(zeros, _ => 0x30);
    if zeros > 0 {
      assert pad[..zeros - 1] == seq(zeros - 1, _ => 0x30);
      ZerosParse(zeros - 1);
    }
  }

  lemma {:induction false} DigitsFit(v: nat, n: nat)
    requires n > 0 && v < Scale8(n)
    ensures |OctalDigits(v)| <= n
    decreases n
  {
    if v >= 8 {
      DigitsFit(v / 8, n - 1);
    }
  }

  /** A number that fits is written in exactly `width` digits and reads back as itself. */
  lemma OctalRoundTrip(v: nat, width: nat)
    requires width > 0 && v < Scale8(width)
    ensures var s := DecimalToOctalString(v, width); |s| == width && IsOctal(s) && ParseOctal(s) == v
  {
    DigitsFit(v, width);
    DigitsParse(v, width - |OctalDigits(v)|);
    assert seq(0, _ => 0x30) + OctalDigits(v) == [] + OctalDigits(v);
  }

  // ------------------------------------------------------------ the header

  /** The fields that are ever written; the others stay zero. */
  datatype Fields = Fields(name: seq<byte>, size: seq<byte>, chksum: seq<byte>, typeflag: byte, prefix: seq<byte>)

  predicate Sized(f: Fields)
  {
    |f.name| == NAME_LEN && |f.size| == SIZE_LEN && |f.chksum| == CHKSUM_LEN && |f.prefix| == PREFIX_LEN
  }

  const NEW_FIELDS := Fields(Zeros(NAME_LEN), Zeros(SIZE_LEN), Zeros(CHKSUM_LEN), INVALID, Zeros(PREFIX_LEN))

  /** name, mode, uid, gid, size, mtime */
  function Front(f: Fields): (r: seq<byte>)
    requires Sized(f)
    ensures |r| == 148
  {
    f.name + Zeros(24) + f.size + Zeros(12)
  }

  /** typeflag, linkname, magic, version, uname, gname, devmajor, devminor, prefix, pad */
  function Back(f: Fields): (r: seq<byte>)
    requires Sized(f)
    ensures |r| == 356
  {
    [f.typeflag] + Zeros(100) + MAGIC + Zeros(80) + f.prefix + Zeros(12)
  }

  function Image(f: Fields): (r: seq<byte>)
    requires Sized(f)
    ensures |r| == HEADER_LEN
  {
    Front(f) + f.chksum + Back(f)
  }

  /** The constructor from bytes, field by field. */
  function FromImage(s: seq<byte>): (f: Fields)
    requires |s| == HEADER_LEN
    ensures Sized(f)
  {
    Fields(s[..100], s[124..136], s[148..156], s[156], s[345..500])
  }

  lemma ImageRoundTrip(f: Fields)
    requires Sized(f)
    ensures FromImage(Image(f)) == f
  {
    var s := Image(f);
    assert s[..100] == f.name;
    assert s[124..136] == f.size;
    assert s[148..156] == f.chksum;
    assert s[156] == f.typeflag;
    assert s[345..500] == f.prefix;
  }

  function Name(f: Fields): seq<byte>
    requires Sized(f)
  {
    CString(f.prefix) + CString(f.name)
  }

  function Size(f: Fields): nat
    requires Sized(f)
  {
    var digits := f.size[..SIZE_LEN - 1];
    if IsOctal(digits) then ParseOctal(digits) else 0
  }

  function WithSize(f: Fields, fileLen: nat): Fields
  {
    f.(size := Field(DecimalToOctalString(fileLen, SIZE_LEN - 1), SIZE_LEN))
  }

  lemma SizeKept(f: Fields, fileLen: nat)
    requires Sized(f) && fileLen < Scale8(SIZE_LEN - 1)
    ensures Sized(WithSize(f, fileLen)) && Size(WithSize(f, fileLen)) == fileLen
  {
    OctalRoundTrip(fileLen, SIZE_LEN - 1);
    assert WithSize(f, fileLen).size[..SIZE_LEN - 1] == DecimalToOctalString(fileLen, SIZE_LEN - 1);
  }

  function FileType(f: Fields): byte
  {
    if f.typeflag < ORDINARYFILE || f.typeflag > RESERVE then INVALID else f.typeflag
  }

  /** UpdataName on a new header: false leaves it unnamed; a long name is cut in two, and the first part
      is written with the room of the second. */
  function Named(f: Fields, fileName: seq<byte>): Fields
  {
    var len := |fileName|;
    if len >= MAX_FILE_LEN then f
    else if len < NAME_LEN then f.(name := Field(fileName, NAME_LEN))
    else
      var cut := len - (NAME_LEN - 1);
      f.(name := Field(fileName[cut..], NAME_LEN),
         prefix := Field(fileName[..cut], NAME_LEN) + f.prefix[Min(NAME_LEN, |f.prefix|)..])
  }

  /** What a name of 100 to 254 bytes leaves in the two fields. */
  lemma SplitName(f: Fields, fileName: seq<byte>)
    requires Sized(f) && f.prefix == Zeros(PREFIX_LEN) && NulFree(fileName) && NAME_LEN <= |fileName| < MAX_FILE_LEN
    ensures Sized(Named(f, fileName))
    ensures var cut := |fileName| - (NAME_LEN - 1);
      Name(Named(f, fileName)) == fileName[..Min(cut, NAME_LEN - 1)] + fileName[cut..]
  {
    var cut := |fileName| - (NAME_LEN - 1);
    FieldHolds(fileName[cut..], NAME_LEN);
    var t := fileName[..cut][..Min(cut, NAME_LEN - 1)];
    assert t == fileName[..Min(cut, NAME_LEN - 1)];
    assert Field(fileName[..cut], NAME_LEN) + f.prefix[NAME_LEN..] == t + Zeros(PREFIX_LEN - |t|);
    CStringOfField(t, PREFIX_LEN - |t|);
  }

  lemma CutName(fileName: seq<byte>, cut: nat)
    requires NAME_LEN <= |fileName| && cut == |fileName| - (NAME_LEN - 1)
    ensures fileName[..Min(cut, NAME_LEN - 1)] + fileName[cut..] == fileName <==> |fileName| <= 198
  {
  }

  /** A name survives the header exactly when it has at most 198 bytes: a longer one loses its middle, and
      one of 255 or more is not stored at all. */
  lemma NameKeptIff(f: Fields, fileName: seq<byte>)
    requires Sized(f) && f.prefix == Zeros(PREFIX_LEN) && f.name == Zeros(NAME_LEN) && NulFree(fileName)
    ensures Sized(Named(f, fileName))
    ensures Name(Named(f, fileName)) == fileName <==> |fileName| <= 198
  {
    var len := |fileName|;
    if len >= MAX_FILE_LEN {
      assert CString(f.prefix) == [] && CString(f.name) == [];
    } else if len < NAME_LEN {
      FieldHolds(fileName, NAME_LEN);
      assert CString(f.prefix) == [];
    } else {
      SplitName(f, fileName);
      CutName(fileName, len - (NAME_LEN - 1));
    }
  }

  /** Exactly which name comes back from a header that holds a longer one. */
  lemma LongNameCut(f: Fields, fileName: seq<byte>)
    requires Sized(f) && f.prefix == Zeros(PREFIX_LEN) && NulFree(fileName) && 199 <= |fileName| < MAX_FILE_LEN
    ensures Name(Named(f, fileName)) == fileName[..99] + fileName[|fileName| - 99..]
  {
    SplitName(f, fileName);
  }

  // ------------------------------------------------------------ the bytes of a header

  /** Where the fields stand: name at 0, size at 124, checksum at 148, type at 156, "ustar" with blanks and a
      NUL at 257, prefix at 345; everything else is zero. */
  lemma ImageLayout(f: Fields)
    requires Sized(f)
    ensures var s := Image(f);
      && s[0..100] == f.name && s[100..124] == Zeros(24) && s[124..136] == f.size && s[136..148] == Zeros(12)
      && s[148..156] == f.chksum && s[156] == f.typeflag && s[157..257] == Zeros(100)
      && s[257..265] == [0x75, 0x73, 0x74, 0x61, 0x72, 0x20, 0x20, 0x00]
      && s[265..345] == Zeros(80) && s[345..500] == f.prefix && s[500..512] == Zeros(12)
  {
    ImageParts(f);
    FrontLayout(f);
    BackLayout(f);
    var s := Image(f);
    assert forall i :: 0 <= i < 148 ==> s[i] == Front(f)[i];
    assert forall i :: 0 <= i < 356 ==> s[156 + i] == Back(f)[i];
    assert s[0..100] == Front(f)[0..100] && s[100..124] == Front(f)[100..124];
    assert s[124..136] == Front(f)[124..136] && s[136..148] == Front(f)[136..148];
    assert s[157..257] == Back(f)[1..101] && s[257..265] == Back(f)[101..109] && s[265..345] == Back(f)[109..189];
    assert s[345..500] == Back(f)[189..344] && s[500..512] == Back(f)[344..356];
  }

  lemma FrontLayout(f: Fields)
    requires Sized(f)
    ensures var s := Front(f);
      s[0..100] == f.name && s[100..124] == Zeros(24) && s[124..136] == f.size && s[136..148] == Zeros(12)
  {
  }

  lemma BackLayout(f: Fields)
    requires Sized(f)
    ensures var s := Back(f);
      && s[0] == f.typeflag && s[1..101] == Zeros(100) && s[101..109] == [0x75, 0x73, 0x74, 0x61, 0x72, 0x20, 0x20, 0x00]
      && s[109..189] == Zeros(80) && s[189..344] == f.prefix && s[344..356] == Zeros(12)
  {
  }

  /** The number eleven octal digits stand for, the first the most significant. */
  function Octal11(s: seq<byte>): int
    requires |s| == 11
  {
    1073741824 * (s[0] - 0x30 as int) + 134217728 * (s[1] - 0x30 as int) + 16777216 * (s[2] - 0x30 as int)
    + 2097152 * (s[3] - 0x30 as int) + 262144 * (s[4] - 0x30 as int) + 32768 * (s[5] - 0x30 as int)
    + 4096 * (s[6] - 0x30 as int) + 512 * (s[7] - 0x30 as int) + 64 * (s[8] - 0x30 as int)
    + 8 * (s[9] - 0x30 as int) + (s[10] - 0x30 as int)
  }

  lemma ParseOctal11(s: seq<byte>)
    requires |s| == 11 && IsOctal(s)
    ensures ParseOctal(s) == Octal11(s)
  {
    assert s[..0] == [] && s[..11] == s;
    ParseThree(s, 0);
    ParseThree(s, 3);
    ParseThree(s, 6);
    ParseLast(s, 10);
    ParseLast(s, 11);
    GroupedDigits(s);
  }

  /** Three digits. */
  function Group(s: seq<byte>, k: nat): int
    requires k + 3 <= |s|
  {
    64 * (s[k] - 0x30 as int) + 8 * (s[k + 1] - 0x30 as int) + (s[k + 2] - 0x30 as int)
  }

  lemma GroupedDigits(s: seq<byte>)
    requires |s| == 11
    ensures Octal11(s) ==
      8 * (8 * (512 * (512 * Group(s, 0) + Group(s, 3)) + Group(s, 6)) + (s[9] - 0x30 as int)) + (s[10] - 0x30 as int)
  {
  }

  lemma ParseThree(s: seq<byte>, k: nat)
    requires k + 3 <= |s| && IsOctal(s)
    ensures ParseOctal(s[..k + 3]) == 512 * ParseOctal(s[..k]) + Group(s, k)
  {
    ParseLast(s, k + 1);
    ParseLast(s, k + 2);
    ParseLast(s, k + 3);
  }

  lemma ParseLast(s: seq<byte>, k: nat)
    requires 0 < k <= |s| && IsOctal(s)
    ensures ParseOctal(s[..k]) == 8 * ParseOctal(s[..k - 1]) + (s[k - 1] - 0x30)
  {
    assert s[..k][..k - 1] == s[..k - 1];
  }

  /** The size field of a new entry: eleven octal digits of the size and a NUL. */
  lemma SizeDigits(f: Fields, fileLen: nat)
    requires fileLen < 8589934592
    ensures var t := WithSize(f, fileLen).size;
      && |t| == 12 && t[11] == 0 && (forall i :: 0 <= i < 11 ==> 0x30 <= t[i] <= 0x37) && Octal11(t[..11]) == fileLen
  {
    assert Scale8(3) == 512 && Scale8(5) == 64 * Scale8(3) && Scale8(7) == 64 * Scale8(5);
    assert Scale8(9) == 64 * Scale8(7) && Scale8(11) == 64 * Scale8(9);
    OctalRoundTrip(fileLen, 11);
    var d := DecimalToOctalString(fileLen, 11);
    ParseOctal11(d);
    assert WithSize(f, fileLen).size == d + [0];
    assert (d + [0])[..11] == d;
  }

  /** What any twelve bytes are read as: eleven octal digits as their number, anything else as zero. */
  lemma SizeRead(f: Fields)
    requires Sized(f)
    ensures if forall i :: 0 <= i < 11 ==> 0x30 <= f.size[i] <= 0x37 then Size(f) == Octal11(f.size[..11]) else Size(f) == 0
  {
    var d := f.size[..11];
    assert IsOctal(d) <==> forall i :: 0 <= i < 11 ==> 0x30 <= f.size[i] <= 0x37 by {
      assert forall i :: 0 <= i < 11 ==> d[i] == f.size[i];
    }
    if IsOctal(d) {
      ParseOctal11(d);
    }
  }

  // ------------------------------------------------------------ checksum

  function Sum(s: seq<byte>): nat
  {
    if s == [] then 0 else Sum(s[..|s| - 1]) + s[|s| - 1] as int
  }

  lemma {:induction false} SumJoin(a: seq<byte>, b: seq<byte>)
    ensures Sum(a + b) == Sum(a) + Sum(b)
    decreases |b|
  {
    if b == [] {
      assert a + b == a;
    } else {
      assert (a + b)[..|a + b| - 1] == a + b[..|b| - 1];
      SumJoin(a, b[..|b| - 1]);
    }
  }

  lemma {:induction false} SumBound(s: seq<byte>)
    ensures Sum(s) <= 255 * |s|
  {
    if s != [] {
      SumBound(s[..|s| - 1]);
    }
  }

  const SPACES: seq<byte> := [0x20, 0x20, 0x20, 0x20, 0x20, 0x20, 0x20, 0x20]

  function WithSum(f: Fields): Fields
    requires Sized(f)
  {
    f.(chksum := Field(DecimalToOctalString(Sum(Image(f)) + 256, CHKSUM_LEN - 1), CHKSUM_LEN))
  }

  /** The standard's checksum: the sum of the header's bytes with the checksum field taken as spaces. */
  lemma ChecksumIsStandard(f: Fields)
    requires Sized(f) && f.chksum == Zeros(CHKSUM_LEN)
    ensures var g := WithSum(f);
      && Sized(g) && IsOctal(g.chksum[..7]) && g.chksum[7] == 0
      && ParseOctal(g.chksum[..7]) == Sum(Image(g.(chksum := SPACES)))
  {
    var sum := Sum(Image(f)) + 256;
    SumBound(Image(f));
    assert Scale8(3) == 512 && Scale8(5) == 64 * Scale8(3) && Scale8(7) == 64 * Scale8(5);
    OctalRoundTrip(sum, CHKSUM_LEN - 1);
    var digits := DecimalToOctalString(sum, CHKSUM_LEN - 1);
    assert WithSum(f).chksum[..7] == digits;
    SumOfParts(f, Zeros(CHKSUM_LEN));
    SumOfParts(f, SPACES);
    SumOfEight();
    assert f.(chksum := Zeros(CHKSUM_LEN)) == f;
    assert WithSum(f).(chksum := SPACES) == f.(chksum := SPACES);
  }

  lemma ImageParts(f: Fields)
    requires Sized(f)
    ensures var s := Image(f); s[..148] == Front(f) && s[148..156] == f.chksum && s[156..] == Back(f)
  {
  }

  /** The same, read off the byte image. */
  lemma ImageChecksum(f: Fields)
    requires Sized(f) && f.chksum == Zeros(CHKSUM_LEN)
    ensures var s := Image(WithSum(f));
      IsOctal(s[148..155]) && s[155] == 0 && ParseOctal(s[148..155]) == Sum(s[..148] + SPACES + s[156..])
  {
    ChecksumIsStandard(f);
    var g := WithSum(f);
    ImageParts(g);
    var s := Image(g);
    assert s[148..155] == s[148..156][..7] && s[155] == s[148..156][7];
    var h := g.(chksum := SPACES);
    assert Front(h) == Front(g) && Back(h) == Back(g);
  }

  lemma SumOfEight()
    ensures Sum(Zeros(8)) == 0 && Sum(SPACES) == 256
  {
    var z := Zeros(8);
    assert z == [0, 0, 0, 0] + [0, 0, 0, 0];
    SumJoin([0, 0, 0, 0], [0, 0, 0, 0]);
    SumOfFour(0);
    assert SPACES == [0x20, 0x20, 0x20, 0x20] + [0x20, 0x20, 0x20, 0x20];
    SumJoin([0x20, 0x20, 0x20, 0x20], [0x20, 0x20, 0x20, 0x20]);
    SumOfFour(0x20);
  }

  lemma SumOfFour(x: byte)
    ensures Sum([x, x, x, x]) == 4 * (x as int)
  {
    assert Sum([x]) == x as int by { assert [x][..0] == []; }
    assert Sum([x, x]) == 2 * (x as int) by { assert [x, x][..1] == [x]; }
    assert Sum([x, x, x]) == 3 * (x as int) by { assert [x, x, x][..2] == [x, x]; }
    assert [x, x, x, x][..3] == [x, x, x];
  }

  /** The checksum field adds its own sum and nothing else. */
  lemma SumOfParts(f: Fields, c: seq<byte>)
    requires Sized(f) && |c| == CHKSUM_LEN
    ensures Sum(Image(f.(chksum := c))) == Sum(Front(f)) + Sum(c) + Sum(Back(f))
  {
    var g := f.(chksum := c);
    assert Front(g) == Front(f) && Back(g) == Back(f);
    SumJoin(Front(f) + c, Back(f));
    SumJoin(Front(f), c);
  }

  class Header {
    var fields: Fields

    ghost predicate Valid()
      reads this
    {
      Sized(fields)
    }

    constructor ()
      ensures Valid() && fields == NEW_FIELDS
    {
      fields := NEW_FIELDS;
    }

    method UpdataName(fileName: seq<byte>) returns (ok: bool)
      requires Valid() && NulFree(fileName)
      modifies this
      ensures Valid() && ok == (|fileName| < MAX_FILE_LEN) && fields == Named(old(fields), fileName)
    {
      var len := |fileName|;
      if len >= MAX_FILE_LEN {
        return false;
      }
      if len < NAME_LEN {
        fields := fields.(name := Field(fileName, NAME_LEN));
      } else {
        var sprefix, sname := fileName[..len - (NAME_LEN - 1)], fileName[len - (NAME_LEN - 1)..];
        fields := fields.(name := Field(sname, NAME_LEN));
        fields := fields.(prefix := Field(sprefix, NAME_LEN) + fields.prefix[NAME_LEN..]);
      }
      ok := true;
    }

    method UpdataSize(fileLen: nat)
      requires Valid()
      modifies this
      ensures Valid() && fields == WithSize(old(fields), fileLen)
    {
      var sizeStr := DecimalToOctalString(fileLen, SIZE_LEN - 1);
      fields := fields.(size := Field(sizeStr, SIZE_LEN));
    }

    method UpdataFileType(fileType: byte)
      requires Valid()
      modifies this
      ensures Valid()
      ensures fields == old(fields).(typeflag := if ORDINARYFILE <= fileType <= RESERVE then fileType else INVALID)
    {
      if fileType < ORDINARYFILE || fileType > RESERVE {
        fields := fields.(typeflag := INVALID);
        return;
      }
      fields := fields.(typeflag := fileType);
    }

    /** The byte loop of the checksum. */
    method UpdataCheckSum()
      requires Valid()
      modifies this
      ensures Valid() && fields == WithSum(old(fields))
    {
      var image := Image(fields);
      var sum := 0;
      for i := 0 to HEADER_LEN
        invariant sum == Sum(image[..i])
      {
        assert image[..i + 1][..i] == image[..i];
        sum := sum + image[i] as int;
      }
      assert image[..HEADER_LEN] == image;
      fields := fields.(chksum := Field(DecimalToOctalString(sum + 256, CHKSUM_LEN - 1), CHKSUM_LEN));
    }

    method GetBytes() returns (data: seq<byte>)
      requires Valid()
      modifies this
      ensures Valid() && fields == WithSum(old(fields)) && data == Image(fields)
    {
      UpdataCheckSum();
      data := Image(fields);
    }
  }
}
