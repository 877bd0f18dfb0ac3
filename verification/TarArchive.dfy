/** Writing and reading a tar archive (src/common/entry.cpp, compress.cpp, decompress.cpp). */
module TarArchive {
  import opened Bytes
  import opened TarHeader
  import Paths

  const MAX_FILE_SIZE: nat := 0x1_0000_0000   // ENTRY_MAX_FILE_SIZE
  const FILE_BUFSIZE: nat := 4096             // ENTRY_FILE_BUFSIZE

  /** What lies on disk under a path: a regular file, a directory, or anything else. */
  datatype Item = File(name: seq<byte>, content: seq<byte>) | Dir(name: seq<byte>) | Other(name: seq<byte>)

  function RoundUp(n: nat): (r: nat)
    ensures n <= r < n + HEADER_LEN && r % HEADER_LEN == 0
  {
    if n % HEADER_LEN == 0 then n else
      assert n == HEADER_LEN * (n / HEADER_LEN) + n % HEADER_LEN;
      assert n + (HEADER_LEN - n % HEADER_LEN) == HEADER_LEN * (n / HEADER_LEN + 1);
      n + (HEADER_LEN - n % HEADER_LEN)
  }

  /** Files of 4 GiB and more, and what is neither file nor directory, keep an invalid type. */
  predicate Stored(e: Item)
  {
    e.Dir? || (e.File? && |e.content| < MAX_FILE_SIZE)
  }

  lemma StoredIff(e: Item)
    ensures Stored(e) <==> e.Dir? || (e.File? && |e.content| < 4294967296)
  {
  }

  /** The header of a new entry. */
  function EntryFields(e: Item): Fields
  {
    var f :=
      if !Stored(e) then NEW_FIELDS
      else if e.Dir? then WithSize(NEW_FIELDS.(typeflag := DIRECTORY), 0)
      else WithSize(NEW_FIELDS, |e.content|).(typeflag := ORDINARYFILE);
    Named(f, e.name)
  }

  lemma EntryFieldsOk(e: Item)
    requires NulFree(e.name)
    ensures var f := EntryFields(e);
      && Sized(f) && f.chksum == Zeros(CHKSUM_LEN)
      && FileType(f) == (if !Stored(e) then INVALID else if e.Dir? then DIRECTORY else ORDINARYFILE)
      && (Stored(e) ==> Size(f) == if e.File? then |e.content| else 0)
      && (|e.name| <= 198 <==> Name(f) == e.name)
  {
    assert Scale8(3) == 512 && Scale8(5) == 64 * Scale8(3) && Scale8(7) == 64 * Scale8(5);
    assert Scale8(9) == 64 * Scale8(7) && Scale8(11) == 64 * Scale8(9);
    if e.File? && Stored(e) {
      SizeKept(NEW_FIELDS, |e.content|);
      NameKeptIff(WithSize(NEW_FIELDS, |e.content|).(typeflag := ORDINARYFILE), e.name);
    } else if e.Dir? {
      SizeKept(NEW_FIELDS.(typeflag := DIRECTORY), 0);
      NameKeptIff(WithSize(NEW_FIELDS.(typeflag := DIRECTORY), 0), e.name);
    } else {
      NameKeptIff(NEW_FIELDS, e.name);
    }
  }

  function Padding(n: nat): seq<byte> { Zeros(RoundUp(n) - n) }

  /** An entry in an archive: header, content and zeros up to the next block; nothing for an invalid type. */
  function Written(e: Item): seq<byte>
    requires NulFree(e.name)
  {
    EntryFieldsOk(e);
    if !Stored(e) then []
    else if e.Dir? then Image(WithSum(EntryFields(e)))
    else Image(WithSum(EntryFields(e))) + e.content + Padding(|e.content|)
  }

  predicate NulFreeNames(es: seq<Item>)
  {
    forall i :: 0 <= i < |es| ==> NulFree(es[i].name)
  }

  function Archive(es: seq<Item>): seq<byte>
    requires NulFreeNames(es)
  {
    if es == [] then [] else Written(es[0]) + Archive(es[1..])
  }

  // ------------------------------------------------------------ writing

  /** The regular files that can be opened for reading, by their name below the prefix of the archive. */
  type Disk = map<seq<byte>, seq<byte>>

  /** std::ofstream: what has been written, and the fail bit, behind which nothing is written any more. */
  datatype Output = Output(bytes: seq<byte>, failed: bool)

  function Write(out: Output, bytes: seq<byte>): Output
  {
    if out.failed then out else out.(bytes := out.bytes + bytes)
  }

  /** Inserting a stream buffer: the fail bit is set if it gives no byte, as when the file was not opened. */
  function Insert(out: Output, disk: Disk, name: seq<byte>): Output
  {
    if name in disk && disk[name] != [] then Write(out, disk[name]) else out.(failed := true)
  }

  /** WriteToTar. The content is opened under the name read back from the header. */
  function Put(disk: Disk, e: Item, out: Output): Output
    requires NulFree(e.name)
  {
    EntryFieldsOk(e);
    if !Stored(e) then out
    else
      var out := Write(out, Image(WithSum(EntryFields(e))));
      if e.Dir? || e.content == [] then out
      else Write(Insert(out, disk, Name(EntryFields(e))), Padding(|e.content|))
  }

  /** SaveToFile, which looks at neither the result of WriteToTar nor the fail bit. */
  function PutAll(disk: Disk, es: seq<Item>, out: Output): Output
    requires NulFreeNames(es)
  {
    if es == [] then out else PutAll(disk, es[1..], Put(disk, es[0], out))
  }

  function Saved(disk: Disk, es: seq<Item>): Output
    requires NulFreeNames(es)
  {
    PutAll(disk, es, Output([], false))
  }

  /** A file has the content it had when the entry was made. */
  ghost predicate Backed(disk: Disk, es: seq<Item>)
  {
    forall i :: 0 <= i < |es| && es[i].File? && es[i].content != [] ==> es[i].name in disk && disk[es[i].name] == es[i].content
  }

  /** The names of the stored entries survive. */
  ghost predicate NamesFit(es: seq<Item>)
  {
    forall i :: 0 <= i < |es| && Stored(es[i]) ==> |es[i].name| <= 198
  }

  lemma PutFits(disk: Disk, e: Item, out: Output)
    requires NulFree(e.name) && Backed(disk, [e]) && (Stored(e) ==> |e.name| <= 198) && !out.failed
    ensures Put(disk, e, out) == Output(out.bytes + Written(e), false)
  {
    EntryFieldsOk(e);
    assert [e][0] == e;
    if Stored(e) && e.File? {
      PiecesWritten(out, Image(WithSum(EntryFields(e))), e.content, Padding(|e.content|));
    }
  }

  lemma PiecesWritten(out: Output, a: seq<byte>, b: seq<byte>, c: seq<byte>)
    ensures out.bytes + a + b + c == out.bytes + (a + b + c)
  {
  }

  lemma {:induction false} PutAllFits(disk: Disk, es: seq<Item>, out: Output)
    requires NulFreeNames(es) && Backed(disk, es) && NamesFit(es) && !out.failed
    ensures PutAll(disk, es, out) == Output(out.bytes + Archive(es), false)
    decreases |es|
  {
    if es != [] {
      PutFits(disk, es[0], out);
      PutAllFits(disk, es[1..], Put(disk, es[0], out));
      Associative(out.bytes, Written(es[0]), Archive(es[1..]));
    }
  }

  lemma {:induction false} PutAllSplit(disk: Disk, a: seq<Item>, b: seq<Item>, out: Output)
    requires NulFreeNames(a) && NulFreeNames(b)
    ensures NulFreeNames(a + b) && PutAll(disk, a + b, out) == PutAll(disk, b, PutAll(disk, a, out))
    decreases |a|
  {
    if a == [] {
      assert a + b == b;
    } else {
      assert (a + b)[1..] == a[1..] + b;
      PutAllSplit(disk, a[1..], b, Put(disk, a[0], out));
    }
  }

  lemma {:induction false} PutAllGrows(disk: Disk, es: seq<Item>, out: Output)
    requires NulFreeNames(es)
    ensures out.bytes <= PutAll(disk, es, out).bytes
    ensures out.failed ==> PutAll(disk, es, out) == out
    decreases |es|
  {
    if es != [] {
      EntryFieldsOk(es[0]);
      PutAllGrows(disk, es[1..], Put(disk, es[0], out));
    }
  }

  lemma PutBegins(disk: Disk, e: Item, out: Output)
    requires NulFree(e.name) && Stored(e) && !out.failed
    ensures Sized(WithSum(EntryFields(e))) && out.bytes + Image(WithSum(EntryFields(e))) <= Put(disk, e, out).bytes
  {
    EntryFieldsOk(e);
  }

  // ------------------------------------------------------------ reading

  function Text(s: seq<byte>): string
  {
    seq(|s|, i requires 0 <= i < |s| => s[i] as char)
  }

  /** Some component between separators is "..". */
  predicate Traverses(s: seq<byte>)
  {
    Paths.Traverses(Text(s))
  }

  datatype Decoded = Decoded(items: seq<Item>, ok: bool)

  /** The loop of DecompressToLocal on the rest of an archive: what it extracts before it stops, and its
      result. A last piece shorter than a header ends the loop without an error. */
  ghost function Decode(s: seq<byte>): Decoded
    decreases |s|, 0
  {
    if |s| < HEADER_LEN then Decoded([], true) else DecodeAfter(FromImage(s[..HEADER_LEN]), s[HEADER_LEN..])
  }

  /** The same, with the header of the next entry already read. */
  ghost function DecodeAfter(f: Fields, rest: seq<byte>): Decoded
    requires Sized(f)
    decreases |rest|, 1
  {
    if Traverses(Name(f)) then Decoded([], false)
    else if FileType(f) == DIRECTORY then Prepend(Dir(Name(f)), Decode(rest))
    else if FileType(f) != ORDINARYFILE || |rest| < RoundUp(Size(f)) then Decoded([], false)
    else Prepend(File(Name(f), rest[..Size(f)]), Decode(rest[RoundUp(Size(f))..]))
  }

  ghost function Prepend(e: Item, d: Decoded): Decoded
  {
    Decoded([e] + d.items, d.ok)
  }

  /** ValidateTarFile: the size is that of a tar file. */
  predicate WholeBlocks(s: seq<byte>)
  {
    |s| != 0 && |s| % HEADER_LEN == 0
  }

  /** DecompressToLocal on a file: CheckPath first, then the loop. */
  ghost function Extract(s: seq<byte>): Decoded
  {
    if WholeBlocks(s) then Decode(s) else Decoded([], false)
  }

  ghost predicate Archivable(e: Item)
  {
    NulFree(e.name) && |e.name| <= 198 && !Traverses(e.name)
  }

  function Kept(es: seq<Item>): seq<Item>
  {
    if es == [] then [] else if Stored(es[0]) then [es[0]] + Kept(es[1..]) else Kept(es[1..])
  }

  lemma HeaderDecodes(e: Item)
    requires NulFree(e.name) && Stored(e)
    ensures Sized(EntryFields(e)) && Sized(WithSum(EntryFields(e)))
    ensures var g := FromImage(Image(WithSum(EntryFields(e))));
      && Name(g) == Name(EntryFields(e)) && Size(g) == Size(EntryFields(e)) && FileType(g) == FileType(EntryFields(e))
  {
    EntryFieldsOk(e);
    ImageRoundTrip(WithSum(EntryFields(e)));
  }

  lemma DecodeHead(head: seq<byte>, rest: seq<byte>)
    requires |head| == HEADER_LEN
    ensures Decode(head + rest) == DecodeAfter(FromImage(head), rest)
  {
    assert (head + rest)[..HEADER_LEN] == head && (head + rest)[HEADER_LEN..] == rest;
  }

  lemma PayloadParts(content: seq<byte>, rest: seq<byte>)
    ensures var body, n := content + Padding(|content|) + rest, |content|;
      |body| >= RoundUp(n) && body[..n] == content && body[RoundUp(n)..] == rest
  {
  }

  /** What the header of an archivable entry says when it is read again. */
  lemma HeaderMeans(e: Item)
    requires Archivable(e) && Stored(e)
    ensures Sized(WithSum(EntryFields(e)))
    ensures var g := FromImage(Image(WithSum(EntryFields(e))));
      && Name(g) == e.name && Size(g) == (if e.File? then |e.content| else 0)
      && FileType(g) == if e.File? then ORDINARYFILE else DIRECTORY
  {
    EntryFieldsOk(e);
    HeaderDecodes(e);
  }

  lemma DecodeWritten(e: Item, rest: seq<byte>)
    requires Archivable(e) && Stored(e)
    ensures Decode(Written(e) + rest) == Prepend(e, Decode(rest))
  {
    HeaderMeans(e);
    var head := Image(WithSum(EntryFields(e)));
    if e.Dir? {
      DecodeHead(head, rest);
    } else {
      var body := e.content + Padding(|e.content|) + rest;
      assert Written(e) + rest == head + body;
      DecodeHead(head, body);
      PayloadParts(e.content, rest);
    }
  }

  /** An entry in an archive, byte by byte: a name of up to 99 bytes at 0, or the last 99 bytes of a longer one
      there and the rest at 345; the size in octal at 124; the type at 156; then content and zeros. */
  lemma EntryBytes(e: Item)
    requires NulFree(e.name) && Stored(e) && |e.name| <= 198
    ensures var s := Written(e);
      && |s| >= 512 && NameBytes(s, e.name)
      && s[156] == (if e.Dir? then 0x35 else 0x30) && s[257..265] == [0x75, 0x73, 0x74, 0x61, 0x72, 0x20, 0x20, 0x00]
      && (forall i :: 124 <= i < 135 ==> 0x30 <= s[i] <= 0x37) && s[135] == 0
      && Octal11(s[124..135]) == (if e.File? then |e.content| else 0)
      && s[512..] == if e.File? then e.content + Padding(|e.content|) else []
  {
    var f := EntryFields(e);
    EntryFieldsOk(e);
    WrittenHead(e);
    var s, head := Written(e), Image(WithSum(f));
    ImageLayout(WithSum(f));
    EntryNameBytes(e);
    EntrySizeBytes(e);
    HeadInside(s, head, e.name);
    BodyBytes(e);
  }

  lemma BodyBytes(e: Item)
    requires NulFree(e.name) && Stored(e)
    ensures |Written(e)| >= 512 && Written(e)[512..] == if e.File? then e.content + Padding(|e.content|) else []
  {
    EntryFieldsOk(e);
    var head := Image(WithSum(EntryFields(e)));
    if e.File? {
      assert Written(e) == head + (e.content + Padding(|e.content|));
    }
  }

  ghost predicate NameBytes(s: seq<byte>, name: seq<byte>)
    requires |s| >= 512
  {
    if |name| < 100 then s[..|name|] == name && s[|name|] == 0 && s[345] == 0
    else
      var cut := |name| - 99;
      cut <= 99 && s[..99] == name[cut..] && s[99] == 0 && s[345..345 + cut] == name[..cut] && s[345 + cut] == 0
  }

  lemma EntryNameBytes(e: Item)
    requires NulFree(e.name) && Stored(e) && |e.name| <= 198
    ensures Sized(EntryFields(e)) && Sized(WithSum(EntryFields(e))) && NameBytes(Image(WithSum(EntryFields(e))), e.name)
  {
    EntryFieldsOk(e);
    var f := EntryFields(e);
    ImageLayout(WithSum(f));
    EntryNameFields(e);
    NameInside(Image(WithSum(f)), f.name, f.prefix, e.name);
  }

  /** What a name leaves in the two fields of a new header. */
  lemma EntryNameFields(e: Item)
    requires |e.name| <= 198
    ensures var f := EntryFields(e);
      if |e.name| < 100 then f.name == e.name + Zeros(100 - |e.name|) && f.prefix == Zeros(155)
      else f.name == e.name[|e.name| - 99..] + Zeros(1) && f.prefix == e.name[..|e.name| - 99] + Zeros(155 - (|e.name| - 99))
  {
    if |e.name| >= 100 {
      var cut := |e.name| - 99;
      assert Zeros(155)[100..] == Zeros(55) && Zeros(100 - cut) + Zeros(55) == Zeros(155 - cut);
      assert e.name[cut..][..99] == e.name[cut..] && e.name[..cut][..cut] == e.name[..cut];
      Associative(e.name[..cut], Zeros(100 - cut), Zeros(55));
    }
  }

  lemma NameInside(s: seq<byte>, first: seq<byte>, second: seq<byte>, name: seq<byte>)
    requires |s| == 512 && |first| == 100 && |second| == 155 && s[0..100] == first && s[345..500] == second && |name| <= 198
    requires
      if |name| < 100 then first == name + Zeros(100 - |name|) && second == Zeros(155)
      else first == name[|name| - 99..] + Zeros(1) && second == name[..|name| - 99] + Zeros(155 - (|name| - 99))
    ensures NameBytes(s, name)
  {
    assert forall i :: 0 <= i < 100 ==> s[i] == first[i];
    assert forall i :: 0 <= i < 155 ==> s[345 + i] == second[i];
    if |name| >= 100 {
      var cut := |name| - 99;
      assert s[345..345 + cut] == second[..cut] == name[..cut];
      assert s[..99] == first[..99] == name[cut..];
    }
  }

  lemma EntrySizeBytes(e: Item)
    requires NulFree(e.name) && Stored(e)
    ensures var n, t := if e.File? then |e.content| else 0, EntryFields(e).size;
      && |t| == 12 && t[11] == 0 && (forall i :: 0 <= i < 11 ==> 0x30 <= t[i] <= 0x37) && Octal11(t[..11]) == n
      && EntryFields(e).typeflag == if e.Dir? then 0x35 else 0x30
  {
    if e.Dir? {
      SizeDigits(NEW_FIELDS.(typeflag := DIRECTORY), 0);
    } else {
      SizeDigits(NEW_FIELDS, |e.content|);
    }
  }

  /** What holds of the first 512 bytes holds of the whole. */
  lemma HeadInside(s: seq<byte>, head: seq<byte>, name: seq<byte>)
    requires |head| == 512 && |s| >= 512 && s[..512] == head && NameBytes(head, name)
    ensures NameBytes(s, name) && s[156] == head[156] && s[257..265] == head[257..265] && s[135] == head[124..136][11]
    ensures s[124..135] == head[124..136][..11] && forall i :: 124 <= i < 135 ==> s[i] == head[124..136][i - 124]
  {
    assert forall i :: 0 <= i < 512 ==> s[i] == head[i];
  }

  /** What the reader makes of any archive, by the bytes of its first header. */
  lemma DecodeExactly(s: seq<byte>)
    ensures |s| < 512 ==> Decode(s) == Decoded([], true)
    ensures |s| >= 512 ==>
      var name, rest := CString(s[345..500]) + CString(s[0..100]), s[512..];
      var size := if forall i :: 124 <= i < 135 ==> 0x30 <= s[i] <= 0x37 then Octal11(s[124..135]) else 0;
      Decode(s) ==
        if Traverses(name) then Decoded([], false)
        else if s[156] == 0x35 then Prepend(Dir(name), Decode(rest))
        else if s[156] != 0x30 || size < 0 || |rest| < RoundUp(size) then Decoded([], false)
        else Prepend(File(name, rest[..size]), Decode(rest[RoundUp(size)..]))
  {
    if |s| >= 512 {
      SizeRead(FromImage(s[..512]));
      HeaderSlices(s);
    }
  }

  /** The fields of the first header of an archive. */
  lemma HeaderSlices(s: seq<byte>)
    requires |s| >= 512
    ensures var f := FromImage(s[..512]);
      && f.name == s[0..100] && f.prefix == s[345..500] && f.typeflag == s[156] && f.size[..11] == s[124..135]
      && ((forall i :: 0 <= i < 11 ==> 0x30 <= f.size[i] <= 0x37) <==> forall i :: 124 <= i < 135 ==> 0x30 <= s[i] <= 0x37)
  {
    var f := FromImage(s[..512]);
    assert f.size == s[124..136] && f.size[..11] == s[124..135];
    assert forall i :: 0 <= i < 11 ==> f.size[i] == s[124 + i];
    assert forall i :: 124 <= i < 135 ==> s[i] == f.size[i - 124];
  }

  lemma WrittenHead(e: Item)
    requires NulFree(e.name) && Stored(e)
    ensures Sized(EntryFields(e)) && Sized(WithSum(EntryFields(e)))
    ensures |Written(e)| >= HEADER_LEN && Written(e)[..HEADER_LEN] == Image(WithSum(EntryFields(e)))
  {
    EntryFieldsOk(e);
  }

  /** Every header written carries the standard checksum: the sum of its bytes with that field as spaces. */
  lemma StoredChecksum(e: Item)
    requires NulFree(e.name) && Stored(e)
    ensures |Written(e)| >= HEADER_LEN
    ensures var s := Written(e)[..HEADER_LEN];
      IsOctal(s[148..155]) && s[155] == 0 && ParseOctal(s[148..155]) == Sum(s[..148] + SPACES + s[156..])
  {
    WrittenHead(e);
    EntryFieldsOk(e);
    ImageChecksum(EntryFields(e));
  }

  /** Every entry that is stored comes back as it was. */
  ghost predicate AllArchivable(es: seq<Item>)
  {
    forall i :: 0 <= i < |es| && Stored(es[i]) ==> Archivable(es[i])
  }

  lemma {:induction false} DecodeArchive(es: seq<Item>, rest: seq<byte>)
    requires NulFreeNames(es) && AllArchivable(es)
    ensures Decode(Archive(es) + rest) == Joined(Kept(es), Decode(rest))
    decreases |es|
  {
    if es == [] {
      assert [] + rest == rest && [] + Decode(rest).items == Decode(rest).items;
    } else {
      DecodeArchive(es[1..], rest);
      ArchiveThen(es, rest);
      if Stored(es[0]) {
        DecodeWritten(es[0], Archive(es[1..]) + rest);
        JoinedMore(es[0], Kept(es[1..]), Decode(rest));
      }
    }
  }

  lemma ArchiveThen(es: seq<Item>, rest: seq<byte>)
    requires NulFreeNames(es) && es != []
    ensures Archive(es) + rest == if Stored(es[0]) then Written(es[0]) + (Archive(es[1..]) + rest) else Archive(es[1..]) + rest
  {
    if Stored(es[0]) {
      Associative(Written(es[0]), Archive(es[1..]), rest);
    } else {
      assert [] + Archive(es[1..]) == Archive(es[1..]);
    }
  }

  lemma JoinedMore(e: Item, items: seq<Item>, d: Decoded)
    ensures Prepend(e, Joined(items, d)) == Joined([e] + items, d)
  {
    assert [e] + (items + d.items) == [e] + items + d.items;
  }

  lemma BlocksAdd(a: nat, b: nat)
    requires a % HEADER_LEN == 0 && b % HEADER_LEN == 0
    ensures (a + b) % HEADER_LEN == 0
  {
    assert a + b == HEADER_LEN * (a / HEADER_LEN + b / HEADER_LEN);
  }

  /** What an entry takes in the archive: its header and its content rounded up. */
  function BlockSize(e: Item): (n: nat)
    ensures n % HEADER_LEN == 0 && n >= HEADER_LEN
  {
    if e.File? then BlocksAdd(HEADER_LEN, RoundUp(|e.content|)); HEADER_LEN + RoundUp(|e.content|) else HEADER_LEN
  }

  function BlockSizes(es: seq<Item>): nat
  {
    if es == [] then 0 else BlockSize(es[0]) + BlockSizes(es[1..])
  }

  lemma WrittenSize(e: Item)
    requires NulFree(e.name)
    ensures |Written(e)| == if Stored(e) then BlockSize(e) else 0
  {
    EntryFieldsOk(e);
    if Stored(e) {
      var head := Image(WithSum(EntryFields(e)));
      assert |head| == HEADER_LEN;
    }
  }

  lemma {:induction false} ArchiveSize(es: seq<Item>)
    requires NulFreeNames(es)
    ensures |Archive(es)| == BlockSizes(Kept(es))
    decreases |es|
  {
    if es != [] {
      ArchiveSize(es[1..]);
      WrittenSize(es[0]);
      if Stored(es[0]) {
        assert Kept(es)[1..] == Kept(es[1..]);
      } else {
        assert Kept(es) == Kept(es[1..]);
      }
    }
  }

  /** Entries make up whole blocks, none only if there is no entry. */
  lemma {:induction false} BlockSizesWhole(es: seq<Item>)
    ensures BlockSizes(es) % HEADER_LEN == 0 && (BlockSizes(es) == 0 <==> es == [])
    decreases |es|
  {
    if es != [] {
      BlockSizesWhole(es[1..]);
      BlocksAdd(BlockSize(es[0]), BlockSizes(es[1..]));
    }
  }

  /** What SaveToFile writes has the size of its stored entries in whole blocks, if their names survive. */
  lemma SavedSize(disk: Disk, es: seq<Item>)
    requires NulFreeNames(es) && Backed(disk, es) && NamesFit(es)
    ensures !Saved(disk, es).failed && |Saved(disk, es).bytes| == BlockSizes(Kept(es))
  {
    PutAllFits(disk, es, Output([], false));
    assert [] + Archive(es) == Archive(es);
    ArchiveSize(es);
  }

  lemma ArchiveRoundTrip(disk: Disk, es: seq<Item>)
    requires NulFreeNames(es) && Backed(disk, es) && AllArchivable(es)
    ensures Extract(Saved(disk, es).bytes) == Decoded(Kept(es), Kept(es) != [])
  {
    PutAllFits(disk, es, Output([], false));
    assert [] + Archive(es) == Archive(es) && Archive(es) + [] == Archive(es);
    DecodeArchive(es, []);
    assert Kept(es) + [] == Kept(es);
    ArchiveSize(es);
    BlockSizesWhole(Kept(es));
  }

  lemma {:induction false} KeptSplit(a: seq<Item>, b: seq<Item>)
    ensures Kept(a + b) == Kept(a) + Kept(b)
    decreases |a|
  {
    if a == [] {
      assert a + b == b;
    } else {
      assert (a + b)[1..] == a[1..] + b && (a + b)[0] == a[0];
      KeptSplit(a[1..], b);
      assert [a[0]] + (Kept(a[1..]) + Kept(b)) == [a[0]] + Kept(a[1..]) + Kept(b);
    }
  }

  lemma {:induction false} FirstSpoiled(es: seq<Item>) returns (k: nat)
    requires !AllArchivable(es)
    ensures k < |es| && Stored(es[k]) && !Archivable(es[k]) && AllArchivable(es[..k])
    decreases |es|
  {
    if Stored(es[0]) && !Archivable(es[0]) {
      k := 0;
    } else {
      assert !AllArchivable(es[1..]) by {
        var i :| 0 <= i < |es| && Stored(es[i]) && !Archivable(es[i]);
        assert es[1..][i - 1] == es[i];
      }
      var j := FirstSpoiled(es[1..]);
      k := j + 1;
      assert forall i :: 1 <= i < k ==> es[..k][i] == es[1..][..j][i - 1];
    }
  }

  /** The header of an entry that does not survive: extraction stops at it or gives it another name. */
  lemma SpoiledHead(e: Item, tail: seq<byte>)
    requires NulFree(e.name) && Stored(e) && !Archivable(e)
    ensures Sized(WithSum(EntryFields(e)))
    ensures var d := Decode(Image(WithSum(EntryFields(e))) + tail);
      d == Decoded([], false) || (d.items != [] && d.items[0].name != e.name)
  {
    EntryFieldsOk(e);
    HeaderDecodes(e);
    DecodeHead(Image(WithSum(EntryFields(e))), tail);
  }

  lemma SpoiledDiffers(es: seq<Item>, k: nat, s: seq<byte>)
    requires NulFreeNames(es) && k < |es| && AllArchivable(es[..k]) && Stored(es[k]) && !Archivable(es[k])
    requires Sized(WithSum(EntryFields(es[k]))) && Archive(es[..k]) + Image(WithSum(EntryFields(es[k]))) <= s
    ensures Decode(s) != Decoded(Kept(es), true)
  {
    var before, head := es[..k], Image(WithSum(EntryFields(es[k])));
    var tail := TailBehind(Archive(before), head, s);
    DecodeArchive(before, head + tail);
    SpoiledHead(es[k], tail);
    KeptAround(es, k);
    NotTheSame(Kept(before), es[k], Kept(es[k + 1..]), Decode(head + tail));
  }

  lemma TailBehind(a: seq<byte>, b: seq<byte>, s: seq<byte>) returns (tail: seq<byte>)
    requires a + b <= s
    ensures s == a + (b + tail)
  {
    tail := s[|a + b|..];
    assert s == a + b + tail;
  }

  lemma KeptAround(es: seq<Item>, k: nat)
    requires k < |es| && Stored(es[k])
    ensures Kept(es) == Kept(es[..k]) + ([es[k]] + Kept(es[k + 1..]))
  {
    assert es == es[..k] + es[k..] && es[k..][1..] == es[k + 1..];
    KeptSplit(es[..k], es[k..]);
  }

  lemma NotTheSame(items: seq<Item>, e: Item, more: seq<Item>, d: Decoded)
    requires d == Decoded([], false) || (d.items != [] && d.items[0].name != e.name)
    ensures Joined(items, d) != Decoded(items + ([e] + more), true)
  {
    if d.items != [] {
      assert (items + d.items)[|items|] == d.items[0] && (items + ([e] + more))[|items|] == e;
    }
  }

  /** How far SaveToFile gets: everything before an entry, and the header of that entry. */
  lemma SavedBegins(disk: Disk, es: seq<Item>, k: nat)
    requires NulFreeNames(es) && Backed(disk, es) && k < |es| && AllArchivable(es[..k]) && Stored(es[k])
    ensures Sized(WithSum(EntryFields(es[k])))
    ensures Archive(es[..k]) + Image(WithSum(EntryFields(es[k]))) <= Saved(disk, es).bytes
  {
    var before, start := es[..k], Output([], false);
    assert es == before + es[k..] && es[k..][1..] == es[k + 1..];
    PutAllSplit(disk, before, es[k..], start);
    PutAllFits(disk, before, start);
    assert [] + Archive(before) == Archive(before);
    var out := Output(Archive(before), false);
    PutBegins(disk, es[k], out);
    PutAllGrows(disk, es[k + 1..], Put(disk, es[k], out));
  }

  /** For every list of entries: extracting what SaveToFile wrote gives the same files and directories in the
      same order, with the same names and contents, if and only if the name of every entry stored has at
      most 198 bytes and no component "..". Entries of an invalid type leave no trace. It succeeds unless
      nothing is left to extract: an empty file is no tar file. */
  lemma ExtractedIff(disk: Disk, es: seq<Item>)
    requires NulFreeNames(es) && Backed(disk, es)
    ensures Extract(Saved(disk, es).bytes) == Decoded(Kept(es), Kept(es) != []) <==> AllArchivable(es)
  {
    if AllArchivable(es) {
      ArchiveRoundTrip(disk, es);
    } else {
      var k := FirstSpoiled(es);
      SavedBegins(disk, es, k);
      SpoiledDiffers(es, k, Saved(disk, es).bytes);
      KeptAround(es, k);
    }
  }

  /** What such a name does to the entries behind it: if no file, or an empty one, is found under what is left of
      it, the archive ends with the header, SaveToFile still succeeds, and extraction gives the entries before it
      and an error. */
  lemma LongNameLosesRest(disk: Disk, before: seq<Item>, e: Item, after: seq<Item>)
    requires NulFreeNames(before) && NulFreeNames(after) && Backed(disk, before) && AllArchivable(before)
    requires NulFree(e.name) && e.File? && Stored(e) && e.content != []
    requires Name(EntryFields(e)) in disk ==> disk[Name(EntryFields(e))] == []
    ensures Sized(WithSum(EntryFields(e)))
    ensures var es := before + [e] + after;
      && NulFreeNames(es) && Saved(disk, es) == Output(Archive(before) + Image(WithSum(EntryFields(e))), true)
      && Extract(Saved(disk, es).bytes) == Decoded(Kept(before), false)
  {
    EntryFieldsOk(e);
    var start, out, head := Output([], false), Output(Archive(before), false), Image(WithSum(EntryFields(e)));
    var es := before + [e] + after;
    assert es == before + ([e] + after);
    PutAllSplit(disk, before, [e] + after, start);
    PutAllFits(disk, before, start);
    assert [] + Archive(before) == Archive(before);
    assert ([e] + after)[1..] == after;
    PutAllGrows(disk, after, Put(disk, e, out));
    LonelyHead(e);
    LostHead(before, head);
  }

  /** A header with nothing behind it. */
  lemma LonelyHead(e: Item)
    requires NulFree(e.name) && e.File? && Stored(e) && e.content != []
    ensures Sized(WithSum(EntryFields(e))) && Decode(Image(WithSum(EntryFields(e)))) == Decoded([], false)
  {
    EntryFieldsOk(e);
    HeaderDecodes(e);
    var head := Image(WithSum(EntryFields(e)));
    assert head + [] == head;
    DecodeHead(head, []);
  }

  lemma LostHead(before: seq<Item>, head: seq<byte>)
    requires NulFreeNames(before) && AllArchivable(before) && |head| == HEADER_LEN && Decode(head) == Decoded([], false)
    ensures Extract(Archive(before) + head) == Decoded(Kept(before), false)
  {
    DecodeArchive(before, head);
    assert Kept(before) + [] == Kept(before);
    ArchiveSize(before);
    BlockSizesWhole(Kept(before));
    BlocksAdd(|Archive(before)|, HEADER_LEN);
  }

  /** A tar file that is extracted without an error is accounted for to the last byte: the entries and their
      padding make up its size, whatever wrote it. */
  lemma ExtractedSize(s: seq<byte>)
    requires Extract(s).ok
    ensures |s| == BlockSizes(Extract(s).items)
  {
    DecodedSize(s);
  }

  lemma {:induction false} DecodedSize(s: seq<byte>)
    requires |s| % HEADER_LEN == 0 && Decode(s).ok
    ensures |s| == BlockSizes(Decode(s).items)
    decreases |s|
  {
    if s != [] {
      var f, rest := FromImage(s[..HEADER_LEN]), s[HEADER_LEN..];
      var n := if FileType(f) == DIRECTORY then 0 else RoundUp(Size(f));
      RestIsBlocks(|s|, n);
      DecodedSize(rest[n..]);
      var e := Decode(s).items[0];
      assert rest[0..] == rest;
      assert Decode(s).items == [e] + Decode(rest[n..]).items && BlockSize(e) == HEADER_LEN + n;
    }
  }

  lemma RestIsBlocks(total: nat, n: nat)
    requires total % HEADER_LEN == 0 && n % HEADER_LEN == 0 && HEADER_LEN + n <= total
    ensures (total - HEADER_LEN - n) % HEADER_LEN == 0
  {
    assert total - HEADER_LEN - n == HEADER_LEN * (total / HEADER_LEN - 1 - n / HEADER_LEN);
  }

  // ------------------------------------------------------------ the loops

  /** A file being read: std::ifstream. */
  class Input {
    const data: seq<byte>
    var pos: nat

    ghost predicate Valid()
      reads this
    {
      pos <= |data|
    }

    ghost function Rest(): seq<byte>
      reads this
      requires Valid()
    {
      data[pos..]
    }

    constructor (bytes: seq<byte>)
      ensures Valid() && Rest() == bytes
    {
      data, pos := bytes, 0;
    }

    /** read(): fills the front of the buffer as far as there is data. */
    method Read(buf: array<byte>, n: nat) returns (count: nat)
      requires Valid() && n <= buf.Length
      modifies this`pos, buf
      ensures Valid() && count == Min(n, |old(Rest())|)
      ensures buf[..count] == old(Rest())[..count] && Rest() == old(Rest())[count..]
    {
      count := Min(n, |data| - pos);
      forall i | 0 <= i < count {
        buf[i] := data[pos + i];
      }
      pos := pos + count;
    }
  }

  /** How far a payload has been read. */
  ghost predicate ReadSoFar(all: seq<byte>, rest: seq<byte>, out: seq<byte>, done: nat)
  {
    done <= |all| && done % FILE_BUFSIZE == 0 && out == all[..done] && rest == all[done..]
  }

  lemma ReadFurther(all: seq<byte>, rest: seq<byte>, out: seq<byte>, done: nat)
    requires ReadSoFar(all, rest, out, done) && |rest| >= FILE_BUFSIZE
    ensures ReadSoFar(all, rest[FILE_BUFSIZE..], out + rest[..FILE_BUFSIZE], done + FILE_BUFSIZE)
  {
    assert done + FILE_BUFSIZE == FILE_BUFSIZE * (done / FILE_BUFSIZE + 1);
  }

  /** PayloadToFile: 4096 bytes at a time, and the rest rounded up to whole blocks. Every read fits the
      buffer, and exactly the size rounded up to 512 is consumed. */
  method PayloadToFile(inFile: Input, size: nat) returns (ok: bool, out: seq<byte>)
    requires inFile.Valid()
    modifies inFile
    ensures inFile.Valid()
    ensures ok == (|old(inFile.Rest())| >= RoundUp(size))
    ensures ok ==> out == old(inFile.Rest())[..size] && inFile.Rest() == old(inFile.Rest())[RoundUp(size)..]
  {
    var buff := new byte[FILE_BUFSIZE];
    var needSize := size;
    ok, out := true, [];
    ghost var all := inFile.Rest();
    while ok && needSize >= FILE_BUFSIZE
      invariant inFile.Valid() && 0 <= needSize <= size
      invariant ok ==> ReadSoFar(all, inFile.Rest(), out, size - needSize)
      invariant !ok ==> |all| < RoundUp(size)
      decreases ok, needSize
    {
      ghost var rest := inFile.Rest();
      var count := inFile.Read(buff, FILE_BUFSIZE);
      ok := count == FILE_BUFSIZE;
      if ok {
        ReadFurther(all, rest, out, size - needSize);
        assert buff[..] == buff[..count];
        out := out + buff[..];
        needSize := needSize - FILE_BUFSIZE;
      }
    }
    if ok && needSize > 0 {
      ok, out := LastPiece(inFile, buff, needSize, out, size - needSize, all);
    } else if ok {
      RoundUpSplit(size, 0);
    }
  }

  lemma RoundUpSplit(done: nat, left: nat)
    requires done % FILE_BUFSIZE == 0
    ensures RoundUp(done + left) == done + RoundUp(left)
  {
    var blocks := 8 * (done / FILE_BUFSIZE);
    assert done == HEADER_LEN * blocks;
    ModShift(blocks, left);
  }

  lemma ModShift(blocks: nat, left: nat)
    ensures (HEADER_LEN * blocks + left) % HEADER_LEN == left % HEADER_LEN
  {
    assert HEADER_LEN * blocks + left == HEADER_LEN * (blocks + left / HEADER_LEN) + left % HEADER_LEN;
  }

  /** The end of a payload: rounded up to whole blocks, which is never more than the buffer. */
  method LastPiece(inFile: Input, buff: array<byte>, needSize: nat, soFar: seq<byte>, ghost done: nat, ghost all: seq<byte>)
    returns (ok: bool, out: seq<byte>)
    requires inFile.Valid() && buff.Length == FILE_BUFSIZE && 0 < needSize < FILE_BUFSIZE
    requires ReadSoFar(all, inFile.Rest(), soFar, done)
    modifies inFile, buff
    ensures inFile.Valid() && ok == (|all| >= RoundUp(done + needSize))
    ensures ok ==> out == all[..done + needSize] && inFile.Rest() == all[RoundUp(done + needSize)..]
  {
    RoundUpSplit(done, needSize);
    var paddingSize := HEADER_LEN - needSize % HEADER_LEN;
    var lastBufSize := if paddingSize == HEADER_LEN then needSize else needSize + paddingSize;
    RoundUpBound(needSize);
    var count := inFile.Read(buff, lastBufSize);
    ok := count == lastBufSize;
    out := soFar;
    if ok {
      assert buff[..needSize] == buff[..count][..needSize];
      out := soFar + buff[..needSize];
    }
  }

  lemma RoundUpBound(n: nat)
    requires n < FILE_BUFSIZE
    ensures RoundUp(n) <= FILE_BUFSIZE
  {
    assert n / HEADER_LEN <= 7;
    assert n == HEADER_LEN * (n / HEADER_LEN) + n % HEADER_LEN;
  }

  /** The size test and the extraction loop. */
  method DecompressToLocal(tar: seq<byte>) returns (items: seq<Item>, ok: bool)
    ensures Decoded(items, ok) == Extract(tar)
  {
    if !WholeBlocks(tar) {
      return [], false;
    }
    var inFile := new Input(tar);
    items, ok := [], true;
    var more := true;
    while more
      invariant inFile.Valid() && fresh(inFile)
      invariant more ==> ok && Joined(items, Decode(inFile.Rest())) == Decode(tar)
      invariant !more ==> Decoded(items, ok) == Decode(tar)
      decreases more, |inFile.Rest()|
    {
      more, ok, items := DecompressOne(inFile, items);
    }
  }

  ghost function Joined(items: seq<Item>, d: Decoded): Decoded
  {
    Decoded(items + d.items, d.ok)
  }

  lemma JoinedStep(items: seq<Item>, e: Item, d: Decoded)
    ensures Joined(items, Prepend(e, d)) == Joined(items + [e], d)
  {
    assert items + ([e] + d.items) == items + [e] + d.items;
  }

  /** One header and what follows it. */
  method DecompressOne(inFile: Input, soFar: seq<Item>) returns (more: bool, ok: bool, items: seq<Item>)
    requires inFile.Valid()
    modifies inFile
    ensures inFile.Valid()
    ensures more ==> ok && |inFile.Rest()| < |old(inFile.Rest())|
    ensures more ==> Joined(items, Decode(inFile.Rest())) == Joined(soFar, Decode(old(inFile.Rest())))
    ensures !more ==> Decoded(items, ok) == Joined(soFar, Decode(old(inFile.Rest())))
  {
    items := soFar;
    assert soFar + [] == soFar;
    var buff := new byte[HEADER_LEN];
    var readcnt := inFile.Read(buff, HEADER_LEN);
    if readcnt != HEADER_LEN {
      return false, true, items;
    }
    assert buff[..] == buff[..readcnt];
    var f := FromImage(buff[..]);
    var safe := Paths.CheckPathTraversal(Text(Name(f)));
    if !safe {
      return false, false, items;
    }
    ghost var rest := inFile.Rest();
    if FileType(f) == DIRECTORY {
      JoinedStep(soFar, Dir(Name(f)), Decode(rest));
      return true, true, items + [Dir(Name(f))];
    }
    if FileType(f) != ORDINARYFILE {
      return false, false, items;
    }
    var good, content := PayloadToFile(inFile, Size(f));
    if !good {
      return false, false, items;
    }
    JoinedStep(soFar, File(Name(f), content), Decode(inFile.Rest()));
    return true, true, items + [File(Name(f), content)];
  }

  /** The constructor of an entry. */
  method NewEntry(e: Item) returns (header: Header)
    requires NulFree(e.name)
    ensures fresh(header) && header.Valid() && header.fields == EntryFields(e)
  {
    header := new Header();
    if e.Dir? {
      header.UpdataFileType(DIRECTORY);
      header.UpdataSize(0);
    } else if e.File? && |e.content| < MAX_FILE_SIZE {
      header.UpdataSize(|e.content|);
      header.UpdataFileType(ORDINARYFILE);
    }
    var _ := header.UpdataName(e.name);
  }

  /** WriteToTar through the header object and the stream. */
  method WriteToTar(disk: Disk, e: Item, file: Output) returns (out: Output)
    requires NulFree(e.name)
    ensures out == Put(disk, e, file)
  {
    EntryFieldsOk(e);
    var header := NewEntry(e);
    var kind, size := FileType(header.fields), Size(header.fields);
    out := file;
    if kind != ORDINARYFILE && kind != DIRECTORY {
      return;
    }
    var name := Name(header.fields);
    var buff := header.GetBytes();
    out := Write(out, buff);
    if kind == ORDINARYFILE && size != 0 {
      out := Insert(out, disk, name);
      var padding := HEADER_LEN - size % HEADER_LEN;
      if padding < HEADER_LEN {
        out := Write(out, Zeros(padding));
      } else {
        assert out.bytes + [] == out.bytes;
      }
    }
  }

  method SaveToFile(disk: Disk, entrys: seq<Item>) returns (file: Output)
    requires NulFreeNames(entrys)
    ensures file == Saved(disk, entrys)
  {
    file := Output([], false);
    var rest := entrys;
    while rest != []
      invariant NulFreeNames(rest) && PutAll(disk, rest, file) == Saved(disk, entrys)
      decreases |rest|
    {
      file := WriteToTar(disk, rest[0], file);
      rest := rest[1..];
    }
  }
}
