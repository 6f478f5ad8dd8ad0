/** The tar writer behind the audit export bundle: fields are written in place into a
    512-byte header. The format is the one of IEEE Std 1003.1, pax utility, section
    "ustar Interchange Format"; `Read` is an independent reader of that format. */
module Tar {
  import opened Numerals

  type Byte = b: int | 0 <= b < 256

  /** A file of the bundle; `mtime` is the clock, in seconds, when its header is written. */
  datatype Entry = Entry(name: string, content: seq<Byte>, mtime: nat)

  datatype Extracted = Extracted(name: string, content: seq<Byte>)

  datatype Reading = Files(files: seq<Extracted>) | Malformed

  /** Eight to the eleventh: the sizes that fit eleven octal digits. */
  const SIZE_LIMIT: nat := 8589934592

  predicate SizesFit(files: seq<Entry>) {
    forall i :: 0 <= i < |files| ==> |files[i].content| < SIZE_LIMIT
  }

  predicate PlainText(s: string) {
    forall i :: 0 <= i < |s| ==> 0 < s[i] as int < 256
  }

  // ---------------------------------------------------------------- layout

  /** Node's "ascii" encoding keeps the low eight bits of each character. */
  function AsciiBytes(s: string): (b: seq<Byte>)
    ensures |b| == |s|
  {
    seq(|s|, i requires 0 <= i < |s| => s[i] as int % 256)
  }

  function Truncate(s: string, length: nat): string {
    if |s| <= length then s else s[..length]
  }

  function Zeros(n: nat): (z: seq<Byte>)
    ensures |z| == n
  {
    seq(n, _ => 0)
  }

  function NameField(name: string): (f: seq<Byte>)
    ensures |f| == 100
  {
    AsciiBytes(Truncate(name, 100)) + Zeros(100 - |Truncate(name, 100)|)
  }

  function OctalField(n: nat): (f: seq<Byte>)
    ensures |f| == 12
  {
    AsciiBytes(Truncate(OctalText(n), 12))
  }

  /** The standard's header layout, field by field, around an 8-byte checksum field. */
  function Layout(name: string, size: nat, mtime: nat, checksum: seq<Byte>): (h: seq<Byte>)
    requires |checksum| == 8
    ensures |h| == 512
  {
    BeforeChecksum(name, size, mtime) + checksum + AfterChecksum()
  }

  function BeforeChecksum(name: string, size: nat, mtime: nat): (h: seq<Byte>)
    ensures |h| == 148
  {
    NameField(name) + AsciiBytes("0000644\0") + AsciiBytes("0000000\0") + AsciiBytes("0000000\0")
    + OctalField(size) + OctalField(mtime)
  }

  function AfterChecksum(): (h: seq<Byte>)
    ensures |h| == 356
  {
    AsciiBytes("0") + Zeros(100) + AsciiBytes("ustar\0") + AsciiBytes("00") + Zeros(247)
  }

  function Repeat(n: nat, value: Byte): (f: seq<Byte>) ensures |f| == n { seq(n, _ => value) }

  function Spaces(): (f: seq<Byte>) ensures |f| == 8 { Repeat(8, 0x20) }

  function Sum(b: seq<Byte>): nat {
    if b == [] then 0 else Sum(b[..|b| - 1]) + b[|b| - 1]
  }

  lemma {:induction false} SumBound(b: seq<Byte>)
    ensures Sum(b) <= 255 * |b|
  {
    if b != [] {
      SumBound(b[..|b| - 1]);
    }
  }

  /** A header sum always fits the six octal digits of the checksum field. */
  lemma ChecksumFits(h: seq<Byte>)
    requires |h| == 512
    ensures |PadZeros(Digits(Sum(h), 8), 6)| == 6
  {
    SumBound(h);
    assert Power(8, 6) == 262144 by {
      assert Power(8, 3) == 512;
    }
    DigitsFit(Sum(h), 8, 6);
  }

  function ChecksumField(h: seq<Byte>): (f: seq<Byte>)
    requires |h| == 512
    ensures |f| == 8
  {
    ChecksumFits(h);
    AsciiBytes(PadZeros(Digits(Sum(h), 8), 6) + "\0 ")
  }

  function Header(name: string, size: nat, mtime: nat): (h: seq<Byte>)
    ensures |h| == 512
  {
    Layout(name, size, mtime, ChecksumField(Layout(name, size, mtime, Spaces())))
  }

  function Padding(size: nat): nat { (512 - size % 512) % 512 }

  function Archive(files: seq<Entry>): seq<Byte> {
    Members(files) + Zeros(1024)
  }

  function Member(f: Entry): seq<Byte> {
    Header(f.name, |f.content|, f.mtime) + f.content + Zeros(Padding(|f.content|))
  }

  function Members(files: seq<Entry>): seq<Byte> {
    if files == [] then [] else Member(files[0]) + Members(files[1..])
  }

  lemma {:induction false} MembersAreBlocks(files: seq<Entry>)
    ensures |Members(files)| % 512 == 0
  {
    if files != [] {
      MembersAreBlocks(files[1..]);
      MemberIsBlocks(files[0]);
      SumOfBlocks(|Member(files[0])|, |Members(files[1..])|);
    }
  }

  lemma MemberIsBlocks(f: Entry)
    ensures |Member(f)| % 512 == 0
  {
    assert |Member(f)| == 512 + (|f.content| + Padding(|f.content|));
    PaddedBlocks(|f.content|);
    SumOfBlocks(512, |f.content| + Padding(|f.content|));
  }

  /** Padding goes to the next whole block, and no further. */
  lemma PaddedBlocks(n: nat)
    ensures (n + Padding(n)) % 512 == 0 && Padding(n) < 512
    ensures n + Padding(n) == (n + 511) / 512 * 512
  {
    var q, r := n / 512, n % 512;
    assert n == q * 512 + r;
    if r == 0 {
      assert (n + 511) / 512 == q;
    } else {
      assert n + 511 == (q + 1) * 512 + (r - 1);
      assert n + Padding(n) == (q + 1) * 512;
    }
  }

  lemma SumOfBlocks(x: nat, y: nat)
    requires x % 512 == 0 && y % 512 == 0
    ensures (x + y) % 512 == 0
  {
  }

  /** A bundle is a whole number of blocks, and the last two of them are zeros. */
  lemma ArchiveIsBlocks(files: seq<Entry>)
    ensures |Archive(files)| % 512 == 0
    ensures |Archive(files)| == BlocksOf(files) * 512 + 1024
    ensures forall i :: |Archive(files)| - 1024 <= i < |Archive(files)| ==> Archive(files)[i] == 0
  {
    MembersAreBlocks(files);
    assert |Archive(files)| == |Members(files)| + 1024;
    SumOfBlocks(|Members(files)|, 1024);
    MembersLength(files);
  }

  /** One block for every header, and as many for the content as it fills or begins. */
  function BlocksOf(files: seq<Entry>): nat {
    if files == [] then 0 else 1 + (|files[0].content| + 511) / 512 + BlocksOf(files[1..])
  }

  lemma {:induction false} MembersLength(files: seq<Entry>)
    ensures |Members(files)| == BlocksOf(files) * 512
  {
    if files != [] {
      MembersLength(files[1..]);
      PaddedBlocks(|files[0].content|);
    }
  }

  // ---------------------------------------------------------------- writer

  function Overwrite(b: seq<Byte>, offset: nat, data: seq<Byte>): seq<Byte>
    requires offset + |data| <= |b|
  {
    b[..offset] + data + b[offset + |data|..]
  }

  method WriteTarField(header: array<Byte>, offset: nat, length: nat, value: string)
    requires offset + length <= header.Length
    modifies header
    ensures header[..] == WriteText(old(header[..]), offset, length, value)
  {
    var bytes := AsciiBytes(Truncate(value, length));
    forall i | 0 <= i < |bytes| {
      header[offset + i] := bytes[i];
    }
  }

  lemma OverwriteZeros(done: seq<Byte>, n: nat, data: seq<Byte>)
    requires |data| <= n
    ensures Overwrite(done + Zeros(n), |done|, data) == (done + data) + Zeros(n - |data|)
  {
  }

  lemma SkipZeros(done: seq<Byte>, n: nat, k: nat)
    requires k <= n
    ensures done + Zeros(n) == (done + Zeros(k)) + Zeros(n - k)
  {
  }

  /** Writing a field right after the finished part, then skipping to the field's end. */
  lemma NextField(done: seq<Byte>, n: nat, data: seq<Byte>, width: nat)
    requires |data| <= width <= n
    ensures Overwrite(done + Zeros(n), |done|, data) == (done + (data + Zeros(width - |data|))) + Zeros(n - width)
  {
    OverwriteZeros(done, n, data);
    SkipZeros(done + data, n - |data|, width - |data|);
    assert (done + data) + Zeros(width - |data|) == done + (data + Zeros(width - |data|));
  }

  function WriteText(b: seq<Byte>, offset: nat, length: nat, value: string): (r: seq<Byte>)
    requires offset + length <= |b|
    ensures |r| == |b|
  {
    Overwrite(b, offset, AsciiBytes(Truncate(value, length)))
  }

  lemma NextText(b: seq<Byte>, done: seq<Byte>, length: nat, width: nat, value: string, field: seq<Byte>)
    requires |b| == 512 && |done| + width <= 512 && length <= width
    requires b == done + Zeros(512 - |done|)
    requires var data := AsciiBytes(Truncate(value, length)); field == data + Zeros(width - |data|)
    ensures WriteText(b, |done|, length, value) == (done + field) + Zeros(512 - |done| - width)
  {
    NextField(done, 512 - |done|, AsciiBytes(Truncate(value, length)), width);
  }

  function OctalText(n: nat): string { PadZeros(Digits(n, 8), 11) + "\0" }

  /** The six writes before the checksum field fill exactly the part before it. */
  lemma FrontWrites(name: string, size: nat, mtime: nat)
    ensures var b1 := WriteText(Zeros(512), 0, 100, name);
      var b2 := WriteText(b1, 100, 8, "0000644\0");
      var b3 := WriteText(b2, 108, 8, "0000000\0");
      var b4 := WriteText(b3, 116, 8, "0000000\0");
      var b5 := WriteText(b4, 124, 12, OctalText(size));
      WriteText(b5, 136, 12, OctalText(mtime)) == BeforeChecksum(name, size, mtime) + Zeros(364)
  {
    var mode, id := AsciiBytes("0000644\0"), AsciiBytes("0000000\0");
    var d1 := [] + NameField(name);
    var d2, d3, d4 := d1 + mode, d1 + mode + id, d1 + mode + id + id;
    var d5 := d4 + OctalField(size);
    assert Zeros(512) == [] + Zeros(512);
    NextText(Zeros(512), [], 100, 100, name, NameField(name));
    NextText(d1 + Zeros(412), d1, 8, 8, "0000644\0", mode);
    NextText(d2 + Zeros(404), d2, 8, 8, "0000000\0", id);
    NextText(d3 + Zeros(396), d3, 8, 8, "0000000\0", id);
    NextText(d4 + Zeros(388), d4, 12, 12, OctalText(size), OctalField(size));
    NextText(d5 + Zeros(376), d5, 12, 12, OctalText(mtime), OctalField(mtime));
    assert d1 == NameField(name);
  }

  /** The three writes after it, on a header whose checksum field holds spaces. */
  lemma BackWrites(name: string, size: nat, mtime: nat)
    ensures var b0 := BeforeChecksum(name, size, mtime) + Spaces() + Zeros(356);
      var b1 := WriteText(b0, 156, 1, "0");
      var b2 := WriteText(b1, 257, 6, "ustar\0");
      WriteText(b2, 263, 2, "00") == Layout(name, size, mtime, Spaces())
  {
    var d0 := BeforeChecksum(name, size, mtime) + Spaces();
    var d1 := d0 + (AsciiBytes("0") + Zeros(100));
    var d2 := d1 + AsciiBytes("ustar\0");
    var d3 := d2 + AsciiBytes("00");
    NextText(d0 + Zeros(356), d0, 1, 101, "0", AsciiBytes("0") + Zeros(100));
    NextText(d1 + Zeros(255), d1, 6, 6, "ustar\0", AsciiBytes("ustar\0"));
    NextText(d2 + Zeros(249), d2, 2, 2, "00", AsciiBytes("00"));
    assert d3 + Zeros(247) == d0 + AfterChecksum();
  }

  method ByteSum(header: array<Byte>) returns (sum: nat)
    ensures sum == Sum(header[..])
  {
    sum := 0;
    for i := 0 to header.Length
      invariant sum == Sum(header[..i])
    {
      assert header[..i + 1][..i] == header[..i];
      sum := sum + header[i];
    }
    assert header[..header.Length] == header[..];
  }

  method Fill(header: array<Byte>, from: nat, to: nat, value: Byte)
    requires from <= to <= header.Length
    modifies header
    ensures header[..] == Overwrite(old(header[..]), from, Repeat(to - from, value))
  {
    forall i | from <= i < to {
      header[i] := value;
    }
  }

  /** The fields before the checksum. */
  method WriteFront(header: array<Byte>, name: string, size: nat, mtime: nat)
    requires header[..] == Zeros(512)
    modifies header
    ensures header[..] == BeforeChecksum(name, size, mtime) + Zeros(364)
  {
    WriteTarField(header, 0, 100, name);
    WriteTarField(header, 100, 8, "0000644\0");
    WriteTarField(header, 108, 8, "0000000\0");
    WriteTarField(header, 116, 8, "0000000\0");
    WriteTarField(header, 124, 12, OctalText(size));
    WriteTarField(header, 136, 12, OctalText(mtime));
    FrontWrites(name, size, mtime);
  }

  /** The fields after it. */
  method WriteBack(header: array<Byte>, ghost name: string, ghost size: nat, ghost mtime: nat)
    requires header[..] == BeforeChecksum(name, size, mtime) + Spaces() + Zeros(356)
    modifies header
    ensures header[..] == Layout(name, size, mtime, Spaces())
  {
    WriteTarField(header, 156, 1, "0");
    WriteTarField(header, 257, 6, "ustar\0");
    WriteTarField(header, 263, 2, "00");
    BackWrites(name, size, mtime);
  }

  method TarHeader(name: string, size: nat, mtime: nat) returns (header: array<Byte>)
    ensures fresh(header)
    ensures header[..] == Header(name, size, mtime)
  {
    header := new Byte[512](_ => 0);
    assert header[..] == Zeros(512);
    WriteFront(header, name, size, mtime);
    Fill(header, 148, 156, 0x20);
    OverwriteZeros(BeforeChecksum(name, size, mtime), 364, Spaces());
    WriteBack(header, name, size, mtime);
    var checksum := ByteSum(header);
    ChecksumFits(header[..]);
    WriteTarField(header, 148, 8, PadZeros(Digits(checksum, 8), 6) + "\0 ");
    ReplaceMiddle(BeforeChecksum(name, size, mtime), Spaces(), AfterChecksum(),
        ChecksumField(Layout(name, size, mtime, Spaces())));
  }

  lemma ReplaceMiddle(a: seq<Byte>, old_: seq<Byte>, b: seq<Byte>, data: seq<Byte>)
    requires |data| == |old_|
    ensures Overwrite(a + old_ + b, |a|, data) == a + data + b
  {
  }

  lemma NextMember(done: seq<Byte>, files: seq<Entry>, k: nat)
    requires k < |files|
    ensures done + Members(files[k..]) == (done + Member(files[k])) + Members(files[k + 1..])
  {
    assert files[k..][1..] == files[k + 1..];
  }

  lemma NoMembers(done: seq<Byte>, files: seq<Entry>)
    ensures done + Members(files[|files|..]) == done
  {
  }

  method CreateTar(files: seq<Entry>) returns (archive: seq<Byte>)
    ensures archive == Archive(files)
    ensures SizesFit(files) ==> Read(archive) == Files(Contents(files))
  {
    archive := [];
    for k := 0 to |files|
      invariant archive + Members(files[k..]) == Members(files)
    {
      var file := files[k];
      var header := TarHeader(file.name, |file.content|, file.mtime);
      NextMember(archive, files, k);
      archive := archive + (header[..] + file.content + Zeros(Padding(|file.content|)));
    }
    NoMembers(archive, files);
    archive := archive + Zeros(1024);
    if SizesFit(files) {
      ReadArchive(files);
    }
  }

  // ---------------------------------------------------------------- reader

  /** A numeric field: octal digits up to the first byte that is none. */
  function ReadOctal(field: seq<Byte>, value: nat): nat {
    if field == [] || !(0x30 <= field[0] < 0x38) then value
    else ReadOctal(field[1..], value * 8 + (field[0] - 0x30))
  }

  /** A text field: characters up to the first NUL. */
  function ReadText(field: seq<Byte>): string {
    if field == [] || field[0] == 0 then "" else [field[0] as char] + ReadText(field[1..])
  }

  function Read(archive: seq<Byte>): Reading
    decreases |archive|
  {
    if |archive| < 512 then Malformed
    else
      var h := archive[..512];
      if h == Zeros(512) then Files([])
      else if h[257..263] != AsciiBytes("ustar\0") then Malformed
      else if ReadOctal(h[148..156], 0) != Sum(h[..148] + Spaces() + h[156..]) then Malformed
      else
        var size := ReadOctal(h[124..136], 0);
        var next := 512 + (size + 511) / 512 * 512;
        if |archive| < next then Malformed
        else match Read(archive[next..])
          case Malformed => Malformed
          case Files(rest) => Files([Extracted(ReadText(h[..100]), archive[512..512 + size])] + rest)
  }

  function Contents(files: seq<Entry>): seq<Extracted> {
    if files == [] then []
    else [Extracted(ReadText(NameField(files[0].name)), files[0].content)] + Contents(files[1..])
  }

  lemma {:induction false} ReadOctalDigits(done: string, s: string, rest: seq<Byte>)
    requires IsNumeral(done, 8) && IsNumeral(s, 8)
    requires rest != [] ==> !(0x30 <= rest[0] < 0x38)
    ensures IsNumeral(done + s, 8)
    ensures ReadOctal(AsciiBytes(s) + rest, Value(done, 8)) == Value(done + s, 8)
    decreases |s|
  {
    if s == [] {
      assert AsciiBytes(s) + rest == rest && done + s == done;
    } else {
      var c := s[0];
      OneMore(done, c);
      ReadOctalOne(s, rest, Value(done, 8));
      ReadOctalDigits(done + [c], s[1..], rest);
      MoveFirst(done, s);
    }
  }

  lemma MoveFirst(done: string, s: string)
    requires s != ""
    ensures (done + [s[0]]) + s[1..] == done + s
  {
  }

  lemma OneMore(done: string, c: char)
    requires IsNumeral(done, 8) && IsDigit(c, 8)
    ensures IsNumeral(done + [c], 8) && Value(done + [c], 8) == Value(done, 8) * 8 + DigitValue(c)
  {
    ValueOfMore(done, c, 8);
  }

  lemma ReadOctalOne(s: string, rest: seq<Byte>, value: nat)
    requires s != "" && IsDigit(s[0], 8)
    ensures ReadOctal(AsciiBytes(s) + rest, value) ==
      ReadOctal(AsciiBytes(s[1..]) + rest, value * 8 + DigitValue(s[0]))
  {
    var field := AsciiBytes(s) + rest;
    assert field[0] == s[0] as int && field[1..] == AsciiBytes(s[1..]) + rest;
  }

  lemma ReadPadded(n: nat, width: nat, tail: string)
    requires tail != [] && !IsDigit(tail[0], 8) && tail[0] as int < 128
    ensures ReadOctal(AsciiBytes(PadZeros(Digits(n, 8), width) + tail), 0) == n
  {
    var s := PadZeros(Digits(n, 8), width);
    ValueOfDigits(n, 8);
    ValueOfPadded(Digits(n, 8), width, 8);
    assert AsciiBytes(s + tail) == AsciiBytes(s) + AsciiBytes(tail);
    ReadOctalDigits("", s, AsciiBytes(tail));
    assert "" + s == s;
  }

  lemma ReadSize(n: nat)
    requires n < SIZE_LIMIT
    ensures ReadOctal(OctalField(n), 0) == n
  {
    assert Power(8, 3) == 512 && Power(8, 6) == 262144;
    DigitsFit(n, 8, 11);
    ReadPadded(n, 11, "\0");
  }

  /** The stored checksum is the byte sum of the header with its field taken as spaces. */
  lemma StoredChecksum(name: string, size: nat, mtime: nat)
    ensures var h := Header(name, size, mtime);
      ReadOctal(h[148..156], 0) == Sum(h[..148] + Spaces() + h[156..])
  {
    var h, blank := Header(name, size, mtime), Layout(name, size, mtime, Spaces());
    assert h[148..156] == ChecksumField(blank);
    assert h[..148] + Spaces() + h[156..] == blank;
    ReadPadded(Sum(blank), 6, "\0 ");
  }

  /** The byte sum is that of the parts, and of one byte the byte itself. */
  lemma {:induction false} SumOfParts(a: seq<Byte>, b: seq<Byte>)
    ensures Sum(a + b) == Sum(a) + Sum(b)
    ensures b == [] ==> Sum(b) == 0
    ensures |b| == 1 ==> Sum(b) == b[0]
  {
    if b == [] {
      assert a + b == a;
    } else {
      var n := |b| - 1;
      assert (a + b)[..|a + b| - 1] == a + b[..n];
      SumOfParts(a, b[..n]);
    }
  }

  lemma ReadMode(h: seq<Byte>)
    requires h == AsciiBytes("0000644\0")
    ensures ReadOctal(h, 0) == 420
  {
    assert h[4] == 0x36 && h[5] == 0x34 && h[6] == 0x34 && h[7] == 0;
    ReadZeros(h, 4);
    assert ReadOctal(h[4..], 0) == ReadOctal(h[5..], 6) by { assert h[4..][1..] == h[5..]; }
    assert ReadOctal(h[5..], 6) == ReadOctal(h[6..], 52) by { assert h[5..][1..] == h[6..]; }
    assert ReadOctal(h[6..], 52) == ReadOctal(h[7..], 420) by { assert h[6..][1..] == h[7..]; }
  }

  lemma ReadId(h: seq<Byte>)
    requires h == AsciiBytes("0000000\0")
    ensures ReadOctal(h, 0) == 0
  {
    assert h[7] == 0;
    ReadZeros(h, 7);
  }

  lemma {:induction false} ReadZeros(h: seq<Byte>, n: nat)
    requires n <= |h| && forall i :: 0 <= i < n ==> h[i] == 0x30
    ensures ReadOctal(h, 0) == ReadOctal(h[n..], 0)
    decreases n
  {
    if n == 0 {
      assert h[0..] == h;
    } else {
      ReadZeros(h[1..], n - 1);
      assert h[1..][n - 1..] == h[n..];
    }
  }

  /** The header as a reader of the standard finds it: owner may read and write, all others read (octal 644); user
      and group zero; time, type and version in their places; and zeros in everything that is not used. */
  lemma StandardHeader(name: string, size: nat, mtime: nat)
    requires mtime < SIZE_LIMIT
    ensures var h := Header(name, size, mtime);
      && ReadOctal(h[100..108], 0) == 420 && ReadOctal(h[108..116], 0) == ReadOctal(h[116..124], 0) == 0
      && ReadOctal(h[136..148], 0) == mtime
      && h[156] == '0' as int && h[257..263] == AsciiBytes("ustar\0") && h[263..265] == AsciiBytes("00")
      && (forall i :: 157 <= i < 257 || 265 <= i < 512 ==> h[i] == 0)
  {
    FrontFields(name, size, mtime);
    ReadMode(AsciiBytes("0000644\0"));
    ReadId(AsciiBytes("0000000\0"));
    ReadSize(mtime);
    BackFields(name, size, mtime);
  }

  lemma FrontFields(name: string, size: nat, mtime: nat)
    ensures var h := Header(name, size, mtime);
      && h[100..108] == AsciiBytes("0000644\0")
      && h[108..116] == AsciiBytes("0000000\0") && h[116..124] == AsciiBytes("0000000\0")
      && h[136..148] == OctalField(mtime)
  {
    var h := Header(name, size, mtime);
    var front := h[..148];
    assert front == BeforeChecksum(name, size, mtime);
    FrontParts(front, NameField(name), AsciiBytes("0000644\0"), AsciiBytes("0000000\0"), OctalField(size),
        OctalField(mtime));
    assert h[100..108] == front[100..108] && h[108..116] == front[108..116] && h[116..124] == front[116..124];
    assert h[136..148] == front[136..148];
  }

  lemma FrontParts(front: seq<Byte>, n: seq<Byte>, mode: seq<Byte>, id: seq<Byte>, o: seq<Byte>, m: seq<Byte>)
    requires |n| == 100 && |mode| == |id| == 8 && |o| == |m| == 12 && front == n + mode + id + id + o + m
    ensures front[100..108] == mode && front[108..116] == front[116..124] == id && front[136..148] == m
  {
  }

  lemma BackFields(name: string, size: nat, mtime: nat)
    ensures var h := Header(name, size, mtime);
      && h[156] == '0' as int && h[257..263] == AsciiBytes("ustar\0") && h[263..265] == AsciiBytes("00")
      && (forall i :: 157 <= i < 257 || 265 <= i < 512 ==> h[i] == 0)
  {
    var h, back := Header(name, size, mtime), AfterChecksum();
    assert h[156..] == back;
    assert forall i :: 156 <= i < 512 ==> h[i] == back[i - 156];
    assert back[101..107] == h[257..263] && back[107..109] == h[263..265];
  }

  lemma HeaderFields(name: string, size: nat, mtime: nat)
    ensures var h := Header(name, size, mtime);
      h[..100] == NameField(name) && h[124..136] == OctalField(size) && h[257..263] == AsciiBytes("ustar\0")
  {
    var h := Header(name, size, mtime);
    assert h[..148] == BeforeChecksum(name, size, mtime);
    assert h[156..] == AfterChecksum();
    assert h[..148][..100] == h[..100] && h[..148][124..136] == h[124..136];
    assert h[156..][101..107] == h[257..263];
  }

  lemma ReadMember(f: Entry, rest: seq<Byte>)
    requires |f.content| < SIZE_LIMIT
    ensures Read(Member(f) + rest) ==
      match Read(rest)
      case Malformed => Malformed
      case Files(more) => Files([Extracted(ReadText(NameField(f.name)), f.content)] + more)
  {
    var a, h, n := Member(f) + rest, Header(f.name, |f.content|, f.mtime), |f.content|;
    HeaderFields(f.name, n, f.mtime);
    StoredChecksum(f.name, n, f.mtime);
    ReadSize(n);
    assert a[..512] == h;
    assert a[512..512 + n] == f.content;
    PaddedBlocks(n);
    assert a[512 + n + Padding(n)..] == rest;
    assert h[257] == 0x75;
  }

  /** Extracting the written bundle gives back every member, in order. */
  lemma {:induction false} ReadArchive(files: seq<Entry>)
    requires SizesFit(files)
    ensures Read(Archive(files)) == Files(Contents(files))
  {
    if files == [] {
      assert Archive(files)[..512] == Zeros(512);
    } else {
      assert Archive(files) == Member(files[0]) + Archive(files[1..]);
      ReadMember(files[0], Archive(files[1..]));
      ReadArchive(files[1..]);
    }
  }

  /** A member name survives exactly when it fits its field and has no NUL or wide character. */
  lemma NameSurvives(name: string)
    ensures ReadText(NameField(name)) == name <==>
      |name| <= 100 && PlainText(name)
  {
    var t := Truncate(name, 100);
    ReadTextClean(NameField(name));
    if PlainText(t) {
      ReadTextOf(t, 100 - |t|);
    } else {
      assert t == name[..|t|];
    }
  }

  function Originals(files: seq<Entry>): seq<Extracted> {
    if files == [] then [] else [Extracted(files[0].name, files[0].content)] + Originals(files[1..])
  }

  predicate GoodName(name: string) { |name| <= 100 && PlainText(name) }

  lemma {:induction false} ContentsAre(files: seq<Entry>)
    ensures |Contents(files)| == |Originals(files)| == |files|
    ensures Contents(files) == Originals(files) <==> forall f <- files :: GoodName(f.name)
  {
    if files != [] {
      ContentsAre(files[1..]);
      NameSurvives(files[0].name);
      assert forall f <- files :: f == files[0] || f in files[1..];
      assert files[0] in files && forall f <- files[1..] :: f in files;
      assert Contents(files)[1..] == Contents(files[1..]) && Originals(files)[1..] == Originals(files[1..]);
      assert Contents(files)[0].name == files[0].name <==> GoodName(files[0].name);
    }
  }

  /** The bundle reads back as exactly the files that went in, names and contents, if and only if every
      name fits its field. */
  lemma BundleRoundTrip(files: seq<Entry>)
    requires SizesFit(files)
    ensures Read(Archive(files)) == Files(Originals(files)) <==> forall f <- files :: GoodName(f.name)
  {
    ReadArchive(files);
    ContentsAre(files);
  }

  lemma {:induction false} ReadTextOf(t: string, n: nat)
    requires PlainText(t)
    ensures ReadText(AsciiBytes(t) + Zeros(n)) == t
  {
    var field := AsciiBytes(t) + Zeros(n);
    if t == [] {
      assert field == [] || field[0] == 0;
    } else {
      assert field[0] == t[0] as int;
      assert (AsciiBytes(t) + Zeros(n))[1..] == AsciiBytes(t[1..]) + Zeros(n);
      ReadTextOf(t[1..], n);
    }
  }

  lemma {:induction false} ReadTextClean(field: seq<Byte>)
    ensures |ReadText(field)| <= |field|
    ensures PlainText(ReadText(field))
  {
    if field != [] && field[0] != 0 {
      ReadTextClean(field[1..]);
    }
  }
}
