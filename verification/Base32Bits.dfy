/** The base 32 codec bit by bit, by the letters of its alphabet. */
module Base32Bits {
  import opened Base32
  import opened Numerals

  // ---------------------------------------------------------------- bits

  lemma {:induction false} BitsOfAt(n: nat, w: nat, j: nat)
    requires j < w
    ensures BitsOf(n, w)[j] <==> Bit(n, w - 1 - j) == 1
  {
    if j < w - 1 {
      BitsOfAt(n / 2, w - 1, j);
    }
  }

  function Concat(rows: seq<Bits>): Bits { if rows == [] then [] else rows[0] + Concat(rows[1..]) }

  lemma {:induction false} ConcatAt(rows: seq<Bits>, w: Width, i: nat, j: nat)
    requires i < |rows| && j < w && forall k :: 0 <= k < |rows| ==> |rows[k]| == w
    ensures Times(i, w) + j < |Concat(rows)| && Concat(rows)[Times(i, w) + j] == rows[i][j]
  {
    if i > 0 {
      ConcatAt(rows[1..], w, i - 1, j);
      assert Times(i, w) == w + Times(i - 1, w);
      Behind(rows[0], Concat(rows[1..]), w + (Times(i - 1, w) + j));
    } else {
      Behind(rows[0], Concat(rows[1..]), j);
    }
  }

  lemma {:induction false} FlattenRows(g: seq<int>, w: Width) returns (rows: seq<Bits>)
    ensures |rows| == |g| && Flatten(g, w) == Concat(rows)
    ensures forall i :: 0 <= i < |g| ==> rows[i] == BitsOf(g[i], w) && |rows[i]| == w
  {
    if g == [] {
      rows := [];
    } else {
      var rest := FlattenRows(g[1..], w);
      rows := [BitsOf(g[0], w)] + rest;
      assert rows[1..] == rest;
    }
  }

  lemma Behind(a: Bits, b: Bits, p: nat)
    requires p < |a| + |b|
    ensures (a + b)[p] == if p < |a| then a[p] else b[p - |a|]
  {
  }

  predicate IsOne(n: nat, i: nat) { Bit(n, i) == 1 }

  /** The j-th highest of the `w` bits of the i-th number. */
  predicate BitAt(bits: Bits, g: seq<int>, w: Width, i: int, j: int) {
    && 0 <= i < |g| && 0 <= g[i] && 0 <= j < w && Times(i, w) + j < |bits|
    && (bits[Times(i, w) + j] <==> IsOne(g[i], w - 1 - j))
  }

  /** The bits begin with those of the numbers. */
  predicate AreBits(bits: Bits, g: seq<int>, w: Width) {
    forall i, j :: 0 <= i < |g| && 0 <= j < w ==> BitAt(bits, g, w, i, j)
  }

  lemma FlattenedBits(g: seq<int>, w: Width, bits: Bits)
    requires bits == Flatten(g, w) && forall i :: 0 <= i < |g| ==> 0 <= g[i]
    ensures AreBits(bits, g, w) && |bits| == Times(|g|, w)
  {
    FlattenLength(g, w);
    var rows := FlattenRows(g, w);
    forall i, j | 0 <= i < |g| && 0 <= j < w ensures BitAt(bits, g, w, i, j) {
      ConcatAt(rows, w, i, j);
      RowBit(rows[i], g[i], w, j);
    }
  }

  lemma RowBit(row: Bits, n: nat, w: Width, j: nat)
    requires row == BitsOf(n, w) && j < w
    ensures row[j] <==> IsOne(n, w - 1 - j)
  {
    BitsOfAt(n, w, j);
  }

  /** Two numbers that have their bits at the same place have the same bit there. */
  lemma SamePlace(bits: Bits, g: seq<int>, h: seq<int>, i: nat, j: nat, k: nat, l: nat)
    requires BitAt(bits, g, 5, i, j) && BitAt(bits, h, 8, k, l) && 5 * i + j == 8 * k + l
    ensures IsOne(g[i], 4 - j) <==> IsOne(h[k], 7 - l)
  {
  }

  lemma LongerBits(bits: Bits, more: Bits, g: seq<int>, w: Width)
    requires AreBits(bits, g, w)
    ensures AreBits(bits + more, g, w)
  {
    forall i, j | 0 <= i < |g| && 0 <= j < w ensures BitAt(bits + more, g, w, i, j) {
      assert BitAt(bits, g, w, i, j);
      Behind(bits, more, Times(i, w) + j);
    }
  }

  /** The place of a letter in the alphabet. */
  predicate IsPlace(c: char, d: int) { 0 <= d < 32 && ALPHABET[d] == c }

  lemma PlaceOf(c: char)
    requires IndexOf(c) >= 0
    ensures IsPlace(c, IndexOf(c))
  {
    LetterOfAlphabet(IndexOf(c));
  }

  // ---------------------------------------------------------------- the codec

  /** The bits of the text are those of the bytes: the j-th highest of the five of the i-th letter is the l-th highest
      of the eight of the k-th byte when both are at the same place, and zero when there are no more bytes. */
  lemma EncodedBits(buffer: seq<Byte>, i: nat, j: nat, k: nat, l: nat)
    requires i < |Encoding(buffer)| && j < 5 && l < 8 && 5 * i + j == 8 * k + l
    ensures |Encoding(buffer)| == (8 * |buffer| + 4) / 5
    ensures var c := Encoding(buffer)[i];
      && IsPlace(c, IndexOf(c))
      && (IsOne(IndexOf(c), 4 - j) <==> k < |buffer| && IsOne(buffer[k], 7 - l))
  {
    var bits := EncodedTable(buffer);
    PlaceOf(Encoding(buffer)[i]);
    assert BitAt(bits, Indices(Encoding(buffer)), 5, i, j);
    if k < |buffer| {
      SamePlace(bits, Indices(Encoding(buffer)), buffer, i, j, k, l);
    }
  }

  /** The bits of an encoding: of its letters, and of the bytes with zeros after them. */
  lemma EncodedTable(buffer: seq<Byte>) returns (bits: Bits)
    ensures |Encoding(buffer)| == (8 * |buffer| + 4) / 5 && IsSecret(Encoding(buffer))
    ensures AreBits(bits, Indices(Encoding(buffer)), 5) && |bits| == 5 * |Encoding(buffer)|
    ensures AreBits(bits, buffer, 8) && forall p :: 8 * |buffer| <= p < |bits| ==> !bits[p]
  {
    var bytes := Flatten(buffer, 8);
    var zeros := False(Padding(|bytes|));
    bits := bytes + zeros;
    PaddedLength(buffer);
    TextInjective(bits, (8 * |buffer| + 4) / 5);
    FlattenedBits(Indices(Encoding(buffer)), 5, bits);
    FlattenedBits(buffer, 8, bytes);
    LongerBits(bytes, zeros, buffer, 8);
  }

  /** A text is refused exactly for a character that is no letter of the alphabet once it is cleaned; any other is
      decoded to as many bytes as the bits of its letters fill. */
  lemma DecodedWhen(input: string)
    ensures Decoding(input) == InvalidSecret <==> exists c <- Clean(input) :: forall d :: 0 <= d < 32 ==> !IsPlace(c, d)
    ensures Decoding(input).Bytes? ==> |Decoding(input).bytes| == 5 * |Clean(input)| / 8
  {
    KnownOrNot(Clean(input));
    if Decoding(input).Bytes? {
      DecodedLength(Clean(input));
    }
  }

  /** And each bit of these is that of the letter at the same place. */
  lemma DecodedBits(input: string, i: nat, j: nat, k: nat, l: nat)
    requires Decoding(input).Bytes? && k < |Decoding(input).bytes| && j < 5 && l < 8 && 5 * i + j == 8 * k + l
    ensures i < |Clean(input)|
    ensures var c := Clean(input)[i];
      IsPlace(c, IndexOf(c)) && (IsOne(Decoding(input).bytes[k], 7 - l) <==> IsOne(IndexOf(c), 4 - j))
  {
    DecodedAt(Clean(input), Decoding(input).bytes, i, j, k, l);
  }

  lemma DecodedAt(s: string, bytes: seq<Byte>, i: nat, j: nat, k: nat, l: nat)
    requires IsSecret(s) && DecodingClean(s) == Bytes(bytes)
    requires k < |bytes| && j < 5 && l < 8 && 5 * i + j == 8 * k + l
    ensures i < |s| && IsPlace(s[i], IndexOf(s[i])) && (IsOne(bytes[k], 7 - l) <==> IsOne(IndexOf(s[i]), 4 - j))
  {
    var bits := DecodedTable(s);
    PlaceInText(|s|, i, j, k, l);
    PlaceOf(s[i]);
    SamePlace(bits, Indices(s), bytes, i, j, k, l);
  }

  /** The bits of a secret: of its letters, and of the bytes it is decoded to. */
  lemma DecodedTable(s: string) returns (bits: Bits)
    requires IsSecret(s)
    ensures DecodingClean(s).Bytes? && |DecodingClean(s).bytes| == 5 * |s| / 8
    ensures AreBits(bits, Indices(s), 5) && AreBits(bits, DecodingClean(s).bytes, 8)
  {
    bits := SecretBits(s);
    DecodedLength(s);
    Parts(s);
    FlattenedBits(Indices(s), 5, bits);
    FlattenedBits(DecodingClean(s).bytes, 8, WholeBits(s));
    LongerBits(WholeBits(s), RestBits(s), DecodingClean(s).bytes, 8);
  }

  lemma PlaceInText(n: nat, i: nat, j: nat, k: nat, l: nat)
    requires k < 5 * n / 8 && j < 5 && l < 8 && 5 * i + j == 8 * k + l
    ensures i < n && 5 * i + j < 8 * (5 * n / 8)
  {
  }

  lemma KnownOrNot(s: string)
    ensures IsSecret(s) <==> forall c <- s :: exists d :: 0 <= d < 32 && IsPlace(c, d)
  {
    if IsSecret(s) {
      forall c | c in s ensures exists d :: 0 <= d < 32 && IsPlace(c, d) {
        var i :| 0 <= i < |s| && s[i] == c;
        PlaceOf(c);
        assert IsPlace(c, IndexOf(c));
      }
    }
    if forall c <- s :: exists d :: 0 <= d < 32 && IsPlace(c, d) {
      forall i | 0 <= i < |s| ensures IndexOf(s[i]) >= 0 {
        assert s[i] in s;
        var d :| 0 <= d < 32 && IsPlace(s[i], d);
        LetterOfAlphabet(d);
        IndexOfLetter(d);
      }
    }
  }

  lemma DecodedLength(s: string)
    requires IsSecret(s)
    ensures DecodingClean(s).Bytes? && |DecodingClean(s).bytes| == 5 * |s| / 8
    ensures Flatten(DecodingClean(s).bytes, 8) == WholeBits(s)
  {
    Parts(s);
    var k := 5 * |s| / 8;
    FlattenOfGroups(WholeBits(s), RestBits(s), 8, k);
    FlattenLength(DecodingClean(s).bytes, 8);
  }

  // ---------------------------------------------------------------- cleaning

  function Equals(n: nat): string { seq(n, _ => '=') }

  lemma {:induction false} StripsEquals(text: string, n: nat)
    requires text == "" || text[|text| - 1] != '='
    ensures StripPadding(text + Equals(n)) == text
  {
    if n == 0 {
      assert text + Equals(0) == text;
    } else {
      assert (text + Equals(n))[..|text| + n - 1] == text + Equals(n - 1);
      StripsEquals(text, n - 1);
    }
  }

  lemma {:induction false} UpperAt(s: string)
    requires forall i :: 0 <= i < |s| ==> s[i] as int < 128
    ensures |UpperAll(s)| == |s|
    ensures forall i :: 0 <= i < |s| ==>
      UpperAll(s)[i] == if 'a' <= s[i] <= 'z' then (s[i] as int - 32) as char else s[i]
  {
    if s != "" {
      UpperAt(s[1..]);
    }
  }

  /** Outside ASCII these are the characters whose upper case is ASCII; any other stays what it is, no letter. */
  lemma UpperSpecial(c: char)
    requires c as int >= 128
    ensures Upper(c) ==
      match c as int
      case 0x131 => "I"
      case 0x17F => "S"
      case 0xDF => "SS"
      case 0xFB00 => "FF"
      case 0xFB01 => "FI"
      case 0xFB02 => "FL"
      case 0xFB03 => "FFI"
      case 0xFB04 => "FFL"
      case 0xFB05 => "ST"
      case 0xFB06 => "ST"
      case _ => [c]
  {
  }

  /** Equals signs at the end do not matter, nor does the case of ASCII letters. */
  lemma Cleaned(text: string, n: nat)
    requires text == "" || text[|text| - 1] != '='
    requires forall i :: 0 <= i < |text| ==> text[i] as int < 128
    ensures var clean := Clean(text + Equals(n));
      |clean| == |text| && forall i :: 0 <= i < |text| ==>
        clean[i] == if 'a' <= text[i] <= 'z' then (text[i] as int - 32) as char else text[i]
  {
    StripsEquals(text, n);
    UpperAt(text);
  }
}
