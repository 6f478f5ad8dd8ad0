/** The TOTP secret codec: base 32 as in section 6 of RFC 4648, without padding on output.
    The loops keep a 32-bit accumulator that is never masked; the specification works on
    bit strings, where nothing can overflow. */
module Base32 {
  import opened Numerals

  type Byte = b: int | 0 <= b < 256
  type Bits = seq<bool>

  datatype Decoded = Bytes(bytes: seq<Byte>) | InvalidSecret

  const ALPHABET: string := "ABCDEFGHIJKLMNOPQRSTUVWXYZ234567"
  const WORD: nat := 0x1_0000_0000

  // ---------------------------------------------------------------- bit strings

  /** The widths of a letter and of a byte. */
  type Width = w: nat | w == 5 || w == 8 witness 5

  function Times(n: nat, w: Width): nat { if w == 5 then 5 * n else 8 * n }

  function BitsOf(n: int, w: nat): (b: Bits)
    ensures |b| == w
    decreases w
  {
    if w == 0 then [] else BitsOf(n / 2, w - 1) + [n % 2 == 1]
  }

  function NatOf(b: Bits): nat {
    if b == [] then 0 else 2 * NatOf(b[..|b| - 1]) + if b[|b| - 1] then 1 else 0
  }

  /** The groups of `w` bits of a bit string, most significant first; an incomplete last group is dropped. */
  function Groups(b: Bits, w: Width): seq<int>
    decreases |b|
  {
    if |b| < w then [] else [NatOf(b[..w])] + Groups(b[w..], w)
  }

  function Flatten(g: seq<int>, w: Width): Bits {
    if g == [] then [] else BitsOf(g[0], w) + Flatten(g[1..], w)
  }

  lemma {:induction false} GroupsLength(b: Bits, w: Width, k: nat)
    requires |b| == Times(k, w)
    ensures |Groups(b, w)| == k
    decreases k
  {
    if k > 0 {
      GroupsLength(b[w..], w, k - 1);
    }
  }

  lemma {:induction false} FlattenLength(g: seq<int>, w: Width)
    ensures |Flatten(g, w)| == Times(|g|, w)
  {
    if g != [] {
      FlattenLength(g[1..], w);
    }
  }

  function False(n: nat): (b: Bits) ensures |b| == n { seq(n, _ => false) }

  /** Zero bits up to a multiple of five, as section 6 of RFC 4648 asks. */
  function PadTo5(b: Bits): Bits { b + False(Padding(|b|)) }

  function Padding(n: nat): (k: nat)
    ensures k < 5 && (n + k) % 5 == 0
  {
    var r := n % 5;
    assert n == 5 * (n / 5) + r;
    if r == 0 then 0 else assert n + (5 - r) == 5 * (n / 5 + 1); 5 - r
  }

  predicate Below(g: seq<int>, limit: nat) { forall i :: 0 <= i < |g| ==> 0 <= g[i] < limit }

  lemma {:induction false} NatOfBitsOf(n: nat, w: nat)
    requires n < Pow2(w)
    ensures NatOf(BitsOf(n, w)) == n
  {
    if w > 0 {
      NatOfBitsOf(n / 2, w - 1);
      var b := BitsOf(n, w);
      assert b[..w - 1] == BitsOf(n / 2, w - 1);
    }
  }

  lemma {:induction false} BitsOfNatOf(b: Bits)
    ensures NatOf(b) < Pow2(|b|) && BitsOf(NatOf(b), |b|) == b
  {
    if b != [] {
      BitsOfNatOf(b[..|b| - 1]);
      assert NatOf(b) / 2 == NatOf(b[..|b| - 1]);
      assert b == b[..|b| - 1] + [b[|b| - 1]];
    }
  }

  lemma Twice(x: nat, y: nat)
    ensures x * (2 * y) == 2 * (x * y)
  {
  }

  lemma {:induction false} NatOfConcat(a: Bits, b: Bits)
    ensures NatOf(a + b) == NatOf(a) * Pow2(|b|) + NatOf(b)
  {
    if b == [] {
      assert a + b == a;
    } else {
      var b' := b[..|b| - 1];
      NatOfLast(a, b);
      NatOfConcat(a, b');
      Twice(NatOf(a), Pow2(|b'|));
    }
  }

  lemma NatOfLast(a: Bits, b: Bits)
    requires b != []
    ensures NatOf(a + b) == 2 * NatOf(a + b[..|b| - 1]) + if b[|b| - 1] then 1 else 0
  {
    assert (a + b)[..|a + b| - 1] == a + b[..|b| - 1];
  }

  lemma {:induction false} GroupsConcat(a: Bits, b: Bits, w: Width, k: nat)
    requires |a| == Times(k, w)
    ensures Groups(a + b, w) == Groups(a, w) + Groups(b, w)
    decreases k
  {
    if k == 0 {
      assert a + b == b;
    } else {
      assert (a + b)[..w] == a[..w] && (a + b)[w..] == a[w..] + b;
      GroupsConcat(a[w..], b, w, k - 1);
    }
  }

  lemma {:induction false} FlattenConcat(g: seq<int>, h: seq<int>, w: Width)
    ensures Flatten(g + h, w) == Flatten(g, w) + Flatten(h, w)
  {
    if g == [] {
      assert g + h == h;
    } else {
      assert (g + h)[1..] == g[1..] + h;
      FlattenConcat(g[1..], h, w);
    }
  }

  lemma {:induction false} GroupsOfFlatten(g: seq<int>, w: Width)
    requires Below(g, Pow2(w))
    ensures Groups(Flatten(g, w), w) == g
  {
    if g != [] {
      NatOfBitsOf(g[0], w);
      var b := Flatten(g, w);
      assert b[..w] == BitsOf(g[0], w) && b[w..] == Flatten(g[1..], w);
      GroupsOfFlatten(g[1..], w);
    }
  }

  lemma {:induction false} GroupsBelow(b: Bits, w: Width)
    ensures Below(Groups(b, w), Pow2(w))
    decreases |b|
  {
    if |b| >= w {
      BitsOfNatOf(b[..w]);
      GroupsBelow(b[w..], w);
    }
  }

  /** An incomplete last group is lost, and nothing else. */
  lemma {:induction false} FlattenOfGroups(b: Bits, rest: Bits, w: Width, k: nat)
    requires |b| == Times(k, w) && |rest| < w
    ensures Flatten(Groups(b + rest, w), w) == b
    decreases k
  {
    if k == 0 {
      assert b + rest == rest;
    } else {
      BitsOfNatOf(b[..w]);
      assert (b + rest)[..w] == b[..w] && (b + rest)[w..] == b[w..] + rest;
      FlattenOfGroups(b[w..], rest, w, k - 1);
      assert Groups(b + rest, w)[1..] == Groups(b[w..] + rest, w);
    }
  }

  // ---------------------------------------------------------------- specification

  /** `alphabet[d]`, by its code, as the next lemma shows. */
  function Letter(d: nat): char
    requires d < 32
  {
    (if d < 26 then 65 + d else 24 + d) as char
  }

  lemma LetterOfAlphabet(d: nat)
    requires d < 32
    ensures Letter(d) == ALPHABET[d]
  {
  }

  function Letters(g: seq<int>): (s: string)
    requires Below(g, 32)
    ensures |s| == |g|
  {
    seq(|g|, i requires 0 <= i < |g| => Letter(g[i]))
  }

  function SearchFrom(c: char, i: nat): (r: int)
    requires i <= 32
    ensures -1 <= r < 32 && (r >= 0 ==> i <= r && Letter(r) == c)
    ensures r < 0 ==> forall j: nat :: i <= j < 32 ==> Letter(j) != c
    decreases 32 - i
  {
    if i == 32 then -1 else if Letter(i) == c then i else SearchFrom(c, i + 1)
  }

  /** `alphabet.indexOf(c)`. */
  function IndexOf(c: char): int { SearchFrom(c, 0) }

  /** `toUpperCase` of one character, for every character whose upper case is ASCII; that of any other one
      holds a character outside the alphabet, as the character itself is. */
  function Upper(c: char): string {
    if 'a' <= c <= 'z' then [(c as int - 32) as char]
    else if c == '\U{0131}' then "I"
    else if c == '\U{017F}' then "S"
    else if c == '\U{00DF}' then "SS"
    else if c == '\U{FB00}' then "FF"
    else if c == '\U{FB01}' then "FI"
    else if c == '\U{FB02}' then "FL"
    else if c == '\U{FB03}' then "FFI"
    else if c == '\U{FB04}' then "FFL"
    else if c == '\U{FB05}' || c == '\U{FB06}' then "ST"
    else [c]
  }

  function UpperAll(s: string): string { if s == "" then "" else Upper(s[0]) + UpperAll(s[1..]) }

  function StripPadding(s: string): string {
    if s != [] && s[|s| - 1] == '=' then StripPadding(s[..|s| - 1]) else s
  }

  /** The input without trailing padding, in upper case. */
  function Clean(input: string): string { UpperAll(StripPadding(input)) }

  predicate IsSecret(s: string) { forall i :: 0 <= i < |s| ==> IndexOf(s[i]) >= 0 }

  function Indices(s: string): (g: seq<int>)
    requires IsSecret(s)
    ensures |g| == |s| && Below(g, 32)
  {
    seq(|s|, i requires 0 <= i < |s| => IndexOf(s[i]))
  }

  function Text(b: Bits): string {
    GroupsBelow(b, 5);
    SmallPowers();
    Letters(Groups(b, 5))
  }

  /** Section 6 of RFC 4648: regroup the zero-padded bits of the bytes by five. */
  function Encoding(buffer: seq<Byte>): string { Text(PadTo5(Flatten(buffer, 8))) }

  function Decoding(input: string): Decoded { DecodingClean(Clean(input)) }

  function DecodingClean(s: string): Decoded {
    if IsSecret(s) then Bytes(ToBytes(Flatten(Indices(s), 5))) else InvalidSecret
  }

  function ToBytes(b: Bits): (r: seq<Byte>)
    ensures Groups(b, 8) == r
  {
    GroupsBelow(b, 8);
    SmallPowers();
    Groups(b, 8)
  }

  // ---------------------------------------------------------------- the 32-bit accumulator

  /** `value << k` on 32 bits, bit by bit. */
  function ShiftLeft(value: nat, k: nat): nat { if k == 0 then value % WORD else ShiftLeft(value, k - 1) * 2 % WORD }

  /** `value >>> k`, bit by bit. */
  function ShiftRight(value: nat, k: nat): nat { if k == 0 then value else ShiftRight(value, k - 1) / 2 }

  lemma {:induction false} ShiftLeftIs(value: nat, k: nat)
    ensures ShiftLeft(value, k) == value * Pow2(k) % WORD
  {
    if k > 0 {
      ShiftLeftIs(value, k - 1);
      Twice(value, Pow2(k - 1));
      DoubleWraps(value * Pow2(k - 1));
    }
  }

  lemma DoubleWraps(n: nat)
    ensures n % WORD * 2 % WORD == 2 * n % WORD
  {
    var q, r := n / WORD, n % WORD;
    assert n == q * WORD + r;
    if r * 2 < WORD {
      DivUnique(2 * n, 2 * q, 2 * r, WORD);
      DivUnique(r * 2, 0, 2 * r, WORD);
    } else {
      DivUnique(2 * n, 2 * q + 1, 2 * r - WORD, WORD);
      DivUnique(r * 2, 1, 2 * r - WORD, WORD);
    }
  }

  lemma {:induction false} ShiftRightIs(value: nat, k: nat)
    ensures ShiftRight(value, k) == value / Pow2(k)
  {
    if k > 0 {
      ShiftRightIs(value, k - 1);
      HalfOf(value, Pow2(k - 1));
    }
  }

  /** The bit pattern of `(value << k) | low`, a left shift that drops all but 32 bits. */
  function ShiftIn(value: nat, k: nat, low: nat): (r: nat)
    requires low < Pow2(k)
  {
    value * Pow2(k) % WORD + low
  }

  lemma ShiftInAppends(stream: Bits, value: nat, w: nat, low: nat)
    requires w == 5 || w == 8
    requires low < Pow2(w) && value == NatOf(stream) % WORD
    ensures ShiftIn(value, w, low) == NatOf(stream + BitsOf(low, w)) % WORD
  {
    NatOfConcat(stream, BitsOf(low, w));
    NatOfBitsOf(low, w);
    SmallPowers();
    ShiftArithmetic(NatOf(stream), w, low);
  }

  lemma ShiftArithmetic(n: nat, w: nat, low: nat)
    requires (w == 5 || w == 8) && low < Pow2(w)
    ensures ShiftIn(n % WORD, w, low) == (n * Pow2(w) + low) % WORD
  {
    SmallPowers();
    var value, p := n % WORD, Pow2(w);
    assert n == WORD * (n / WORD) + value;
    var k := if w == 5 then value / 0x800_0000 else value / 0x100_0000;
    var rest := if w == 5 then value % 0x800_0000 else value % 0x100_0000;
    DivUnique(value * p, k, rest * p, WORD);
    DivUnique(n * p + low, n / WORD * p + k, rest * p + low, WORD);
  }

  lemma WindowParts(p: Bits, g: Bits, r: Bits)
    ensures NatOf(g) < Pow2(|g|) && NatOf(r) < Pow2(|r|)
    ensures NatOf(p + g + r) == (NatOf(p) * Pow2(|g|) + NatOf(g)) * Pow2(|r|) + NatOf(r)
  {
    NatOfConcat(p + g, r);
    NatOfConcat(p, g);
    BitsOfNatOf(g);
    BitsOfNatOf(r);
  }

  /** Whatever wrapped away, `(value >>> k) & mask` still reads the right window of the stream. */
  lemma Window(p: Bits, g: Bits, r: Bits, value: nat)
    requires |r| <= 7 && (|g| == 5 || |g| == 8)
    requires value == NatOf(p + g + r) % WORD
    ensures value / Pow2(|r|) % Pow2(|g|) == NatOf(g)
  {
    WindowParts(p, g, r);
    WindowArithmetic(NatOf(p), NatOf(g), NatOf(r), |r|, |g|, NatOf(p + g + r));
  }

  lemma WindowArithmetic(p: nat, g: nat, r: nat, k: nat, w: nat, n: nat)
    requires k <= 7 && (w == 5 || w == 8)
    requires g < Pow2(w) && r < Pow2(k) && n == (p * Pow2(w) + g) * Pow2(k) + r
    ensures n % WORD / Pow2(k) % Pow2(w) == g
  {
    var m := Quotient(k, w);
    var q := n / WORD;
    assert n % WORD == n - q * WORD;
    WindowSplit(p, g, r, q, m, Pow2(k), Pow2(w));
    DivUnique(n % WORD, (p - q * m) * Pow2(w) + g, r, Pow2(k));
    DivUnique((p - q * m) * Pow2(w) + g, p - q * m, g, Pow2(w));
  }

  lemma WindowSplit(p: int, g: int, r: int, q: int, m: int, pk: int, pw: int)
    ensures (p * pw + g) * pk + r - q * (m * pw * pk) == ((p - q * m) * pw + g) * pk + r
  {
    assert q * (m * pw * pk) == (q * m * pw) * pk;
    assert (p - q * m) * pw == p * pw - q * m * pw;
  }

  /** The word size is a multiple of every window position. */
  lemma Quotient(k: nat, w: nat) returns (m: nat)
    requires k <= 7 && (w == 5 || w == 8)
    ensures m * Pow2(w) * Pow2(k) == WORD
  {
    SmallPowers();
    m := WORD / (Pow2(w) * Pow2(k));
    if w == 5 {
      if k == 0 {} else if k == 1 {} else if k == 2 {} else if k == 3 {}
      else if k == 4 {} else if k == 5 {} else if k == 6 {} else {}
    } else {
      if k == 0 {} else if k == 1 {} else if k == 2 {} else if k == 3 {}
      else if k == 4 {} else if k == 5 {} else if k == 6 {} else {}
    }
  }

  lemma SmallPowers()
    ensures Pow2(0) == 1 && Pow2(1) == 2 && Pow2(2) == 4 && Pow2(3) == 8 && Pow2(4) == 16
    ensures Pow2(5) == 32 && Pow2(6) == 64 && Pow2(7) == 128 && Pow2(8) == 256
  {
  }

  // ---------------------------------------------------------------- the loops

  lemma AppendItem(g: seq<int>, i: nat, w: Width)
    requires i < |g|
    ensures Flatten(g[..i + 1], w) == Flatten(g[..i], w) + BitsOf(g[i], w)
  {
    assert g[..i + 1] == g[..i] + [g[i]];
    FlattenConcat(g[..i], [g[i]], w);
    assert Flatten([g[i]], w) == BitsOf(g[i], w) + Flatten([], w);
  }

  lemma AppendGroup(b: Bits, g: Bits, w: Width, k: nat)
    requires |b| == Times(k, w) && |g| == w
    ensures Groups(b + g, w) == Groups(b, w) + [NatOf(g)]
  {
    GroupsConcat(b, g, w, k);
    assert g[..w] == g;
  }

  lemma AppendLetter(b: Bits, g: Bits, k: nat)
    requires |b| == 5 * k && |g| == 5
    ensures NatOf(g) < 32 && Text(b + g) == Text(b) + [Letter(NatOf(g))]
  {
    AppendGroup(b, g, 5, k);
    assert NatOf(g) < 32 && Below(Groups(b, 5), 32) by {
      BitsOfNatOf(g);
      GroupsBelow(b, 5);
      SmallPowers();
    }
    LettersAppend(Groups(b, 5), NatOf(g));
  }

  lemma LettersAppend(g: seq<int>, d: nat)
    requires Below(g, 32) && d < 32
    ensures Below(g + [d], 32) && Letters(g + [d]) == Letters(g) + [Letter(d)]
  {
  }

  lemma AppendByte(b: Bits, g: Bits, k: nat)
    requires |b| == 8 * k && |g| == 8
    ensures NatOf(g) < 256 && ToBytes(b + g) == ToBytes(b) + [NatOf(g)]
  {
    AppendGroup(b, g, 8, k);
    BitsOfNatOf(g);
    SmallPowers();
  }

  /** The accumulator holds the low 32 bits of the number that is the bit string. */
  ghost predicate Accumulates(value: nat, b: Bits) { value == NatOf(b) % WORD }

  /** The encoder's state: `done` is written, `rest` is not yet. */
  ghost predicate Encoded(done: Bits, rest: Bits, value: nat, output: string) {
    |done| == 5 * |output| && |rest| <= 12 && Accumulates(value, done + rest) && output == Text(done)
  }

  lemma Regroup(a: Bits, b: Bits, c: Bits)
    ensures a + (b + c) == (a + b) + c
  {
  }

  lemma StartsEmpty()
    ensures Encoded([], [], 0, "") && Read([], [], 0, []) && HoldsBits("", [])
  {
    var none: Bits := [];
    assert none + none == none;
  }

  lemma TakeByte(done: Bits, rest: Bits, value: nat, output: string, byte: Byte)
    requires Encoded(done, rest, value, output) && |rest| < 5
    ensures Encoded(done, rest + BitsOf(byte, 8), NextValue(value, byte), output)
  {
    Regroup(done, rest, BitsOf(byte, 8));
    NextValueAppends(done + rest, value, byte);
  }

  lemma NextValueAppends(b: Bits, value: nat, byte: Byte)
    requires Accumulates(value, b)
    ensures Accumulates(NextValue(value, byte), b + BitsOf(byte, 8))
  {
    SmallPowers();
    ShiftLeftIs(value, 8);
    ShiftInAppends(b, value, 8, byte);
  }

  /** `(value << 8) | byte` on 32 bits. */
  function NextValue(value: nat, byte: Byte): nat { ShiftLeft(value, 8) + byte }

  /** `(value >>> shift) & 31` and `(value >>> shift) & 255`. */
  function ReadFive(value: nat, shift: nat): (d: nat)
    ensures d < 32
  {
    ShiftRight(value, shift) % 32
  }

  function ReadByte(value: nat, shift: nat): Byte { ShiftRight(value, shift) % 256 }

  /** Whatever wrapped away, the accumulator reads the first unwritten group. */
  lemma ReadsGroup(done: Bits, rest: Bits, value: nat, w: Width)
    requires w <= |rest| <= 12 && Accumulates(value, done + rest)
    ensures ShiftRight(value, |rest| - w) % Pow2(w) == NatOf(rest[..w])
    ensures (done + rest[..w]) + rest[w..] == done + rest
  {
    assert done + rest[..w] + rest[w..] == done + rest;
    Window(done, rest[..w], rest[w..], value);
    ShiftRightIs(value, |rest| - w);
  }

  lemma PutLetter(done: Bits, rest: Bits, value: nat, output: string)
    requires Encoded(done, rest, value, output) && 5 <= |rest|
    ensures Encoded(done + rest[..5], rest[5..], value, output + [Letter(ReadFive(value, |rest| - 5))])
    ensures (done + rest[..5]) + rest[5..] == done + rest
  {
    SmallPowers();
    ReadsGroup(done, rest, value, 5);
    AppendLetter(done, rest[..5], |output|);
  }

  /** The variables of the encoder's loop. */
  datatype Writer = Writer(bits: nat, value: nat, output: string)

  /** The inner loop: a letter for every five unwritten bits. */
  function Emit(w: Writer): (r: Writer)
    ensures r.bits < 5
    decreases w.bits
  {
    if w.bits < 5 then w else Emit(Writer(w.bits - 5, w.value, w.output + [Letter(ReadFive(w.value, w.bits - 5))]))
  }

  function WriteBytes(buffer: seq<Byte>, n: nat): (r: Writer)
    requires n <= |buffer|
    ensures r.bits < 5
  {
    if n == 0 then Writer(0, 0, "") else NextWriter(WriteBytes(buffer, n - 1), buffer[n - 1])
  }

  function NextWriter(w: Writer, byte: Byte): (r: Writer)
    ensures r.bits < 5
  {
    Emit(Writer(w.bits + 8, NextValue(w.value, byte), w.output))
  }

  lemma {:induction false} EmitKeeps(w: Writer, done: Bits, rest: Bits) returns (done': Bits, rest': Bits)
    requires |rest| == w.bits && Encoded(done, rest, w.value, w.output)
    ensures done' + rest' == done + rest && |rest'| == Emit(w).bits &&
        Encoded(done', rest', Emit(w).value, Emit(w).output)
    decreases w.bits
  {
    if w.bits < 5 {
      done', rest' := done, rest;
    } else {
      PutLetter(done, rest, w.value, w.output);
      var next := Writer(w.bits - 5, w.value, w.output + [Letter(ReadFive(w.value, w.bits - 5))]);
      done', rest' := EmitKeeps(next, done + rest[..5], rest[5..]);
    }
  }

  lemma {:induction false} WritesBytes(buffer: seq<Byte>, n: nat) returns (done: Bits, rest: Bits)
    requires n <= |buffer|
    ensures var w := WriteBytes(buffer, n);
      done + rest == Flatten(buffer[..n], 8) && |rest| == w.bits && Encoded(done, rest, w.value, w.output)
  {
    if n == 0 {
      done, rest := [], [];
      StartsEmpty();
    } else {
      done, rest := WritesBytes(buffer, n - 1);
      AppendItem(buffer, n - 1, 8);
      done, rest := WritesOne(done, rest, WriteBytes(buffer, n - 1), buffer[n - 1]);
    }
  }

  lemma WritesOne(done: Bits, rest: Bits, w: Writer, byte: Byte) returns (done': Bits, rest': Bits)
    requires |rest| == w.bits < 5 && Encoded(done, rest, w.value, w.output)
    ensures done' + rest' == done + rest + BitsOf(byte, 8)
    ensures var next := NextWriter(w, byte);
      |rest'| == next.bits && Encoded(done', rest', next.value, next.output)
  {
    TakeByte(done, rest, w.value, w.output, byte);
    Regroup(done, rest, BitsOf(byte, 8));
    done', rest' := EmitKeeps(Writer(w.bits + 8, NextValue(w.value, byte), w.output), done, rest + BitsOf(byte, 8));
  }

  /** The encoder's inner loop. */
  method EmitLetters(waiting: nat, value: nat, written: string) returns (bits: nat, output: string)
    ensures Writer(bits, value, output) == Emit(Writer(waiting, value, written))
  {
    bits, output := waiting, written;
    while bits >= 5
      invariant Emit(Writer(bits, value, output)) == Emit(Writer(waiting, value, written))
    {
      output := output + [Letter(ReadFive(value, bits - 5))];
      bits := bits - 5;
    }
  }

  method Encode(buffer: seq<Byte>) returns (output: string)
    ensures output == Encoding(buffer)
  {
    var bits: nat, value: nat := 0, 0;
    output := "";
    for i := 0 to |buffer|
      invariant Writer(bits, value, output) == WriteBytes(buffer, i)
    {
      value := NextValue(value, buffer[i]);
      bits, output := EmitLetters(bits + 8, value, output);
    }
    ghost var w := Writer(bits, value, output);
    if bits > 0 {
      output := output + [Letter(ShiftLeft(value, 5 - bits) % 32)];
    }
    assert output == LastLetter(w);
    AllWritten(buffer);
  }

  /** The end of the encoder: the rest, shifted up to a letter. */
  function LastLetter(w: Writer): string
    requires w.bits < 5
  {
    if w.bits > 0 then w.output + [Letter(ShiftLeft(w.value, 5 - w.bits) % 32)] else w.output
  }

  lemma AllWritten(buffer: seq<Byte>)
    ensures Encoding(buffer) == LastLetter(WriteBytes(buffer, |buffer|))
  {
    var w := WriteBytes(buffer, |buffer|);
    var done, rest := WritesBytes(buffer, |buffer|);
    assert buffer[..|buffer|] == buffer;
    Finished(Flatten(buffer, 8), done, rest, w.value, w.output);
  }

  lemma Finished(all: Bits, done: Bits, rest: Bits, value: nat, output: string)
    requires all == done + rest && Encoded(done, rest, value, output) && |rest| < 5
    ensures Text(PadTo5(all)) == LastLetter(Writer(|rest|, value, output))
  {
    PadRest(done, rest, |output|);
    if |rest| > 0 {
      LastGroup(done, rest, value, |output|);
    } else {
      assert all == done && done + False(0) == done;
    }
  }

  lemma PadRest(p: Bits, t: Bits, k: nat)
    requires |p| == 5 * k && |t| < 5
    ensures PadTo5(p + t) == if |t| == 0 then p + t + False(0) else p + (t + False(5 - |t|))
  {
    PaddingIs(k, |t|);
    if |t| > 0 {
      Regroup(p, t, False(5 - |t|));
    }
  }

  lemma PaddingIs(k: nat, r: nat)
    requires r < 5
    ensures Padding(5 * k + r) == if r == 0 then 0 else 5 - r
  {
  }

  /** The final partial group, shifted left, is the zero-padded rest of the stream. */
  lemma LastGroup(p: Bits, t: Bits, value: nat, k: nat)
    requires |p| == 5 * k && 0 < |t| < 5 && Accumulates(value, p + t)
    ensures Text(p + (t + False(5 - |t|))) == Text(p) + [Letter(ShiftLeft(value, 5 - |t|) % 32)]
  {
    var z := False(5 - |t|);
    AppendLetter(p, t + z, k);
    assert NatOf(p + t) * Pow2(5 - |t|) == NatOf(p) * 32 + NatOf(t + z) by {
      Regroup(p, t, z);
      NatOfConcat(p, t + z);
      NatOfConcat(p + t, z);
      NatOfFalse(5 - |t|);
      SmallPowers();
    }
    ShiftLeftIs(value, 5 - |t|);
    LastArithmetic(NatOf(p + t), NatOf(p), NatOf(t + z), 5 - |t|);
  }

  lemma {:induction false} NatOfFalse(n: nat)
    ensures NatOf(False(n)) == 0
  {
    if n > 0 {
      assert False(n)[..n - 1] == False(n - 1);
      NatOfFalse(n - 1);
    }
  }

  lemma TimesDifference(n: int, q: int, d: int, p: int)
    ensures (n - q * d) * p == n * p - q * p * d
  {
    assert q * d * p == q * p * d;
  }

  lemma LastArithmetic(n: nat, p: nat, g: nat, k: nat)
    requires 0 < k < 5 && g < 32 && n * Pow2(k) == p * 32 + g
    ensures ShiftIn(n % WORD, k, 0) % 32 == g
  {
    var pk, q := Pow2(k), n / WORD;
    var value := n - q * WORD;
    var a := value * pk / WORD;
    assert ShiftIn(value, k, 0) == value * pk - a * WORD;
    assert value * pk == n * pk - q * pk * WORD by { TimesDifference(n, q, WORD, pk); }
    DivUnique(ShiftIn(value, k, 0), p - (q * pk + a) * 0x800_0000, g, 32);
  }

  ghost predicate HoldsBits(letters: string, stream: Bits) {
    IsSecret(letters) && stream == Flatten(Indices(letters), 5)
  }

  /** The decoder's state: `done` is whole bytes already, `rest` is not yet. */
  ghost predicate Read(done: Bits, rest: Bits, value: nat, bytes: seq<Byte>) {
    |done| == 8 * |bytes| && |rest| <= 12 && Accumulates(value, done + rest) && bytes == ToBytes(done)
  }

  /** `(value << 5) | index` on 32 bits. */
  function NextWord(value: nat, index: nat): nat { ShiftLeft(value, 5) + index }

  lemma NextWordAppends(b: Bits, value: nat, index: nat)
    requires index < 32 && Accumulates(value, b)
    ensures Accumulates(NextWord(value, index), b + BitsOf(index, 5))
  {
    SmallPowers();
    ShiftLeftIs(value, 5);
    ShiftInAppends(b, value, 5, index);
  }

  lemma AppendIndex(clean: string, i: nat, stream: Bits)
    requires i < |clean| && HoldsBits(clean[..i], stream) && IndexOf(clean[i]) >= 0
    ensures HoldsBits(clean[..i + 1], stream + BitsOf(IndexOf(clean[i]), 5))
  {
    assert clean[..i + 1] == clean[..i] + [clean[i]];
    IndicesAppend(clean[..i], clean[i]);
    FlattenConcat(Indices(clean[..i]), [IndexOf(clean[i])], 5);
    OneItem(IndexOf(clean[i]), 5);
  }

  lemma IndicesAppend(s: string, c: char)
    requires IsSecret(s) && IndexOf(c) >= 0
    ensures IsSecret(s + [c]) && Indices(s + [c]) == Indices(s) + [IndexOf(c)]
  {
  }

  lemma OneItem(n: nat, w: Width)
    ensures Flatten([n], w) == BitsOf(n, w)
  {
    assert Flatten([n], w) == BitsOf(n, w) + Flatten([], w);
  }

  lemma TakeLetter(done: Bits, rest: Bits, value: nat, bytes: seq<Byte>, index: nat)
    requires Read(done, rest, value, bytes) && |rest| < 8 && index < 32
    ensures Read(done, rest + BitsOf(index, 5), NextWord(value, index), bytes)
  {
    Regroup(done, rest, BitsOf(index, 5));
    NextWordAppends(done + rest, value, index);
  }

  lemma PutByte(done: Bits, rest: Bits, value: nat, bytes: seq<Byte>)
    requires Read(done, rest, value, bytes) && 8 <= |rest|
    ensures Read(done + rest[..8], rest[8..], value, bytes + [ReadByte(value, |rest| - 8)])
    ensures (done + rest[..8]) + rest[8..] == done + rest
  {
    SmallPowers();
    ReadsGroup(done, rest, value, 8);
    AppendByte(done, rest[..8], |bytes|);
  }

  /** The variables of the decoder's loop. */
  datatype Reader = Reader(bits: nat, value: nat, bytes: seq<Byte>)

  /** One turn of the loop. */
  function NextLetter(r: Reader, index: nat): Reader {
    TakeByteOf(Reader(r.bits + 5, NextWord(r.value, index), r.bytes))
  }

  /** The first eight waiting bits, if there are so many, become a byte. */
  function TakeByteOf(r: Reader): Reader {
    if r.bits >= 8 then Reader(r.bits - 8, r.value, r.bytes + [ReadByte(r.value, r.bits - 8)]) else r
  }

  predicate KnownLetters(clean: string, n: nat)
    requires n <= |clean|
  {
    forall i :: 0 <= i < n ==> IndexOf(clean[i]) >= 0
  }

  function ReadLetters(clean: string, n: nat): Reader
    requires n <= |clean| && KnownLetters(clean, n)
  {
    if n == 0 then Reader(0, 0, []) else NextLetter(ReadLetters(clean, n - 1), IndexOf(clean[n - 1]))
  }

  lemma {:induction false} ReadsLetters(clean: string, n: nat) returns (done: Bits, rest: Bits)
    requires n <= |clean| && KnownLetters(clean, n)
    ensures var r := ReadLetters(clean, n);
      HoldsBits(clean[..n], done + rest) && |rest| == r.bits < 8 && Read(done, rest, r.value, r.bytes)
  {
    if n == 0 {
      done, rest := [], [];
      StartsEmpty();
    } else {
      done, rest := ReadsLetters(clean, n - 1);
      AppendIndex(clean, n - 1, done + rest);
      done, rest := ReadsOne(done, rest, ReadLetters(clean, n - 1), IndexOf(clean[n - 1]));
    }
  }

  lemma ReadsOne(done: Bits, rest: Bits, r: Reader, index: nat) returns (done': Bits, rest': Bits)
    requires |rest| == r.bits < 8 && Read(done, rest, r.value, r.bytes) && index < 32
    ensures done' + rest' == done + rest + BitsOf(index, 5)
    ensures var next := NextLetter(r, index); |rest'| == next.bits < 8 && Read(done', rest', next.value, next.bytes)
  {
    TakeLetter(done, rest, r.value, r.bytes, index);
    Regroup(done, rest, BitsOf(index, 5));
    done', rest' := MakesByte(done, rest + BitsOf(index, 5), Reader(r.bits + 5, NextWord(r.value, index), r.bytes));
  }

  lemma MakesByte(done: Bits, rest: Bits, r: Reader) returns (done': Bits, rest': Bits)
    requires |rest| == r.bits <= 12 && Read(done, rest, r.value, r.bytes)
    ensures done' + rest' == done + rest && |rest'| == TakeByteOf(r).bits < 8
    ensures Read(done', rest', TakeByteOf(r).value, TakeByteOf(r).bytes)
  {
    if r.bits >= 8 {
      PutByte(done, rest, r.value, r.bytes);
      done', rest' := done + rest[..8], rest[8..];
    } else {
      done', rest' := done, rest;
    }
  }

  lemma ReadsNext(clean: string, i: nat, r: Reader)
    requires i < |clean| && KnownLetters(clean, i) && IndexOf(clean[i]) >= 0 && r == ReadLetters(clean, i)
    ensures KnownLetters(clean, i + 1)
    ensures ReadLetters(clean, i + 1) == TakeByteOf(Reader(r.bits + 5, NextWord(r.value, IndexOf(clean[i])), r.bytes))
  {
  }

  lemma BadLetter(input: string, i: nat)
    requires i < |Clean(input)| && IndexOf(Clean(input)[i]) < 0
    ensures Decoding(input) == InvalidSecret
  {
  }

  method Decode(input: string) returns (result: Decoded)
    ensures result == Decoding(input)
  {
    var clean := Clean(input);
    var bits: nat, value: nat := 0, 0;
    var bytes: seq<Byte> := [];
    for i := 0 to |clean|
      invariant KnownLetters(clean, i)
      invariant Reader(bits, value, bytes) == ReadLetters(clean, i)
    {
      var index := IndexOf(clean[i]);
      if index < 0 {
        BadLetter(input, i);
        return InvalidSecret;
      }
      ReadsNext(clean, i, Reader(bits, value, bytes));
      value := NextWord(value, index);
      bits := bits + 5;
      ghost var next := TakeByteOf(Reader(bits, value, bytes));
      assert next == ReadLetters(clean, i + 1);
      if bits >= 8 {
        bytes := bytes + [ReadByte(value, bits - 8)];
        bits := bits - 8;
      }
      assert Reader(bits, value, bytes) == next;
    }
    AllRead(input);
    result := Bytes(bytes);
  }

  lemma DropsRest(done: Bits, rest: Bits, k: nat)
    requires |done| == 8 * k && |rest| < 8
    ensures ToBytes(done + rest) == ToBytes(done)
  {
    GroupsConcat(done, rest, 8, k);
    assert Groups(rest, 8) == [];
  }

  lemma AllRead(input: string)
    requires KnownLetters(Clean(input), |Clean(input)|)
    ensures Decoding(input) == Bytes(ReadLetters(Clean(input), |Clean(input)|).bytes)
  {
    var clean := Clean(input);
    var done, rest := ReadsLetters(clean, |clean|);
    assert clean[..|clean|] == clean;
    DropsRest(done, rest, |ReadLetters(clean, |clean|).bytes|);
  }

  // ---------------------------------------------------------------- round trips

  lemma LetterCode(d: nat)
    requires d < 32
    ensures Letter(d) as int == if d < 26 then 65 + d else 24 + d
  {
  }

  lemma IndexOfLetter(d: nat)
    requires d < 32
    ensures IndexOf(Letter(d)) == d
  {
    var i := IndexOf(Letter(d));
    LetterCode(d);
    if i >= 0 {
      LetterCode(i);
    }
  }

  lemma IndicesOfLetters(g: seq<int>)
    requires Below(g, 32)
    ensures IsSecret(Letters(g)) && Indices(Letters(g)) == g
  {
    forall i | 0 <= i < |g| ensures IndexOf(Letters(g)[i]) == g[i] {
      IndexOfLetter(g[i]);
    }
  }

  lemma LettersOfIndices(s: string)
    requires IsSecret(s)
    ensures Letters(Indices(s)) == s
  {
    forall i | 0 <= i < |s| ensures Letter(IndexOf(s[i])) == s[i] {
      LetterCode(IndexOf(s[i]));
    }
  }

  lemma CleanSecret(s: string)
    requires IsSecret(s)
    ensures Clean(s) == s
  {
    forall i | 0 <= i < |s| ensures s[i] != '=' && Upper(s[i]) == [s[i]] {
      LetterCode(IndexOf(s[i]));
    }
    assert StripPadding(s) == s;
    UpperStays(s);
  }

  lemma {:induction false} UpperStays(s: string)
    requires forall i :: 0 <= i < |s| ==> Upper(s[i]) == [s[i]]
    ensures UpperAll(s) == s
  {
    if s != "" {
      UpperStays(s[1..]);
    }
  }

  lemma TextInjective(b: Bits, k: nat)
    requires |b| == 5 * k
    ensures IsSecret(Text(b)) && Flatten(Indices(Text(b)), 5) == b && |Text(b)| == k
  {
    FlattenOfGroups(b, [], 5, k);
    assert b + [] == b;
    GroupsLength(b, 5, k);
    GroupsBelow(b, 5);
    SmallPowers();
    IndicesOfLetters(Groups(b, 5));
  }

  lemma PaddedGroups(b: Bits, k: nat)
    requires |b| == 8 * k
    ensures Groups(PadTo5(b), 8) == Groups(b, 8)
  {
    GroupsConcat(b, False(Padding(|b|)), 8, k);
    assert Groups(False(Padding(|b|)), 8) == [];
  }

  lemma BytesOfPadded(buffer: seq<Byte>)
    ensures ToBytes(PadTo5(Flatten(buffer, 8))) == buffer
  {
    FlattenLength(buffer, 8);
    PaddedGroups(Flatten(buffer, 8), |buffer|);
    assert Below(buffer, Pow2(8)) by { SmallPowers(); }
    GroupsOfFlatten(buffer, 8);
  }

  lemma PaddedLength(buffer: seq<Byte>)
    ensures |PadTo5(Flatten(buffer, 8))| == 5 * ((8 * |buffer| + 4) / 5)
  {
    FlattenLength(buffer, 8);
    WholeLetters(|buffer|);
  }

  lemma WholeLetters(n: nat)
    ensures 8 * n + Padding(8 * n) == 5 * ((8 * n + 4) / 5)
  {
    var q, r := 8 * n / 5, 8 * n % 5;
    PaddingIs(q, r);
  }

  /** Encoding is lossless for every byte sequence, although the accumulator wraps. */
  lemma DecodeEncode(buffer: seq<Byte>)
    ensures Decoding(Encoding(buffer)) == Bytes(buffer)
    ensures |Encoding(buffer)| == (8 * |buffer| + 4) / 5
  {
    PaddedLength(buffer);
    TextInjective(PadTo5(Flatten(buffer, 8)), (8 * |buffer| + 4) / 5);
    CleanSecret(Encoding(buffer));
    BytesOfPadded(buffer);
  }

  /** Whether a decoder loses nothing: no spare letter, and no spare one bits in the last letter. */
  predicate Canonical(s: string) {
    && |s| % 8 != 1 && |s| % 8 != 3 && |s| % 8 != 6
    && (s != "" ==> IndexOf(s[|s| - 1]) % Pow2(5 * |s| % 8) == 0)
  }

  lemma TextOfIndices(s: string)
    requires IsSecret(s)
    ensures Text(Flatten(Indices(s), 5)) == s
  {
    LettersOfIndices(s);
    assert Below(Indices(s), Pow2(5)) by { SmallPowers(); }
    GroupsOfFlatten(Indices(s), 5);
  }

  function SecretBits(s: string): Bits
    requires IsSecret(s)
  {
    Flatten(Indices(s), 5)
  }

  /** The bits of a secret, as whole bytes and a rest that makes none. */
  function WholeBits(s: string): Bits
    requires IsSecret(s)
  {
    var b := SecretBits(s);
    b[..8 * (|b| / 8)]
  }

  function RestBits(s: string): Bits
    requires IsSecret(s)
  {
    var b := SecretBits(s);
    b[8 * (|b| / 8)..]
  }

  lemma Parts(s: string)
    requires IsSecret(s)
    ensures SecretBits(s) == WholeBits(s) + RestBits(s)
    ensures |WholeBits(s)| == 8 * (5 * |s| / 8) && |RestBits(s)| == 5 * |s| % 8
  {
    FlattenLength(Indices(s), 5);
    SplitByEight(SecretBits(s));
  }

  lemma SplitByEight(b: Bits)
    ensures var n := 8 * (|b| / 8); n <= |b| && b == b[..n] + b[n..] && |b| - n == |b| % 8
  {
  }

  /** Re-encoding pads the whole bytes only; the rest is lost. */
  lemma Reencode(s: string)
    requires IsSecret(s)
    ensures DecodingClean(s).Bytes? && Encoding(DecodingClean(s).bytes) == Text(PadTo5(WholeBits(s)))
  {
    Parts(s);
    FlattenOfGroups(WholeBits(s), RestBits(s), 8, 5 * |s| / 8);
  }

  /** Of all inputs that decode, re-encoding gives back exactly the canonical secrets. */
  lemma EncodeDecode(input: string)
    requires Decoding(input).Bytes?
    ensures Encoding(Decoding(input).bytes) == input <==> IsSecret(input) && Canonical(input)
  {
    if IsSecret(input) {
      CleanSecret(input);
      EncodeDecodeSecret(input);
    } else {
      EncodingIsSecret(Decoding(input).bytes);
    }
  }

  lemma EncodingIsSecret(buffer: seq<Byte>)
    ensures IsSecret(Encoding(buffer))
  {
    PaddedLength(buffer);
    TextInjective(PadTo5(Flatten(buffer, 8)), (8 * |buffer| + 4) / 5);
  }

  lemma EncodeDecodeSecret(s: string)
    requires IsSecret(s)
    ensures DecodingClean(s).Bytes? && (Encoding(DecodingClean(s).bytes) == s <==> Canonical(s))
  {
    Parts(s);
    Reencode(s);
    TextOfIndices(s);
    SameText(WholeBits(s), RestBits(s), |s|);
    SpareBits(s);
  }

  /** The padded bytes print like all the bits exactly when the padding is what was lost. */
  lemma SameText(whole: Bits, rest: Bits, n: nat)
    requires |whole| + |rest| == 5 * n && |rest| < 8
    ensures Text(PadTo5(whole)) == Text(whole + rest) <==> |rest| < 5 && rest == False(|rest|)
  {
    PaddingBack(n, |rest|);
    var padded := PadTo5(whole);
    TextInjective(whole + rest, n);
    TextInjective(padded, if |rest| < 5 then n else n - 1);
    if |rest| < 5 {
      assert padded == whole + rest ==> rest == padded[|whole|..];
      assert False(|rest|) == padded[|whole|..];
    }
  }

  lemma PaddingBack(n: nat, r: nat)
    requires r <= 5 * n && r < 8
    ensures Padding(5 * n - r) == if r < 5 then r else r - 5
  {
    if r < 5 {
      PaddingIs(if r == 0 then n else n - 1, if r == 0 then 0 else 5 - r);
    } else {
      PaddingIs(if r == 5 then n - 1 else n - 2, if r == 5 then 0 else 10 - r);
    }
  }

  /** `Canonical` speaks of the letters; the bits left over by the decoder decide. */
  lemma SpareBits(s: string)
    requires IsSecret(s)
    ensures var rest := RestBits(s); Canonical(s) <==> |rest| < 5 && rest == False(|rest|)
  {
    var b, rest := SecretBits(s), RestBits(s);
    Parts(s);
    SpareLetter(|s|);
    if s != "" && |rest| < 5 {
      LastLetterBits(Indices(s), |rest|);
      assert rest == b[|b| - |rest|..];
    }
  }

  lemma SpareLetter(n: nat)
    ensures 5 * n % 8 < 5 <==> n % 8 != 1 && n % 8 != 3 && n % 8 != 6
  {
    var m := n % 8;
    DivUnique(5 * n, 5 * (n / 8) + 5 * m / 8, 5 * m % 8, 8);
  }

  lemma LastLetterBits(g: seq<int>, r: nat)
    requires g != [] && Below(g, 32) && r < 5
    ensures var b := Flatten(g, 5);
      r <= |b| && (b[|b| - r..] == False(r) <==> g[|g| - 1] % Pow2(r) == 0)
  {
    var n := |g| - 1;
    assert g[..n + 1] == g;
    AppendItem(g, n, 5);
    LowZeros(Flatten(g[..n], 5), BitsOf(g[n], 5), g[n], r);
  }

  lemma LowZeros(before: Bits, t: Bits, d: nat, r: nat)
    requires d < 32 && t == BitsOf(d, 5) && r < 5
    ensures (before + t)[|before + t| - r..] == False(r) <==> d % Pow2(r) == 0
  {
    assert (before + t)[|before + t| - r..] == t[5 - r..];
    LowBits(d, t[..5 - r], t[5 - r..]);
    ZeroBits(t[5 - r..]);
  }

  lemma LowBits(n: nat, high: Bits, low: Bits)
    requires n < 32 && |high| + |low| == 5 && high + low == BitsOf(n, 5)
    ensures n % Pow2(|low|) == NatOf(low)
  {
    assert n < Pow2(5) by { SmallPowers(); }
    NatOfBitsOf(n, 5);
    NatOfConcat(high, low);
    BitsOfNatOf(low);
    DivUnique(n, NatOf(high), NatOf(low), Pow2(|low|));
  }

  lemma {:induction false} ZeroBits(b: Bits)
    ensures NatOf(b) == 0 <==> b == False(|b|)
  {
    NatOfFalse(|b|);
    BitsOfNatOf(b);
    BitsOfNatOf(False(|b|));
  }
}
