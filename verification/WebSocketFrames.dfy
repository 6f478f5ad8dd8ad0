/** WebSocket framing as in sections 5.2 and 5.3 of RFC 6455: the loop that unmasks client
    frames and the header the server writes. Text stays as its UTF-8 bytes. */
module WebSocketFrames {
  import opened Numerals

  type Byte = b: int | 0 <= b < 256

  // ---------------------------------------------------------------- client frames

  /** A masked client frame. `first` carries FIN and the opcode; `wide` says whether the length is
      written in the two extra bytes, which short payloads may use too. */
  datatype Frame = Frame(first: Byte, wide: bool, mask: seq<Byte>, payload: seq<Byte>)

  predicate ValidFrame(f: Frame) {
    |f.mask| == 4 && |f.payload| < 0x1_0000 && (!f.wide ==> |f.payload| < 126)
  }

  /** Exclusive or of the low `width` bits, bit by bit. */
  function XorBits(a: nat, b: nat, width: nat): (r: nat) {
    if width == 0 then 0 else 2 * XorBits(a / 2, b / 2, width - 1) + (a + b) % 2
  }

  lemma {:induction false} XorBound(a: nat, b: nat, width: nat)
    ensures XorBits(a, b, width) < Pow2(width)
  {
    if width > 0 {
      XorBound(a / 2, b / 2, width - 1);
    }
  }

  function Xor(a: Byte, b: Byte): Byte {
    XorBound(a, b, 8);
    assert Pow2(8) == 256 by { assert Pow2(4) == 16; }
    XorBits(a, b, 8)
  }

  function Masked(payload: seq<Byte>, mask: seq<Byte>): (r: seq<Byte>)
    requires |mask| == 4
    ensures |r| == |payload|
  {
    seq(|payload|, i requires 0 <= i < |payload| => Xor(payload[i], mask[i % 4]))
  }

  function LengthBytes(f: Frame): seq<Byte>
    requires ValidFrame(f)
  {
    if f.wide then [128 + 126, |f.payload| / 256, |f.payload| % 256] else [128 + |f.payload|]
  }

  function Encode(f: Frame): seq<Byte>
    requires ValidFrame(f)
  {
    [f.first] + LengthBytes(f) + f.mask + Masked(f.payload, f.mask)
  }

  function EncodeAll(frames: seq<Frame>): seq<Byte>
    requires forall f <- frames :: ValidFrame(f)
  {
    if frames == [] then [] else Encode(frames[0]) + EncodeAll(frames[1..])
  }

  predicate IsText(f: Frame) { f.first % 16 == 1 }

  /** The payloads of the text frames, in order. */
  function TextsOf(frames: seq<Frame>): seq<seq<Byte>> {
    if frames == [] then [] else (if IsText(frames[0]) then [frames[0].payload] else []) + TextsOf(frames[1..])
  }

  // ---------------------------------------------------------------- what a chunk holds

  datatype Head = Incomplete | Head(frame: Frame, end: nat)

  /** The frame the parser takes at an offset: complete, masked, and not of length 127. That length
      marks the 64-bit form, but the test is made after the 16-bit length was read, so a frame with
      exactly 127 payload bytes is refused as well. */
  function FrameAt(chunk: seq<Byte>, offset: nat): (h: Head)
    requires offset <= |chunk|
    ensures h.Head? ==> offset + 2 <= h.end <= |chunk| && ValidFrame(h.frame)
  {
    if offset + 2 > |chunk| then Incomplete else
      var second := chunk[offset + 1];
      var wide := second % 128 == 126;
      if wide && offset + 4 > |chunk| then Incomplete else
        var start := offset + if wide then 4 else 2;
        var length := if wide then chunk[offset + 2] as nat * 256 + chunk[offset + 3] as nat else second as nat % 128;
        if length == 127 || second < 128 || start + 4 + length > |chunk| then Incomplete else
          Head(FrameFrom(chunk, chunk[offset], wide, start, length), start + 4 + length)
  }

  function FrameFrom(chunk: seq<Byte>, first: Byte, wide: bool, start: nat, length: nat): Frame
    requires start + 4 + length <= |chunk|
  {
    Frame(first, wide, chunk[start..start + 4], Unmasked(chunk, start, length))
  }

  /** The payload of this length behind the mask at `start`. */
  function Unmasked(chunk: seq<Byte>, start: nat, length: nat): (r: seq<Byte>)
    requires start + 4 + length <= |chunk|
    ensures |r| == length
  {
    Masked(chunk[start + 4..start + 4 + length], chunk[start..start + 4])
  }

  /** The frames taken from an offset on. */
  function Scan(chunk: seq<Byte>, offset: nat): (frames: seq<Frame>)
    requires offset <= |chunk|
    ensures forall f <- frames :: ValidFrame(f)
    decreases |chunk| - offset
  {
    match FrameAt(chunk, offset)
    case Incomplete => []
    case Head(frame, end) => [frame] + Scan(chunk, end)
  }

  /** `rests[o]` are the messages still to come at the offset `o`. */
  ghost predicate AreRests(chunk: seq<Byte>, rests: seq<seq<seq<Byte>>>) {
    |rests| == |chunk| + 1 &&
    forall o {:trigger Scan(chunk, o)} :: 0 <= o <= |chunk| ==> rests[o] == TextsOf(Scan(chunk, o))
  }

  lemma Rests(chunk: seq<Byte>) returns (rests: seq<seq<seq<Byte>>>)
    ensures AreRests(chunk, rests)
  {
    rests := seq(|chunk| + 1, o requires 0 <= o <= |chunk| => TextsOf(Scan(chunk, o)));
  }

  /** Reading up to an offset has returned these messages. */
  ghost predicate ReadUpTo(rests: seq<seq<seq<Byte>>>, messages: seq<seq<Byte>>, offset: nat) {
    offset < |rests| && rests[0] == messages + rests[offset]
  }

  /** Where the payload's mask starts and how long the payload is, as the header tells. */
  ghost predicate HeaderRead(chunk: seq<Byte>, offset: nat, start: nat, length: nat) {
    && offset + 2 <= start <= |chunk|
    && if chunk[offset + 1] % 128 == 126
       then start == offset + 4 && length == chunk[offset + 2] as nat * 256 + chunk[offset + 3] as nat
       else start == offset + 2 && length == chunk[offset + 1] as nat % 128
  }

  predicate Refused(chunk: seq<Byte>, offset: nat, start: nat, length: nat)
    requires offset + 2 <= |chunk|
  {
    length == 127 || chunk[offset + 1] < 128 || start + 4 + length > |chunk|
  }

  lemma FrameByHeader(chunk: seq<Byte>, offset: nat, start: nat, length: nat)
    requires HeaderRead(chunk, offset, start, length)
    ensures FrameAt(chunk, offset) ==
      if Refused(chunk, offset, start, length) then Incomplete
      else Head(FrameFrom(chunk, chunk[offset], start == offset + 4, start, length), start + 4 + length)
  {
  }

  lemma ReadShort(chunk: seq<Byte>, rests: seq<seq<seq<Byte>>>, messages: seq<seq<Byte>>, offset: nat)
    requires AreRests(chunk, rests) && ReadUpTo(rests, messages, offset)
    requires |chunk| < offset + 2 || (chunk[offset + 1] % 128 == 126 && |chunk| < offset + 4)
    ensures messages == rests[0]
  {
    assert rests[offset] == TextsOf(Scan(chunk, offset));
    Regroup(messages, [], []);
  }

  lemma ReadRefused(chunk: seq<Byte>, rests: seq<seq<seq<Byte>>>, messages: seq<seq<Byte>>, offset: nat, start: nat,
      length: nat)
    requires AreRests(chunk, rests) && ReadUpTo(rests, messages, offset) && HeaderRead(chunk, offset, start, length)
    requires Refused(chunk, offset, start, length)
    ensures messages == rests[0]
  {
    assert rests[offset] == TextsOf(Scan(chunk, offset));
    FrameByHeader(chunk, offset, start, length);
    Regroup(messages, [], []);
  }

  lemma ReadFrame(chunk: seq<Byte>, rests: seq<seq<seq<Byte>>>, messages: seq<seq<Byte>>, offset: nat, start: nat,
      length: nat)
    requires AreRests(chunk, rests) && ReadUpTo(rests, messages, offset) && HeaderRead(chunk, offset, start, length)
    requires !Refused(chunk, offset, start, length)
    ensures ReadUpTo(rests, WithText(messages, chunk[offset], Unmasked(chunk, start, length)), start + 4 + length)
  {
    FrameByHeader(chunk, offset, start, length);
    var f, rest := FrameAt(chunk, offset).frame, Scan(chunk, start + 4 + length);
    assert rests[offset] == TextsOf(Scan(chunk, offset));
    assert ([f] + rest)[1..] == rest;
    Regroup(messages, if IsText(f) then [f.payload] else [], TextsOf(rest));
  }

  /** A text frame adds its payload. */
  function WithText(messages: seq<seq<Byte>>, first: Byte, payload: seq<Byte>): seq<seq<Byte>> {
    if first % 16 == 1 then messages + [payload] else messages
  }

  lemma Regroup(a: seq<seq<Byte>>, b: seq<seq<Byte>>, c: seq<seq<Byte>>)
    ensures a + (b + c) == (a + b) + c && a + [] == a
  {
  }

  method ParseClientTextFrames(chunk: seq<Byte>) returns (messages: seq<seq<Byte>>)
    ensures messages == TextsOf(Scan(chunk, 0))
  {
    messages := [];
    var offset := 0;
    ghost var rests := Rests(chunk);
    while offset + 2 <= |chunk|
      invariant ReadUpTo(rests, messages, offset)
      decreases |chunk| - offset
    {
      ghost var from := offset;
      var first := chunk[offset];
      var second := chunk[offset + 1];
      var masked := second >= 128;
      var length := second as nat % 128;
      offset := offset + 2;
      if length == 126 {
        if offset + 2 > |chunk| {
          ReadShort(chunk, rests, messages, from);
          return;
        }
        length := chunk[offset] as nat * 256 + chunk[offset + 1] as nat;
        offset := offset + 2;
      }
      if length == 127 || !masked || offset + 4 + length > |chunk| {
        ReadRefused(chunk, rests, messages, from, offset, length);
        return;
      }
      ReadFrame(chunk, rests, messages, from, offset, length);
      var payload := Unmask(chunk, offset, length);
      offset := offset + 4 + length;
      if first % 16 == 1 {
        messages := messages + [payload];
      }
    }
    ReadShort(chunk, rests, messages, offset);
  }

  method Unmask(chunk: seq<Byte>, offset: nat, length: nat) returns (text: seq<Byte>)
    requires offset + 4 + length <= |chunk|
    ensures text == Unmasked(chunk, offset, length)
  {
    var mask := chunk[offset..offset + 4];
    var start := offset + 4;
    var payload := new Byte[length](_ => 0);
    for index := 0 to length
      invariant payload[..index] == Masked(chunk[start..start + length], mask)[..index]
    {
      payload[index] := Xor(chunk[start + index], mask[index % 4]);
    }
    text := payload[..];
    assert payload[..length] == text;
  }

  // ---------------------------------------------------------------- what the parser returns

  lemma LowBit(high: nat, a: nat, b: nat)
    ensures var x := 2 * high + (a + b) % 2; x / 2 == high && (x + b) % 2 == a % 2
  {
  }

  lemma {:induction false} XorBitsTwice(a: nat, b: nat, width: nat)
    requires a < Pow2(width)
    ensures XorBits(XorBits(a, b, width), b, width) == a
  {
    if width > 0 {
      XorBitsTwice(a / 2, b / 2, width - 1);
      LowBit(XorBits(a / 2, b / 2, width - 1), a, b);
    }
  }

  lemma XorTwice(a: Byte, b: Byte)
    ensures Xor(Xor(a, b), b) == a
  {
    assert Pow2(8) == 256 by { assert Pow2(4) == 16; }
    XorBitsTwice(a, b, 8);
  }

  lemma {:induction false} XorBitsAt(a: nat, b: nat, width: nat, i: nat)
    requires i < width
    ensures Bit(XorBits(a, b, width), i) == (Bit(a, i) + Bit(b, i)) % 2
  {
    var x := XorBits(a, b, width);
    XorBitsHalf(a, b, width);
    if i > 0 {
      XorBitsAt(a / 2, b / 2, width - 1, i - 1);
    }
  }

  lemma XorBitsHalf(a: nat, b: nat, width: nat)
    requires width > 0
    ensures var x := XorBits(a, b, width);
      x / 2 == XorBits(a / 2, b / 2, width - 1) && x % 2 == (a % 2 + b % 2) % 2
  {
    LowBit(XorBits(a / 2, b / 2, width - 1), a, b);
    SumOfBits(a, b);
  }

  /** Every bit of an exclusive or is the sum of the two bits modulo two. */
  lemma XorBit(a: Byte, b: Byte, i: nat)
    requires i < 8
    ensures Bit(Xor(a, b), i) == (Bit(a, i) + Bit(b, i)) % 2
  {
    XorIs(a, b);
    XorBitsAt(a, b, 8, i);
  }

  lemma XorIs(a: Byte, b: Byte)
    ensures Xor(a, b) == XorBits(a, b, 8)
  {
  }

  lemma SumOfBits(a: nat, b: nat)
    ensures (a % 2 + b % 2) % 2 == (a + b) % 2
  {
  }

  lemma MaskedTwice(payload: seq<Byte>, mask: seq<Byte>)
    requires |mask| == 4
    ensures Masked(Masked(payload, mask), mask) == payload
  {
    forall i | 0 <= i < |payload| ensures Masked(Masked(payload, mask), mask)[i] == payload[i] {
      XorTwice(payload[i], mask[i % 4]);
    }
  }

  function HeaderSize(f: Frame): nat { if f.wide then 4 else 2 }

  /** Where the parts of one encoded frame lie. */
  lemma EncodedParts(f: Frame)
    requires ValidFrame(f)
    ensures var e, h := Encode(f), HeaderSize(f);
      && |e| == h + 4 + |f.payload| && e[0] == f.first && e[1..h] == LengthBytes(f)
      && e[h..h + 4] == f.mask && e[h + 4..] == Masked(f.payload, f.mask)
  {
  }

  lemma Inside(done: seq<Byte>, e: seq<Byte>, rest: seq<Byte>, i: nat, j: nat)
    requires i <= j <= |e|
    ensures (done + e + rest)[|done| + i..|done| + j] == e[i..j]
  {
  }

  lemma HeaderSent(done: seq<Byte>, f: Frame, rest: seq<Byte>)
    requires ValidFrame(f)
    ensures var chunk := done + Encode(f) + rest;
      && HeaderRead(chunk, |done|, |done| + HeaderSize(f), |f.payload|)
      && chunk[|done|] == f.first && chunk[|done| + 1] >= 128
  {
    var chunk, h := done + Encode(f) + rest, HeaderSize(f);
    EncodedParts(f);
    Inside(done, Encode(f), rest, 1, h);
    assert chunk[|done|] == Encode(f)[0];
    var size, n := chunk[|done| + 1..|done| + h], |f.payload|;
    assert size == LengthBytes(f) && chunk[|done| + 1] == size[0];
    if f.wide {
      assert chunk[|done| + 2] == n / 256 && chunk[|done| + 3] == n % 256 by {
        assert chunk[|done| + 2] == size[1] && chunk[|done| + 3] == size[2];
      }
      assert n / 256 * 256 + n % 256 == n;
    } else {
      assert (128 + n) % 128 == n;
    }
  }

  /** A whole frame is taken as it was sent, unless it has exactly 127 payload bytes. */
  lemma FrameTaken(done: seq<Byte>, f: Frame, rest: seq<Byte>)
    requires ValidFrame(f)
    ensures FrameAt(done + Encode(f) + rest, |done|) ==
      if |f.payload| == 127 then Incomplete else Head(f, |done| + |Encode(f)|)
  {
    var chunk, h := done + Encode(f) + rest, HeaderSize(f);
    HeaderSent(done, f, rest);
    FrameByHeader(chunk, |done|, |done| + h, |f.payload|);
    EncodedParts(f);
    Inside(done, Encode(f), rest, h, h + 4);
    Inside(done, Encode(f), rest, h + 4, |Encode(f)|);
    MaskedTwice(f.payload, f.mask);
  }

  /** The frames before the first one with exactly 127 payload bytes. */
  function Before127(frames: seq<Frame>): (r: seq<Frame>)
    ensures r <= frames
  {
    if frames == [] || |frames[0].payload| == 127 then [] else [frames[0]] + Before127(frames[1..])
  }

  lemma Append3(a: seq<Byte>, b: seq<Byte>, c: seq<Byte>)
    ensures a + (b + c) == a + b + c && |a + b| == |a| + |b|
  {
  }

  lemma ScanFirst(done: seq<Byte>, f: Frame, rest: seq<Byte>)
    requires ValidFrame(f)
    ensures Scan(done + Encode(f) + rest, |done|) ==
      if |f.payload| == 127 then [] else [f] + Scan(done + Encode(f) + rest, |done + Encode(f)|)
  {
    FrameTaken(done, f, rest);
  }

  lemma {:induction false} ScanSent(done: seq<Byte>, frames: seq<Frame>)
    requires forall f <- frames :: ValidFrame(f)
    ensures Scan(done + EncodeAll(frames), |done|) == Before127(frames)
    decreases |frames|
  {
    if frames == [] {
      assert done + EncodeAll(frames) == done;
    } else {
      var e, rest := Encode(frames[0]), EncodeAll(frames[1..]);
      ScanFirst(done, frames[0], rest);
      ScanSent(done + e, frames[1..]);
      Append3(done, e, rest);
      assert EncodeAll(frames) == e + rest;
    }
  }

  /** On complete frames the parser takes every frame exactly when none has 127 payload bytes, and
      returns all text payloads, in order, exactly when no text frame is such a frame or follows one. */
  lemma ParseSent(frames: seq<Frame>)
    requires forall f <- frames :: ValidFrame(f)
    ensures Scan(EncodeAll(frames), 0) == Before127(frames)
    ensures Scan(EncodeAll(frames), 0) == frames <==> forall f <- frames :: |f.payload| != 127
    ensures TextsOf(Scan(EncodeAll(frames), 0)) == TextsOf(frames) <==>
      forall f <- frames[|Before127(frames)|..] :: !IsText(f)
  {
    assert [] + EncodeAll(frames) == EncodeAll(frames);
    ScanSent([], frames);
    KeepsAll(frames);
    TextsBefore127(frames);
  }

  lemma TextsBefore127(frames: seq<Frame>)
    ensures TextsOf(Before127(frames)) == TextsOf(frames) <==> forall f <- frames[|Before127(frames)|..] :: !IsText(f)
  {
    var taken := Before127(frames);
    var rest := frames[|taken|..];
    assert frames == taken + rest;
    TextsConcat(taken, rest);
    NoTexts(rest);
    assert TextsOf(taken) == TextsOf(frames) ==> |TextsOf(rest)| == 0;
  }

  lemma {:induction false} TextsConcat(x: seq<Frame>, y: seq<Frame>)
    ensures TextsOf(x + y) == TextsOf(x) + TextsOf(y)
  {
    if x == [] {
      assert x + y == y;
    } else {
      assert (x + y)[1..] == x[1..] + y;
      TextsConcat(x[1..], y);
    }
  }

  lemma {:induction false} NoTexts(frames: seq<Frame>)
    ensures TextsOf(frames) == [] <==> forall f <- frames :: !IsText(f)
  {
    if frames != [] {
      NoTexts(frames[1..]);
      assert frames[0] in frames && forall f <- frames :: f == frames[0] || f in frames[1..];
    }
  }

  lemma {:induction false} KeepsAll(frames: seq<Frame>)
    ensures Before127(frames) == frames <==> forall f <- frames :: |f.payload| != 127
  {
    if frames != [] {
      KeepsAll(frames[1..]);
      assert frames == [frames[0]] + frames[1..];
      assert forall f <- frames :: f == frames[0] || f in frames[1..];
      if Before127(frames) == frames {
        assert Before127(frames[1..]) == Before127(frames)[1..];
      }
    }
  }

  lemma TakenHead(chunk: seq<Byte>, offset: nat)
    requires offset <= |chunk| && FrameAt(chunk, offset).Head?
    ensures var h := FrameAt(chunk, offset);
      var start := offset + if h.frame.wide then 4 else 2;
      && chunk[offset..start] == [h.frame.first] + LengthBytes(h.frame)
      && h.end == start + 4 + |h.frame.payload|
      && h.frame == FrameFrom(chunk, h.frame.first, h.frame.wide, start, h.end - start - 4)
  {
  }

  /** Every frame the parser takes is really there, bit for bit. */
  lemma TakenWasSent(chunk: seq<Byte>, offset: nat)
    requires offset <= |chunk| && FrameAt(chunk, offset).Head?
    ensures var h := FrameAt(chunk, offset); chunk[offset..h.end] == Encode(h.frame)
  {
    TakenHead(chunk, offset);
    var h := FrameAt(chunk, offset);
    var start := offset + if h.frame.wide then 4 else 2;
    MaskedTwice(chunk[start + 4..h.end], h.frame.mask);
    assert chunk[offset..h.end] == chunk[offset..start] + chunk[start..start + 4] + chunk[start + 4..h.end];
  }

  /** On arbitrary bytes: what is returned was sent, as a prefix of the chunk, and the parser stops
      only where no acceptable frame starts. */
  lemma {:induction false} ScanSound(chunk: seq<Byte>, offset: nat) returns (end: nat)
    requires offset <= |chunk|
    ensures offset <= end <= |chunk| && chunk[offset..end] == EncodeAll(Scan(chunk, offset))
    ensures FrameAt(chunk, end).Incomplete?
    decreases |chunk| - offset
  {
    match FrameAt(chunk, offset)
    case Incomplete =>
      end := offset;
    case Head(f, next) =>
      TakenWasSent(chunk, offset);
      end := ScanSound(chunk, next);
      EncodeCons(f, Scan(chunk, next));
      SplitAt(chunk, offset, next, end);
  }

  lemma EncodeCons(f: Frame, rest: seq<Frame>)
    requires ValidFrame(f) && forall g <- rest :: ValidFrame(g)
    ensures EncodeAll([f] + rest) == Encode(f) + EncodeAll(rest)
  {
    assert ([f] + rest)[1..] == rest;
  }

  lemma SplitAt(chunk: seq<Byte>, from: nat, mid: nat, end: nat)
    requires from <= mid <= end <= |chunk|
    ensures chunk[from..end] == chunk[from..mid] + chunk[mid..end]
  {
  }

  /** Bytes that arrive later never change what was already returned. */
  lemma {:induction false} ScanMonotone(a: seq<Byte>, b: seq<Byte>, offset: nat)
    requires offset <= |a|
    ensures Scan(a, offset) <= Scan(a + b, offset)
    decreases |a| - offset
  {
    match FrameAt(a, offset)
    case Incomplete =>
    case Head(f, end) =>
      FrameKept(a, b, offset);
      ScanMonotone(a, b, end);
  }

  lemma FrameKept(a: seq<Byte>, b: seq<Byte>, offset: nat)
    requires offset <= |a| && FrameAt(a, offset).Head?
    ensures FrameAt(a + b, offset) == FrameAt(a, offset)
  {
    var h := FrameAt(a, offset);
    var start := offset + if h.frame.wide then 4 else 2;
    assert (a + b)[start..start + 4] == a[start..start + 4];
    assert (a + b)[start + 4..h.end] == a[start + 4..h.end];
  }

  lemma {:induction false} TextsMonotone(x: seq<Frame>, y: seq<Frame>)
    requires x <= y
    ensures TextsOf(x) <= TextsOf(y)
  {
    if x != [] {
      TextsMonotone(x[1..], y[1..]);
    }
  }

  /** The messages of a chunk are a prefix of the messages of any longer chunk. */
  lemma MessagesMonotone(a: seq<Byte>, b: seq<Byte>)
    ensures TextsOf(Scan(a, 0)) <= TextsOf(Scan(a + b, 0))
  {
    ScanMonotone(a, b, 0);
    TextsMonotone(Scan(a, 0), Scan(a + b, 0));
  }

  // ---------------------------------------------------------------- the parser, byte by byte

  /** The two or four bytes before the mask of a client frame, as section 5.2 has them: a length of 126
      stands for the big-endian number in the next two bytes. */
  predicate IsHead(head: seq<Byte>, first: Byte, length: nat) {
    || (length < 126 && head == [first, 128 + length])
    || (|head| == 4 && head[0] == first && head[1] == 254 && BigEndian(head[2..]) == length)
  }

  /** Every bit of the text is the sum modulo two of the bits of the data and of the mask, which repeats
      every four bytes. */
  predicate IsUnmasked(text: seq<Byte>, data: seq<Byte>, mask: seq<Byte>)
    requires |mask| == 4
  {
    |text| == |data| &&
    forall i, k :: 0 <= i < |data| && 0 <= k < 8 ==> Bit(text[i], k) == (Bit(data[i], k) + Bit(mask[i % 4], k)) % 2
  }

  lemma MaskedBits(data: seq<Byte>, mask: seq<Byte>)
    requires |mask| == 4
    ensures IsUnmasked(Masked(data, mask), data, mask)
  {
    forall i, k | 0 <= i < |data| && 0 <= k < 8
      ensures Bit(Masked(data, mask)[i], k) == (Bit(data[i], k) + Bit(mask[i % 4], k)) % 2
    {
      XorBit(data[i], mask[i % 4], k);
    }
  }

  lemma HeadIs(head: seq<Byte>, f: Frame)
    requires |f.mask| == 4 && IsHead(head, f.first, |f.payload|) && f.wide == (|head| == 4)
    ensures ValidFrame(f) && head == [f.first] + LengthBytes(f)
  {
    if f.wide {
      BigEndianTwo(head[2..]);
    }
  }

  lemma BigEndianTwo(b: seq<Byte>)
    requires |b| == 2
    ensures BigEndian(b) == b[0] as nat * 256 + b[1] as nat
  {
    assert b[..1][..0] == [] && BigEndian(b[..1]) == b[0];
  }

  // The same scan, told by a table of the heads at all offsets.

  predicate Forward(heads: seq<Head>) {
    forall o :: 0 <= o < |heads| && heads[o].Head? ==> o < heads[o].end < |heads|
  }

  function Over(heads: seq<Head>, offset: nat): seq<Frame>
    requires offset < |heads| && Forward(heads)
    decreases |heads| - offset
  {
    match heads[offset]
    case Incomplete => []
    case Head(frame, end) => [frame] + Over(heads, end)
  }

  ghost predicate AreHeads(chunk: seq<Byte>, heads: seq<Head>) {
    && |heads| == |chunk| + 1 && Forward(heads)
    && forall o {:trigger FrameAt(chunk, o)} :: 0 <= o <= |chunk| ==> heads[o] == FrameAt(chunk, o)
  }

  lemma Heads(chunk: seq<Byte>) returns (heads: seq<Head>)
    ensures AreHeads(chunk, heads)
  {
    heads := seq(|chunk| + 1, o requires 0 <= o <= |chunk| => FrameAt(chunk, o));
  }

  lemma {:induction false} ScanOver(chunk: seq<Byte>, heads: seq<Head>, offset: nat)
    requires AreHeads(chunk, heads) && offset <= |chunk|
    ensures Scan(chunk, offset) == Over(heads, offset)
    decreases |chunk| - offset
  {
    var h := FrameAt(chunk, offset);
    if h.Head? {
      ScanOver(chunk, heads, h.end);
    }
  }

  function Shifted(h: Head, n: nat): Head {
    match h
    case Incomplete => Incomplete
    case Head(frame, end) => Head(frame, n + end)
  }

  lemma {:induction false} OverShifted(all: seq<Head>, heads: seq<Head>, n: nat, offset: nat)
    requires Forward(all) && Forward(heads) && offset < |heads| && |all| == n + |heads|
    requires forall o :: 0 <= o < |heads| ==> all[n + o] == Shifted(heads[o], n)
    ensures Over(all, n + offset) == Over(heads, offset)
    decreases |heads| - offset
  {
    if heads[offset].Head? {
      OverShifted(all, heads, n, heads[offset].end);
    }
  }

  lemma FrameShifted(done: seq<Byte>, rest: seq<Byte>, offset: nat)
    requires offset <= |rest|
    ensures FrameAt(done + rest, |done| + offset) == Shifted(FrameAt(rest, offset), |done|)
  {
    var wide := offset + 2 <= |rest| && rest[offset + 1] % 128 == 126;
    var start := offset + if wide then 4 else 2;
    if start <= |rest| {
      var length := if wide then rest[offset + 2] as nat * 256 + rest[offset + 3] as nat
                    else rest[offset + 1] as nat % 128;
      HeaderShifted(done, rest, offset, start, length);
      ByHeaderShifted(done, rest, offset, start, length);
    }
  }

  lemma HeaderShifted(done: seq<Byte>, rest: seq<Byte>, offset: nat, start: nat, length: nat)
    requires HeaderRead(rest, offset, start, length)
    ensures HeaderRead(done + rest, |done| + offset, |done| + start, length)
    ensures Refused(done + rest, |done| + offset, |done| + start, length) <==> Refused(rest, offset, start, length)
    ensures (done + rest)[|done| + offset] == rest[offset]
  {
  }

  lemma ByHeaderShifted(done: seq<Byte>, rest: seq<Byte>, offset: nat, start: nat, length: nat)
    requires HeaderRead(rest, offset, start, length)
    requires HeaderRead(done + rest, |done| + offset, |done| + start, length)
    requires Refused(done + rest, |done| + offset, |done| + start, length) <==> Refused(rest, offset, start, length)
    requires (done + rest)[|done| + offset] == rest[offset]
    ensures FrameAt(done + rest, |done| + offset) == Shifted(FrameAt(rest, offset), |done|)
  {
    FrameByHeader(rest, offset, start, length);
    FrameByHeader(done + rest, |done| + offset, |done| + start, length);
    if !Refused(rest, offset, start, length) {
      ShiftedFrom(done, rest, rest[offset], start == offset + 4, start, length);
    }
  }

  lemma ShiftedFrom(done: seq<Byte>, rest: seq<Byte>, first: Byte, wide: bool, start: nat, length: nat)
    requires start + 4 + length <= |rest|
    ensures FrameFrom(done + rest, first, wide, |done| + start, length) == FrameFrom(rest, first, wide, start, length)
  {
    var chunk, n := done + rest, |done|;
    assert chunk[n + start..n + start + 4] == rest[start..start + 4];
    assert chunk[n + start + 4..n + start + 4 + length] == rest[start + 4..start + 4 + length];
  }

  /** The parser on a masked frame, byte by byte, whatever follows it: a payload of exactly 127 bytes ends
      the parsing; otherwise, if the opcode is one, its unmasked bytes are the first message, and the
      messages of what follows come after it. */
  lemma ParsedFrame(head: seq<Byte>, first: Byte, mask: seq<Byte>, data: seq<Byte>, rest: seq<Byte>)
    requires IsHead(head, first, |data|) && |mask| == 4
    ensures var messages := TextsOf(Scan(head + mask + data + rest, 0));
      if |data| == 127 then messages == []
      else if first % 16 != 1 then messages == TextsOf(Scan(rest, 0))
      else messages != [] && IsUnmasked(messages[0], data, mask) && messages[1..] == TextsOf(Scan(rest, 0))
  {
    var f := Frame(first, |head| == 4, mask, Masked(data, mask));
    HeadIs(head, f);
    MaskedTwice(data, mask);
    assert Encode(f) == head + mask + data;
    FrameThenRest(f, rest);
    MaskedBits(data, mask);
    TextsCons(f, Scan(rest, 0));
  }

  lemma FrameThenRest(f: Frame, rest: seq<Byte>)
    requires ValidFrame(f)
    ensures Scan(Encode(f) + rest, 0) == if |f.payload| == 127 then [] else [f] + Scan(rest, 0)
  {
    var all := Heads(Encode(f) + rest);
    var heads := Heads(rest);
    ScanOver(Encode(f) + rest, all, 0);
    ScanOver(rest, heads, 0);
    FirstHead(f, rest, all);
    if |f.payload| != 127 {
      LaterHeads(Encode(f), rest, all, heads);
      OverShifted(all, heads, |Encode(f)|, 0);
    }
  }

  lemma FirstHead(f: Frame, rest: seq<Byte>, all: seq<Head>)
    requires ValidFrame(f) && AreHeads(Encode(f) + rest, all)
    ensures all[0] == if |f.payload| == 127 then Incomplete else Head(f, |Encode(f)|)
  {
    FrameTaken([], f, rest);
    assert [] + Encode(f) + rest == Encode(f) + rest && [] + Encode(f) == Encode(f);
  }

  lemma LaterHeads(done: seq<Byte>, rest: seq<Byte>, all: seq<Head>, heads: seq<Head>)
    requires AreHeads(done + rest, all) && AreHeads(rest, heads)
    ensures forall o :: 0 <= o < |heads| ==> all[|done| + o] == Shifted(heads[o], |done|)
  {
    forall o | 0 <= o < |heads| ensures all[|done| + o] == Shifted(heads[o], |done|) {
      FrameShifted(done, rest, o);
    }
  }

  lemma TextsCons(f: Frame, rest: seq<Frame>)
    ensures TextsOf([f] + rest) == (if IsText(f) then [f.payload] else []) + TextsOf(rest)
  {
    assert ([f] + rest)[1..] == rest;
  }

  // ---------------------------------------------------------------- server frames

  /** An unmasked text frame as `sendWebSocketJson` writes it; each header number keeps one byte. */
  function ServerFrame(body: seq<Byte>): seq<Byte> {
    (if |body| < 126 then [0x81, |body|] else [0x81, 126, |body| / 256 % 256, |body| % 256]) + body
  }

  function BigEndian(b: seq<Byte>): nat {
    if b == [] then 0 else BigEndian(b[..|b| - 1]) * 256 + b[|b| - 1]
  }

  datatype Received = NoFrame | Received(body: seq<Byte>, rest: seq<Byte>)

  /** A client reading one final, unmasked text frame, with all three length forms of section 5.2. */
  function ReadServerFrame(b: seq<Byte>): Received {
    if |b| < 2 || b[0] != 0x81 || b[1] >= 128 then NoFrame else
      var extra := if b[1] == 126 then 2 else if b[1] == 127 then 8 else 0;
      if |b| < 2 + extra then NoFrame else
        var length: nat := if extra == 0 then b[1] else BigEndian(b[2..2 + extra]);
        if |b| < 2 + extra + length then NoFrame
        else Received(b[2 + extra..2 + extra + length], b[2 + extra + length..])
  }

  /** A client receives the body that was sent exactly when it is shorter than 65536 bytes; of a
      longer one it takes only the length modulo 65536, and the rest as further frames. */
  lemma ServerFrameRead(body: seq<Byte>, rest: seq<Byte>)
    ensures var n := if |body| < 126 then |body| else |body| % 0x1_0000;
      n <= |body| && ReadServerFrame(ServerFrame(body) + rest) == Received(body[..n], body[n..] + rest)
    ensures ReadServerFrame(ServerFrame(body) + rest) == Received(body, rest) <==> |body| < 0x1_0000
  {
    if |body| < 126 {
      var b := ServerFrame(body) + rest;
      assert b[2..2 + |body|] == body && b[2 + |body|..] == rest;
      assert body[..|body|] == body && body[|body|..] + rest == rest;
    } else {
      LongFrameRead(body, rest);
      assert body[..|body|] == body && body[|body|..] + rest == rest;
    }
  }

  lemma LongFrameRead(body: seq<Byte>, rest: seq<Byte>)
    requires |body| >= 126
    ensures var n := |body| % 0x1_0000;
      n <= |body| && ReadServerFrame(ServerFrame(body) + rest) == Received(body[..n], body[n..] + rest)
  {
    var b, n := ServerFrame(body) + rest, |body| % 0x1_0000;
    TwoBytes(|body|);
    assert b[2..4] == [|body| / 256 % 256, |body| % 256];
    assert b[4..4 + n] == body[..n] && b[4 + n..] == body[n..] + rest;
  }

  lemma TwoBytes(n: nat)
    ensures BigEndian([n / 256 % 256, n % 256]) == n % 0x1_0000
  {
    var bytes: seq<Byte> := [n / 256 % 256, n % 256];
    var high: seq<Byte> := bytes[..1];
    assert high == [n / 256 % 256] && high[..0] == [];
    assert BigEndian(high) == n / 256 % 256 && BigEndian(bytes) == BigEndian(high) * 256 + n % 256;
  }
}
