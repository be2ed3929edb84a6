/** The radio frames: `$M<`, payload length, command, big-endian words, XOR checksum. */
module Msp {
  import opened Types

  const STREAM_MESSAGE_SIZE: nat := 23
  const HEADER: seq<bv8> := [0x24, 0x4d, 0x3c]  // "$M<"

  /** Offset added to every command on the air. */
  const HC12_HW_ID_OFFSET: bv8 := 0

  // ---------------------------------------------------------------- words

  function WordBytes(w: bv32): (r: seq<bv8>)
    ensures |r| == 4
  {
    [((w >> 24) & 0xff) as bv8, ((w >> 16) & 0xff) as bv8, ((w >> 8) & 0xff) as bv8, (w & 0xff) as bv8]
  }

  function WordOf(b: seq<bv8>): bv32
    requires |b| == 4
  {
    ((b[0] as bv32) << 24) | ((b[1] as bv32) << 16) | ((b[2] as bv32) << 8) | (b[3] as bv32)
  }

  lemma WordRoundTrip(w: bv32)
    ensures WordOf(WordBytes(w)) == w
  {
  }

  function Payload(words: seq<bv32>): (r: seq<bv8>)
    ensures |r| == 4 * |words|
  {
    if words == [] then [] else WordBytes(words[0]) + Payload(words[1..])
  }

  function Words(bytes: seq<bv8>): (r: seq<bv32>)
    requires |bytes| % 4 == 0
    ensures |r| == |bytes| / 4
  {
    if bytes == [] then [] else [WordOf(bytes[..4])] + Words(bytes[4..])
  }

  lemma {:induction false} PayloadRoundTrip(words: seq<bv32>)
    ensures Words(Payload(words)) == words
  {
    if words != [] {
      WordRoundTrip(words[0]);
      PayloadRoundTrip(words[1..]);
      assert Payload(words)[..4] == WordBytes(words[0]);
      assert Payload(words)[4..] == Payload(words[1..]);
    }
  }

  lemma {:induction false} PayloadConcat(a: seq<bv32>, b: seq<bv32>)
    ensures Payload(a + b) == Payload(a) + Payload(b)
  {
    if a == [] {
      assert a + b == b;
    } else {
      assert (a + b)[1..] == a[1..] + b;
      PayloadConcat(a[1..], b);
    }
  }

  // ---------------------------------------------------------------- checksum

  /** One checksum step. */
  function Mix(a: bv8, b: bv8): bv8 {
    a ^ b
  }

  lemma MixLaws(a: bv8, b: bv8, c: bv8)
    ensures Mix(a, b) == Mix(b, a)
    ensures Mix(Mix(a, b), c) == Mix(a, Mix(b, c))
    ensures Mix(a, 0) == a && Mix(0, a) == a && Mix(a, a) == 0
    ensures Mix(a, b) == Mix(a, c) ==> b == c
  {
  }

  function Xor(s: seq<bv8>): bv8 {
    if s == [] then 0 else Mix(s[0], Xor(s[1..]))
  }

  lemma {:induction false} XorConcat(a: seq<bv8>, b: seq<bv8>)
    ensures Xor(a + b) == Mix(Xor(a), Xor(b))
  {
    hide Mix;
    MixLaws(Xor(b), 0, 0);
    if a == [] {
      assert a + b == b;
    } else {
      assert (a + b)[1..] == a[1..] + b;
      XorConcat(a[1..], b);
      MixLaws(a[0], Xor(a[1..]), Xor(b));
    }
  }

  lemma XorOne(c: bv8)
    ensures Xor([c]) == c
  {
    assert [c][1..] == [];
  }

  lemma XorSplit(s: seq<bv8>, i: nat)
    requires i < |s|
    ensures Xor(s) == Mix(Xor(s[..i]), Mix(s[i], Xor(s[i + 1..])))
  {
    hide Mix;
    assert s[..i] + ([s[i]] + s[i + 1..]) == s;
    XorConcat(s[..i], [s[i]] + s[i + 1..]);
    var tail := [s[i]] + s[i + 1..];
    assert tail[0] == s[i] && tail[1..] == s[i + 1..];
  }

  /** Changing one byte changes the checksum. */
  lemma XorDetectsChange(s: seq<bv8>, i: nat, c: bv8)
    requires i < |s| && c != s[i]
    ensures Xor(s[i := c]) != Xor(s)
  {
    hide Mix;
    XorSplit(s, i);
    XorSplit(s[i := c], i);
    assert s[i := c][..i] == s[..i] && s[i := c][i + 1..] == s[i + 1..];
    var front, back := Xor(s[..i]), Xor(s[i + 1..]);
    MixLaws(front, Mix(s[i], back), Mix(c, back));
    MixLaws(s[i], back, 0);
    MixLaws(c, back, 0);
    MixLaws(back, s[i], c);
  }

  // ---------------------------------------------------------------- frames

  /** (uint8_t)(argc * 4) */
  function LengthByte(words: nat): bv8
    requires 4 * words < 256
  {
    (4 * words) as bv8
  }

  /** Length byte, command byte and payload: what the checksum covers. */
  function Body(cmd: bv8, words: seq<bv32>): (r: seq<bv8>)
    requires 4 * |words| < 256
    ensures |r| == 2 + 4 * |words|
  {
    [LengthByte(|words|), HC12_HW_ID_OFFSET + cmd] + Payload(words)
  }

  function Encode(cmd: bv8, words: seq<bv32>): (r: seq<bv8>)
    requires 4 * |words| < 256
    ensures |r| == 6 + 4 * |words|
  {
    HEADER + Body(cmd, words) + [Xor(Body(cmd, words))]
  }

  datatype Message = Message(cmd: bv8, words: seq<bv32>)

  /** A receiver: header, length and checksum have to match. */
  function Decode(frame: seq<bv8>): Option<Message> {
    if |frame| < 6 || |frame| - 6 > 255 || frame[..3] != HEADER then None
    else if (|frame| - 6) % 4 != 0 || frame[3] != LengthByte((|frame| - 6) / 4) then None
    else if Xor(frame[3..]) != 0 then None
    else Some(Message(frame[4] - HC12_HW_ID_OFFSET, Words(frame[5..|frame| - 1])))
  }

  lemma FrameParts<T>(header: seq<T>, a: T, b: T, payload: seq<T>, x: T)
    requires |header| == 3
    ensures var f := header + ([a, b] + payload) + [x];
      && f[..3] == header && f[3] == a && f[4] == b
      && f[5..|f| - 1] == payload
      && f[3..] == ([a, b] + payload) + [x]
  {
  }

  lemma EncodeParts(cmd: bv8, words: seq<bv32>)
    requires 4 * |words| < 256
    ensures var f := Encode(cmd, words);
      && f[..3] == HEADER
      && f[3] == LengthByte(|words|) && f[4] == HC12_HW_ID_OFFSET + cmd
      && f[5..|f| - 1] == Payload(words)
      && f[3..] == Body(cmd, words) + [Xor(Body(cmd, words))]
  {
    hide LengthByte, Xor;
    FrameParts(HEADER, LengthByte(|words|), HC12_HW_ID_OFFSET + cmd, Payload(words), Xor(Body(cmd, words)));
  }

  /** Byte j of a word, the most significant first. */
  function ByteOf(w: bv32, j: nat): bv8
    requires j < 4
  {
    if j == 0 then (w >> 24) as bv8
    else if j == 1 then ((w >> 16) & 0xff) as bv8
    else if j == 2 then ((w >> 8) & 0xff) as bv8
    else (w & 0xff) as bv8
  }

  lemma {:induction false} PayloadAt(words: seq<bv32>, i: nat, j: nat)
    requires i < |words| && j < 4
    ensures Payload(words)[4 * i + j] == ByteOf(words[i], j)
    decreases i
  {
    if i > 0 {
      PayloadAt(words[1..], i - 1, j);
    } else {
      assert WordBytes(words[0])[j] == ByteOf(words[0], j);
    }
  }

  lemma LengthOf(words: nat)
    requires 4 * words < 256
    ensures LengthByte(words) as int == 4 * words
  {
  }

  /** The frame byte by byte: "$M<", the number of payload bytes, the command, the words, the checksum. */
  lemma FrameLayout(cmd: bv8, words: seq<bv32>)
    requires 4 * |words| < 256
    ensures var f := Encode(cmd, words);
      && |f| == 4 * |words| + 6
      && f[0] == 36 && f[1] == 77 && f[2] == 60
      && f[3] as int == |f| - 6 && f[4] == cmd
      && (forall i, j | 0 <= i < |words| && 0 <= j < 4 :: f[5 + (4 * i + j)] == ByteOf(words[i], j))
      && f[|f| - 1] == Xor(f[3..|f| - 1])
  {
    hide LengthByte, Xor, Payload, ByteOf;
    var f := Encode(cmd, words);
    EncodeParts(cmd, words);
    LengthOf(|words|);
    assert f[0] == f[..3][0] && f[1] == f[..3][1] && f[2] == f[..3][2];
    assert HC12_HW_ID_OFFSET + cmd == cmd;
    forall i, j | 0 <= i < |words| && 0 <= j < 4 ensures f[5 + (4 * i + j)] == ByteOf(words[i], j) {
      PayloadAt(words, i, j);
      assert f[5..|f| - 1][4 * i + j] == f[5 + (4 * i + j)];
    }
    assert f[3..|f| - 1] == f[3..][..|f| - 4] == Body(cmd, words);
    assert f[|f| - 1] == f[3..][|f| - 4];
  }

  /** The checksum of two bytes is their exclusive or. */
  lemma XorTwoBytes(a: bv8, b: bv8)
    ensures Xor([a, b]) == a ^ b
  {
    XorOne(b);
    assert [a, b][1..] == [b];
  }

  /** From the length byte to the checksum the XOR of a frame is 0. */
  lemma EncodeXorsToZero(cmd: bv8, words: seq<bv32>)
    requires 4 * |words| < 256
    ensures Xor(Encode(cmd, words)[3..]) == 0
  {
    hide LengthByte, Mix;
    EncodeParts(cmd, words);
    var body := Body(cmd, words);
    XorConcat(body, [Xor(body)]);
    XorOne(Xor(body));
    MixLaws(Xor(body), 0, 0);
  }

  /** Every frame is decoded to its command and words. */
  lemma DecodeEncode(cmd: bv8, words: seq<bv32>)
    requires 4 * |words| < 256
    ensures Decode(Encode(cmd, words)) == Some(Message(cmd, words))
  {
    hide LengthByte, Xor;
    EncodeParts(cmd, words);
    EncodeXorsToZero(cmd, words);
    PayloadRoundTrip(words);
    assert Encode(cmd, words)[5..|Encode(cmd, words)| - 1] == Payload(words);
  }

  /** Different messages give different frames. */
  lemma EncodeInjective(a: Message, b: Message)
    requires 4 * |a.words| < 256 && 4 * |b.words| < 256
    requires Encode(a.cmd, a.words) == Encode(b.cmd, b.words)
    ensures a == b
  {
    DecodeEncode(a.cmd, a.words);
    DecodeEncode(b.cmd, b.words);
  }

  /** A frame with any single byte changed is refused. */
  lemma DamageRefused(cmd: bv8, words: seq<bv32>, i: nat, c: bv8)
    requires 4 * |words| < 256
    requires i < 6 + 4 * |words| && c != Encode(cmd, words)[i]
    ensures Decode(Encode(cmd, words)[i := c]) == None
  {
    hide LengthByte, Xor;
    var frame := Encode(cmd, words);
    var bad := frame[i := c];
    EncodeParts(cmd, words);
    if i < 3 {
      assert bad[..3][i] == c && HEADER[i] == frame[i];
    } else {
      assert bad[3..] == frame[3..][i - 3 := c];
      EncodeXorsToZero(cmd, words);
      XorDetectsChange(frame[3..], i - 3, c);
    }
  }

  // ---------------------------------------------------------------- in the pool buffer

  /** A buffer of the transmit pool. */
  class StreamObject {
    const message: array<bv8>
    var size: nat

    constructor ()
      ensures fresh(message) && message.Length == STREAM_MESSAGE_SIZE
    {
      message := new bv8[STREAM_MESSAGE_SIZE];
      size := 0;
    }

    /** The bytes that will be sent. */
    ghost function Frame(): seq<bv8>
      reads this, message
      requires size <= message.Length
    {
      message[..size]
    }
  }

  /** Four bytes of one word, and the checksum over them. */
  method PutWord(m: array<bv8>, p: nat, w: bv32, crc: bv8) returns (crc': bv8)
    requires p + 4 <= m.Length
    modifies m
    ensures m[..] == old(m[..p]) + WordBytes(w) + old(m[p + 4..])
    ensures crc' == Mix(crc, Xor(WordBytes(w)))
  {
    hide Mix, Xor;
    var b := WordBytes(w);
    crc' := crc;
    m[p] := ((w >> 24) & 0xff) as bv8;
    crc' := Mix(crc', m[p]);
    m[p + 1] := ((w >> 16) & 0xff) as bv8;
    crc' := Mix(crc', m[p + 1]);
    m[p + 2] := ((w >> 8) & 0xff) as bv8;
    crc' := Mix(crc', m[p + 2]);
    m[p + 3] := (w & 0xff) as bv8;
    crc' := Mix(crc', m[p + 3]);
    XorFour(crc, b[0], b[1], b[2], b[3]);
    assert b == [b[0], b[1], b[2], b[3]];
    assert m[..] == m[..p] + m[p..p + 4] + m[p + 4..];
    assert m[p..p + 4] == b;
  }

  lemma XorFour(crc: bv8, a: bv8, b: bv8, c: bv8, d: bv8)
    ensures Mix(crc, Xor([a, b, c, d])) == Mix(Mix(Mix(Mix(crc, a), b), c), d)
  {
    hide Mix, Xor;
    assert [a, b, c, d] == [a, b] + [c, d];
    XorConcat([a, b], [c, d]);
    XorTwo(a, b);
    XorTwo(c, d);
    MixLaws(crc, a, b);
    MixLaws(Mix(crc, Mix(a, b)), c, d);
    MixLaws(crc, Mix(a, b), Mix(c, d));
  }

  lemma XorTwo(a: bv8, b: bv8)
    ensures Xor([a, b]) == Mix(a, b)
  {
    assert [a, b][1..] == [b];
    XorOne(b);
  }

  /** The word loop of `MSP__createMspFrame`, behind the five bytes in front of the payload. */
  method PutWords(m: array<bv8>, argv: seq<bv32>, crc0: bv8) returns (crc: bv8)
    requires 5 + 4 * |argv| <= m.Length
    modifies m
    ensures m[..5 + 4 * |argv|] == old(m[..5]) + Payload(argv)
    ensures m[5 + 4 * |argv|..] == old(m[5 + 4 * |argv|..])
    ensures crc == Mix(crc0, Xor(Payload(argv)))
  {
    hide WordBytes, Payload, Xor, Mix;
    var p, i := 5, 0;
    crc := crc0;
    ghost var front, end := m[..5], 5 + 4 * |argv|;
    NoWords(argv, crc0);
    while i < |argv|
      invariant 0 <= i <= |argv| && p == 5 + 4 * i
      invariant m[..p] == front + Payload(argv[..i])
      invariant m[end..] == old(m[end..])
      invariant crc == Mix(crc0, Xor(Payload(argv[..i])))
    {
      ghost var before := m[..];
      NextWord(argv, i, crc0);
      assert m[..p] == before[..p] && m[p + 4..] == before[p + 4..] && m[end..] == before[end..];
      crc := PutWord(m, p, argv[i], crc);
      assert m[end..] == m[..][end..] && m[..p + 4] == m[..][..p + 4];
      Spliced(before, m[..], front, Payload(argv[..i]), WordBytes(argv[i]), end);
      p, i := p + 4, i + 1;
    }
    assert argv[..i] == argv;
  }

  /** A piece put behind a prefix extends the prefix and keeps what is further behind. */
  lemma Spliced<T>(before: seq<T>, after: seq<T>, front: seq<T>, done: seq<T>, piece: seq<T>, end: nat)
    requires var p := |front| + |done|; p + |piece| <= end <= |before|
    requires var p := |front| + |done|;
      before[..p] == front + done && after == before[..p] + piece + before[p + |piece|..]
    ensures var q := |front| + |done| + |piece|; |after| == |before| && after[..q] == front + (done + piece)
    ensures after[end..] == before[end..]
  {
    var q := |front| + |done| + |piece|;
    assert after[..q] == front + done + piece;
    TailKept(before, after, q, end);
  }

  lemma NoWords(argv: seq<bv32>, crc: bv8)
    ensures Payload(argv[..0]) == [] && Mix(crc, Xor(Payload(argv[..0]))) == crc
  {
  }

  lemma NextWord(argv: seq<bv32>, i: nat, crc: bv8)
    requires i < |argv|
    ensures Payload(argv[..i + 1]) == Payload(argv[..i]) + WordBytes(argv[i])
    ensures Mix(crc, Xor(Payload(argv[..i + 1]))) == Mix(Mix(crc, Xor(Payload(argv[..i]))), Xor(WordBytes(argv[i])))
  {
    hide Mix, WordBytes;
    MixLaws(crc, Xor(Payload(argv[..i])), Xor(WordBytes(argv[i])));
    assert argv[..i + 1] == argv[..i] + [argv[i]];
    PayloadConcat(argv[..i], [argv[i]]);
    assert [argv[i]][1..] == [];
    assert Payload([argv[i]]) == WordBytes(argv[i]);
    XorConcat(Payload(argv[..i]), WordBytes(argv[i]));
  }

  lemma Checksum(cmd: bv8, argv: seq<bv32>, crc: bv8)
    requires 4 * |argv| < 256
    requires crc == Mix(Mix(HC12_HW_ID_OFFSET + cmd, LengthByte(|argv|)), Xor(Payload(argv)))
    ensures crc == Xor(Body(cmd, argv))
  {
    hide Mix, LengthByte;
    var a, b := LengthByte(|argv|), HC12_HW_ID_OFFSET + cmd;
    XorTwo(a, b);
    MixLaws(a, b, 0);
    XorConcat([a, b], Payload(argv));
  }

  lemma Assembled<T>(header: seq<T>, head: seq<T>, payload: seq<T>, crc: T)
    ensures header + head + payload + [crc] == header + (head + payload) + [crc]
  {
    assert header + head + payload == header + (head + payload);
  }

  /**
   `MSP__createMspFrame`. The buffer has to be large enough for the words; its first `size` bytes
   become the frame and the bytes behind them keep their values.
   */
  method CreateMspFrame(obj: StreamObject, cmd: bv8, argv: seq<bv32>)
    requires 6 + 4 * |argv| <= obj.message.Length <= 255
    modifies obj, obj.message
    ensures obj.size == 6 + 4 * |argv| && obj.Frame() == Encode(cmd, argv)
    ensures obj.message[obj.size..] == old(obj.message[6 + 4 * |argv|..])
  {
    hide Payload, Xor, Mix, LengthByte;
    var m := obj.message;
    m[0], m[1], m[2] := HEADER[0], HEADER[1], HEADER[2];
    obj.size := (6 + 4 * |argv|) % 256;
    var onAir, len := HC12_HW_ID_OFFSET + cmd, LengthByte(|argv|);
    var crc := Mix(onAir, len);
    m[3], m[4] := len, onAir;
    ghost var head := [len, onAir];
    assert m[..5] == HEADER + head;
    ghost var before := m[..];
    crc := PutWords(m, argv, crc);
    var p := 5 + 4 * |argv|;
    TailKept(before, m[..], p, p + 1);
    m[p] := crc;
    Checksum(cmd, argv, crc);
    assert m[..p + 1] == m[..p] + [crc];
    Assembled(HEADER, head, Payload(argv), crc);
  }

  lemma TailKept<T>(before: seq<T>, after: seq<T>, from: nat, to: nat)
    requires |before| == |after| && from <= to <= |before|
    requires before[from..] == after[from..]
    ensures before[to..] == after[to..]
  {
    assert before[to..] == before[from..][to - from..];
    assert after[to..] == after[from..][to - from..];
  }
}
