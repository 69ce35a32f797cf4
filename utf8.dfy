/**
  The UTF-8 encoding form of RFC 3629. A Rust `String` is a sequence of
  Unicode scalar values stored as UTF-8; in Dafny a `char` is a Unicode
  scalar value, so a `string` is the decoded text and `Encode` gives what
  `str::as_bytes` returns.
 */
module Utf8 {
  import opened Wrappers

  type byte = x: int | 0 <= x < 0x100

  /** The Unicode scalar values: every code point except the surrogates. */
  predicate IsScalarValue(v: int) {
    (0 <= v < 0xD800) || (0xE000 <= v < 0x110000)
  }

  /** Bytes needed for `c`, by value range (RFC 3629, section 3). */
  function Width(c: char): (n: nat)
    ensures 1 <= n <= 4
  {
    var v := c as int;
    if v < 0x80 then 1
    else if v < 0x800 then 2
    else if v < 0x10000 then 3
    else 4
  }

  /** The octet sequence of one scalar value (RFC 3629, section 3). */
  function EncodeScalar(c: char): (bs: seq<byte>)
    ensures |bs| == Width(c)
  {
    var v := c as int;
    if v < 0x80 then [v]
    else if v < 0x800 then [0xC0 + v / 0x40, 0x80 + v % 0x40]
    else if v < 0x10000 then [0xE0 + v / 0x1000, 0x80 + v / 0x40 % 0x40, 0x80 + v % 0x40]
    else [0xF0 + v / 0x40000, 0x80 + v / 0x1000 % 0x40, 0x80 + v / 0x40 % 0x40, 0x80 + v % 0x40]
  }

  /** Length of the sequence a lead byte announces; 0 for a byte that cannot start one. */
  function SequenceLength(b: byte): nat {
    if b < 0x80 then 1
    else if 0xC0 <= b < 0xE0 then 2
    else if 0xE0 <= b < 0xF0 then 3
    else if 0xF0 <= b < 0xF8 then 4
    else 0
  }

  predicate IsContinuation(b: byte) {
    0x80 <= b < 0xC0
  }

  /** Every byte after the first (of at most four) is a continuation byte. */
  predicate ContinuationsFollow(bs: seq<byte>)
    requires |bs| <= 4
  {
    && (|bs| > 1 ==> IsContinuation(bs[1]))
    && (|bs| > 2 ==> IsContinuation(bs[2]))
    && (|bs| > 3 ==> IsContinuation(bs[3]))
  }

  /** Smallest scalar value that needs `n` bytes; anything smaller is an overlong form. */
  function MinValue(n: nat): int {
    if n <= 1 then 0 else if n == 2 then 0x80 else if n == 3 then 0x800 else 0x10000
  }

  /** The value bits the bytes of a one- to four-byte sequence carry. */
  function Payload(bs: seq<byte>): int
    requires 1 <= |bs| <= 4
  {
    if |bs| == 1 then bs[0]
    else if |bs| == 2 then (bs[0] as int - 0xC0) * 0x40 + (bs[1] as int - 0x80)
    else if |bs| == 3 then (bs[0] as int - 0xE0) * 0x1000 + (bs[1] as int - 0x80) * 0x40 + (bs[2] as int - 0x80)
    else (bs[0] as int - 0xF0) * 0x40000 + (bs[1] as int - 0x80) * 0x1000 + (bs[2] as int - 0x80) * 0x40 + (bs[3] as int - 0x80)
  }

  /**
    Decodes exactly one scalar value. It refuses a wrong lead byte, a
    missing or extra byte, a byte that is not a continuation byte, an
    overlong form, a surrogate and a value beyond U+10FFFF (RFC 3629,
    sections 3 and 4).
   */
  function DecodeScalar(bs: seq<byte>): (r: Option<char>)
    ensures r.Some? ==> |bs| == Width(r.value)
  {
    if |bs| == 0 || |bs| != SequenceLength(bs[0]) then None
    else if !ContinuationsFollow(bs) then None
    else
      var v := Payload(bs);
      if v < MinValue(|bs|) || !IsScalarValue(v) then None
      else Some(v as char)
  }

  lemma DivMod(x: int, d: int)
    requires 0 <= x && 0 < d
    ensures x == (x / d) * d + x % d && 0 <= x % d < d
  {}

  /** Decoding inverts encoding on every scalar value. */
  lemma DecodeEncodeScalar(c: char)
    ensures DecodeScalar(EncodeScalar(c)) == Some(c)
  {
    var v := c as int;
    var bs := EncodeScalar(c);
    if v < 0x80 {
    } else if v < 0x800 {
      DivMod(v, 0x40);
      assert Payload(bs) == v;
    } else if v < 0x10000 {
      DivMod(v, 0x40);
      DivMod(v / 0x40, 0x40);
      assert v / 0x40 / 0x40 == v / 0x1000;
      assert Payload(bs) == v;
    } else {
      DivMod(v, 0x40);
      DivMod(v / 0x40, 0x40);
      DivMod(v / 0x1000, 0x40);
      assert v / 0x40 / 0x40 == v / 0x1000;
      assert v / 0x1000 / 0x40 == v / 0x40000;
      assert Payload(bs) == v;
    }
  }

  lemma SplitTwo(hi: int, lo: int)
    requires 0 <= hi && 0 <= lo < 0x40
    ensures (hi * 0x40 + lo) / 0x40 == hi && (hi * 0x40 + lo) % 0x40 == lo
  {}

  lemma SplitThree(b0: int, b1: int, b2: int)
    requires 0 <= b0 && 0 <= b1 < 0x40 && 0 <= b2 < 0x40
    ensures var v := b0 * 0x1000 + b1 * 0x40 + b2;
            v / 0x1000 == b0 && v / 0x40 % 0x40 == b1 && v % 0x40 == b2
  {
    var v := b0 * 0x1000 + b1 * 0x40 + b2;
    SplitTwo(b0 * 0x40 + b1, b2);
    assert v == (b0 * 0x40 + b1) * 0x40 + b2;
    SplitTwo(b0, b1);
    assert v / 0x1000 == v / 0x40 / 0x40;
  }

  lemma SplitFour(b0: int, b1: int, b2: int, b3: int)
    requires 0 <= b0 && 0 <= b1 < 0x40 && 0 <= b2 < 0x40 && 0 <= b3 < 0x40
    ensures var v := b0 * 0x40000 + b1 * 0x1000 + b2 * 0x40 + b3;
            v / 0x40000 == b0 && v / 0x1000 % 0x40 == b1 && v / 0x40 % 0x40 == b2 && v % 0x40 == b3
  {
    var v := b0 * 0x40000 + b1 * 0x1000 + b2 * 0x40 + b3;
    SplitTwo(b0 * 0x1000 + b1 * 0x40 + b2, b3);
    assert v == (b0 * 0x1000 + b1 * 0x40 + b2) * 0x40 + b3;
    SplitThree(b0, b1, b2);
    assert v / 0x1000 == v / 0x40 / 0x40 && v / 0x40000 == v / 0x40 / 0x1000;
    SplitTwo(b0 * 0x40 + b1, b2);
    SplitTwo(b0, b1);
  }

  /** Encoding inverts decoding: a sequence that decodes is the encoding of its value. */
  lemma EncodeDecodeScalar(bs: seq<byte>)
    requires DecodeScalar(bs).Some?
    ensures EncodeScalar(DecodeScalar(bs).value) == bs
  {
    var v := Payload(bs);
    assert DecodeScalar(bs).value as int == v;
    if |bs| == 2 {
      SplitTwo(bs[0] - 0xC0, bs[1] - 0x80);
    } else if |bs| == 3 {
      SplitThree(bs[0] - 0xE0, bs[1] - 0x80, bs[2] - 0x80);
    } else if |bs| == 4 {
      SplitFour(bs[0] - 0xF0, bs[1] - 0x80, bs[2] - 0x80, bs[3] - 0x80);
    }
  }

  /** The lead byte of an encoded scalar announces its width, and every later byte is a continuation byte. */
  lemma EncodeScalarShape(c: char)
    ensures SequenceLength(EncodeScalar(c)[0]) == Width(c)
    ensures ContinuationsFollow(EncodeScalar(c))
  {
    DecodeEncodeScalar(c);
  }

  /** `str::as_bytes`: the concatenated encodings of the scalar values in order. */
  function Encode(s: string): (bs: seq<byte>)
  {
    if s == [] then [] else EncodeScalar(s[0]) + Encode(s[1..])
  }

  /** `str::len`, the number of bytes of the encoded text, counted scalar by scalar. */
  function Utf8Length(s: string): (n: nat)
  {
    if s == [] then 0 else Width(s[0]) + Utf8Length(s[1..])
  }

  /** Decodes a whole byte sequence, as `str::from_utf8` does; `None` on any ill-formed part. */
  function Decode(bs: seq<byte>): (r: Option<string>)
    decreases |bs|
  {
    if bs == [] then Some([])
    else
      var n := SequenceLength(bs[0]);
      if n == 0 || n > |bs| then None
      else match DecodeScalar(bs[..n])
        case None => None
        case Some(c) =>
          match Decode(bs[n..])
          case None => None
          case Some(rest) => Some([c] + rest)
  }

  lemma {:induction false} EncodeLength(s: string)
    ensures |Encode(s)| == Utf8Length(s)
  {
    if s != [] {
      EncodeLength(s[1..]);
    }
  }

  lemma {:induction false} Utf8LengthAppend(a: string, b: string)
    ensures Utf8Length(a + b) == Utf8Length(a) + Utf8Length(b)
  {
    if a != [] {
      assert (a + b)[0] == a[0] && (a + b)[1..] == a[1..] + b;
      Utf8LengthAppend(a[1..], b);
    } else {
      assert a + b == b;
    }
  }

  /** Every scalar value takes one to four bytes. */
  lemma {:induction false} Utf8LengthBounds(s: string)
    ensures |s| <= Utf8Length(s) <= 4 * |s|
  {
    if s != [] {
      Utf8LengthBounds(s[1..]);
    }
  }

  predicate IsAscii(s: string) {
    forall i | 0 <= i < |s| :: s[i] as int < 0x80
  }

  /** The byte length equals the scalar count exactly when the text is all ASCII. */
  lemma {:induction false} Utf8LengthAscii(s: string)
    ensures Utf8Length(s) == |s| <==> IsAscii(s)
  {
    if s != [] {
      Utf8LengthAscii(s[1..]);
      Utf8LengthBounds(s[1..]);
      assert IsAscii(s) <==> s[0] as int < 0x80 && IsAscii(s[1..]) by {
        if IsAscii(s) {
          assert forall i | 0 <= i < |s[1..]| :: s[1..][i] == s[i + 1];
        }
        if s[0] as int < 0x80 && IsAscii(s[1..]) {
          forall i | 0 <= i < |s| ensures s[i] as int < 0x80 {
            if i > 0 { assert s[i] == s[1..][i - 1]; }
          }
        }
      }
    }
  }

  /** Decoding inverts encoding on every text. */
  lemma {:induction false} DecodeEncode(s: string)
    ensures Decode(Encode(s)) == Some(s)
  {
    if s != [] {
      var head := EncodeScalar(s[0]);
      var bs := Encode(s);
      EncodeScalarShape(s[0]);
      assert bs[0] == head[0];
      assert bs[..|head|] == head;
      assert bs[|head|..] == Encode(s[1..]);
      DecodeEncodeScalar(s[0]);
      DecodeEncode(s[1..]);
      assert [s[0]] + s[1..] == s;
    }
  }

  lemma EncodeCons(c: char, s: string)
    ensures Encode([c] + s) == EncodeScalar(c) + Encode(s)
  {
    assert ([c] + s)[0] == c && ([c] + s)[1..] == s;
  }

  /** A byte sequence that decodes starts with a whole scalar value and continues with bytes that decode. */
  lemma DecodeCons(bs: seq<byte>)
    requires bs != [] && Decode(bs).Some?
    ensures var n := SequenceLength(bs[0]);
            && 0 < n <= |bs|
            && DecodeScalar(bs[..n]).Some? && Decode(bs[n..]).Some?
            && Decode(bs).value == [DecodeScalar(bs[..n]).value] + Decode(bs[n..]).value
  {}

  /** Encoding inverts decoding: a byte sequence that decodes is the encoding of its text. */
  lemma {:induction false} EncodeDecode(bs: seq<byte>)
    requires Decode(bs).Some?
    ensures Encode(Decode(bs).value) == bs
    decreases |bs|
  {
    if bs != [] {
      var n := SequenceLength(bs[0]);
      DecodeCons(bs);
      var c := DecodeScalar(bs[..n]).value;
      EncodeDecodeScalar(bs[..n]);
      EncodeDecode(bs[n..]);
      EncodeCons(c, Decode(bs[n..]).value);
      assert bs == bs[..n] + bs[n..];
    }
  }
}
