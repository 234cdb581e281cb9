/** valid_utf8 of frame_codec.cpp against the UTF-8 definition of RFC 3629. */
module Utf8 {
  import opened Bytes

  /** Unicode scalar values: code points without the surrogates. */
  type Scalar = v: int | 0 <= v <= 0x10FFFF && !(0xD800 <= v <= 0xDFFF)

  /** The octet sequence of one scalar value, section 3 of RFC 3629. */
  function Encode(v: Scalar): (octets: seq<Byte>)
    ensures 1 <= |octets| <= 4
  {
    if v <= 0x7F then [v]
    else if v <= 0x7FF then [0xC0 + v / 0x40, Tail(v)]
    else if v <= 0xFFFF then [0xE0 + v / 0x1000, Tail(v / 0x40), Tail(v)]
    else [0xF0 + v / 0x40000, Tail(v / 0x1000), Tail(v / 0x40), Tail(v)]
  }

  function Tail(v: nat): Byte { 0x80 + v % 0x40 }

  function EncodeAll(vs: seq<Scalar>): seq<Byte> {
    if vs == [] then [] else Encode(vs[0]) + EncodeAll(vs[1..])
  }

  /** The byte string is the encoding of some sequence of scalar values. */
  ghost predicate IsUtf8(s: seq<Byte>) {
    exists vs :: EncodeAll(vs) == s
  }

  predicate Continuation(b: Byte) { b / 0x40 == 2 }

  /** The number of bytes valid_utf8 accepts at the front of s, or 0 if it rejects. */
  function AcceptedLength(s: seq<Byte>): (n: nat)
    requires s != []
    ensures n <= |s| && n <= 4
  {
    var first := s[0];
    if first <= 0x7F then 1
    else if 0xC2 <= first <= 0xDF then
      if 1 >= |s| || !Continuation(s[1]) then 0 else 2
    else if 0xE0 <= first <= 0xEF then
      if 2 >= |s| || !Continuation(s[1]) || !Continuation(s[2]) then 0
      else if (first == 0xE0 && s[1] < 0xA0) || (first == 0xED && s[1] >= 0xA0) then 0
      else 3
    else if 0xF0 <= first <= 0xF4 then
      if 3 >= |s| || !Continuation(s[1]) || !Continuation(s[2]) || !Continuation(s[3]) then 0
      else if (first == 0xF0 && s[1] < 0x90) || (first == 0xF4 && s[1] >= 0x90) then 0
      else 4
    else 0
  }

  function Accepts(s: seq<Byte>): bool {
    s == [] || (AcceptedLength(s) > 0 && Accepts(s[AcceptedLength(s)..]))
  }

  /** What a byte contributes besides its marker bits. */
  function Payload(b: Byte, marker: int): int { b - marker }

  /** The scalar value of an accepted front. */
  function Decode(s: seq<Byte>): int
    requires s != [] && AcceptedLength(s) > 0
  {
    var n := AcceptedLength(s);
    if n == 1 then s[0]
    else if n == 2 then Payload(s[0], 0xC0) * 0x40 + Payload(s[1], 0x80)
    else if n == 3 then Payload(s[0], 0xE0) * 0x1000 + Payload(s[1], 0x80) * 0x40 + Payload(s[2], 0x80)
    else Payload(s[0], 0xF0) * 0x40000 + Payload(s[1], 0x80) * 0x1000 + Payload(s[2], 0x80) * 0x40 + Payload(s[3], 0x80)
  }

  lemma Split(high: int, low: int)
    requires 0 <= low < 0x40
    ensures (high * 0x40 + low) / 0x40 == high && (high * 0x40 + low) % 0x40 == low
  {}

  lemma DivideTwice(v: nat)
    ensures v / 0x1000 == v / 0x40 / 0x40 && v / 0x40000 == v / 0x40 / 0x40 / 0x40
  {}

  lemma DecodeInverts(s: seq<Byte>)
    requires s != [] && AcceptedLength(s) > 0
    ensures var v := Decode(s); 0 <= v <= 0x10FFFF && !(0xD800 <= v <= 0xDFFF) && Encode(v) == s[..AcceptedLength(s)]
  {
    var n, v := AcceptedLength(s), Decode(s);
    if n == 2 {
      Split(Payload(s[0], 0xC0), Payload(s[1], 0x80));
    } else if n == 3 {
      var a, b := Payload(s[0], 0xE0), Payload(s[1], 0x80);
      Split(a * 0x40 + b, Payload(s[2], 0x80));
      Split(a, b);
      DivideTwice(v);
    } else if n == 4 {
      var a, b, c := Payload(s[0], 0xF0), Payload(s[1], 0x80), Payload(s[2], 0x80);
      Split(a * 0x1000 + b * 0x40 + c, Payload(s[3], 0x80));
      Split(a * 0x40 + b, c);
      Split(a, b);
      DivideTwice(v);
    }
  }

  /** The encoding of a scalar value is accepted whole, whatever follows it. */
  lemma EncodingIsAccepted(v: Scalar, rest: seq<Byte>)
    ensures AcceptedLength(Encode(v) + rest) == |Encode(v)|
  {
  }

  lemma {:induction false} EncodedIsAccepted(vs: seq<Scalar>)
    ensures Accepts(EncodeAll(vs))
  {
    if vs != [] {
      var rest := EncodeAll(vs[1..]);
      EncodingIsAccepted(vs[0], rest);
      assert (Encode(vs[0]) + rest)[|Encode(vs[0])|..] == rest;
      EncodedIsAccepted(vs[1..]);
    }
  }

  lemma {:induction false} AcceptedIsEncoded(s: seq<Byte>) returns (vs: seq<Scalar>)
    requires Accepts(s)
    ensures EncodeAll(vs) == s
  {
    if s == [] {
      vs := [];
    } else {
      var n := AcceptedLength(s);
      var rest := AcceptedIsEncoded(s[n..]);
      DecodeInverts(s);
      vs := [Decode(s)] + rest;
      assert vs[1..] == rest && s == s[..n] + s[n..];
    }
  }

  /** The validator accepts exactly the UTF-8 byte strings. */
  lemma AcceptsExactlyUtf8(s: seq<Byte>)
    ensures Accepts(s) <==> IsUtf8(s)
  {
    if Accepts(s) { var vs := AcceptedIsEncoded(s); }
    if IsUtf8(s) {
      var vs :| EncodeAll(vs) == s;
      EncodedIsAccepted(vs);
    }
  }

  /** valid_utf8. */
  method ValidUtf8(content: seq<Byte>) returns (valid: bool)
    ensures valid <==> IsUtf8(content)
  {
    var index := 0;
    AcceptsExactlyUtf8(content);
    assert content[0..] == content;
    while index < |content|
      invariant index <= |content|
      invariant Accepts(content) <==> Accepts(content[index..])
    {
      var rest := content[index..];
      var first := content[index];
      if first <= 0x7F {
        assert AcceptedLength(rest) == 1 && rest[1..] == content[index + 1..];
        index := index + 1;
        continue;
      }
      if 0xC2 <= first <= 0xDF {
        if index + 1 >= |content| || !Continuation(content[index + 1]) { return false; }
        assert AcceptedLength(rest) == 2 && rest[2..] == content[index + 2..];
        index := index + 2;
        continue;
      }
      if 0xE0 <= first <= 0xEF {
        if index + 2 >= |content| || !Continuation(content[index + 1]) || !Continuation(content[index + 2]) { return false; }
        var second := content[index + 1];
        if (first == 0xE0 && second < 0xA0) || (first == 0xED && second >= 0xA0) { return false; }
        assert AcceptedLength(rest) == 3 && rest[3..] == content[index + 3..];
        index := index + 3;
        continue;
      }
      if 0xF0 <= first <= 0xF4 {
        if index + 3 >= |content| || !Continuation(content[index + 1])
           || !Continuation(content[index + 2]) || !Continuation(content[index + 3]) { return false; }
        var second := content[index + 1];
        if (first == 0xF0 && second < 0x90) || (first == 0xF4 && second >= 0x90) { return false; }
        assert AcceptedLength(rest) == 4 && rest[4..] == content[index + 4..];
        index := index + 4;
        continue;
      }
      return false;
    }
    return true;
  }
}
