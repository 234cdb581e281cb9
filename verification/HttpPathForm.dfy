/** What a canonical path looks like, and what it decodes to, in terms of bytes alone. */
module HttpPathForms {
  import opened Wrappers
  import opened Bytes
  import opened HttpPaths

  const LOWER_DIGITS := "0123456789abcdef"
  const UPPER_DIGITS := "0123456789ABCDEF"

  /** The hex digits, with their values. */
  lemma HexDigits(b: Byte, v: nat)
    requires v < 16
    ensures IsHex(b) && HexValue(b) == v <==> b == LOWER_DIGITS[v] as int || b == UPPER_DIGITS[v] as int
    ensures UpperHex(v) == UPPER_DIGITS[v] as int
  {
    match v { case 0 => case 1 => case 2 => case 3 => case 4 => case 5 => case 6 => case 7 => case 8 =>
      case 9 => case 10 => case 11 => case 12 => case 13 => case 14 => case _ => }
  }

  predicate IsLetterOrDigit(c: char) {
    'a' <= c <= 'z' || 'A' <= c <= 'Z' || '0' <= c <= '9'
  }

  /** Section 2.3 of RFC 3986. */
  lemma UnreservedBytes(b: Byte)
    ensures IsUnreserved(b) <==> IsLetterOrDigit(b as char) || (b as char) in "-._~"
  {}

  /** Which first bytes are turned away, and why. */
  lemma FirstTokenErrors(raw: Path)
    requires raw != []
    ensures FirstToken(raw) == Err(ForbiddenByte) <==> raw[0] < 32 || raw[0] == 127 || (raw[0] as char) in "?#\\"
    ensures FirstToken(raw) == Err(InvalidEscape) <==> raw[0] as char == '%' && !(|raw| >= 3 && IsHex(raw[1]) && IsHex(raw[2]))
    ensures raw[0] as char == '%' && |raw| >= 3 && IsHex(raw[1]) && IsHex(raw[2]) ==>
      var code := HexValue(raw[1]) * 16 + HexValue(raw[2]);
      && (FirstToken(raw) == Err(EncodedControl) <==> code < 32 || code == 127)
      && (FirstToken(raw) == Err(EncodedSeparator) <==> (code as char) in "./\\")
    ensures raw[0] as char != '%' ==> FirstToken(raw) != Err(EncodedControl) && FirstToken(raw) != Err(EncodedSeparator)
  {}

  /** The errors that are not about one byte. */
  lemma CanonicalErrors(raw: Path)
    ensures Canonical(raw) == Err(NoLeadingSlash) <==> raw == [] || raw[0] as char != '/'
    ensures Canonical(raw) == Err(TooLong) <==> raw != [] && raw[0] as char == '/' && |raw| > 2048
    ensures raw != [] && raw[0] as char == '/' && |raw| <= 2048 && Tokens(raw).Err? ==> Canonical(raw) == Err(Tokens(raw).error)
  {
    if Tokens(raw).Err? { TokenErrors(raw); }
  }

  lemma {:induction false} TokenErrors(raw: Path)
    requires Tokens(raw).Err?
    ensures Tokens(raw).error in {ForbiddenByte, InvalidEscape, EncodedControl, EncodedSeparator}
    decreases |raw|
  {
    if FirstToken(raw).Ok? { TokenErrors(FirstToken(raw).value.1); }
  }

  // What a canonical path looks like.

  predicate UpperDigit(b: Byte) { (b as char) in UPPER_DIGITS }

  /** No control byte, query, fragment or backslash, and every percent sign starts an
      escape in upper case. */
  predicate CleanAt(p: Path, i: nat)
    requires i < |p|
  {
    && p[i] >= 32 && p[i] != 127 && (p[i] as char) !in "?#\\"
    && (p[i] as char == '%' ==> i + 2 < |p| && UpperDigit(p[i + 1]) && UpperDigit(p[i + 2]))
  }

  lemma DigitIsClean(v: nat)
    requires v < 16
    ensures UpperDigit(UpperHex(v)) && UpperHex(v) >= 32 && UpperHex(v) != 127 && UpperHex(v) as char !in "?#\\%"
  {
    HexDigits(UpperHex(v), v);
    assert UPPER_DIGITS[v] in UPPER_DIGITS;
  }

  lemma SpelledIsClean(t: Token, rest: Path, i: nat)
    requires CanonicalToken(t) && i < |Spelled(t)|
    ensures CleanAt(Spelled(t) + rest, i)
  {
    var p := Spelled(t) + rest;
    match t {
      case Literal(b) => assert p[0] == b;
      case Escaped(c) =>
        DigitIsClean(c as int / 16);
        DigitIsClean(c as int % 16);
        hide UpperDigit, UpperHex;
        assert p[0] == PERCENT && p[1] == UpperHex(c as int / 16) && p[2] == UpperHex(c as int % 16);
        assert PERCENT as char == '%' && '%' !in "?#\\";
    }
  }

  lemma CleanLater(first: Path, rest: Path, i: nat)
    requires i < |rest| && CleanAt(rest, i)
    ensures CleanAt(first + rest, |first| + i)
  {}

  lemma {:induction false} RenderIsClean(ts: seq<Token>, i: nat)
    requires AllCanonical(ts) && i < |Render(ts)|
    ensures CleanAt(Render(ts), i)
  {
    hide CleanAt, Spelled;
    var n := |Spelled(ts[0])|;
    if i < n {
      SpelledIsClean(ts[0], Render(ts[1..]), i);
    } else {
      RenderIsClean(ts[1..], i - n);
      CleanLater(Spelled(ts[0]), Render(ts[1..]), i - n);
    }
  }

  predicate HasAt(p: Path, i: nat, text: string) {
    i + |text| <= |p| && forall k :: 0 <= k < |text| ==> p[i + k] as char == text[k]
  }

  predicate EndsAt(p: Path, i: nat) {
    i == |p| || (i < |p| && p[i] as char == '/')
  }

  /** A canonical path starts with the separator and does not end with one unless it is all
      there is; it has no empty, "." or ".." segment, and is clean everywhere. */
  lemma CanonicalIsClean(raw: Path, i: nat)
    requires Canonical(raw).Ok?
    ensures var c := Canonical(raw).value;
      && HasAt(c, 0, "/") && |c| <= 2048 && (|c| > 1 ==> c[|c| - 1] as char != '/')
      && (i < |c| ==> CleanAt(c, i))
      && !HasAt(c, i, "//")
      && !(HasAt(c, i, "/.") && EndsAt(c, i + 2)) && !(HasAt(c, i, "/..") && EndsAt(c, i + 3))
  {
    hide CleanAt, Tokens, Render;
    var c := Canonical(raw).value;
    CanonicalIsShorter(raw);
    CanonicalIsMeaning(raw);
    StartsWithSlash(raw);
    if i < |c| { RenderIsClean(Meaning(raw), i); }
    var whole := Render(Tokens(raw).value);
    TrimmedHasNoDotSegment(whole);
    if HasAt(c, i, "//") { DuplicateSeen(c, i); }
    if (HasAt(c, i, "/.") && EndsAt(c, i + 2)) || (HasAt(c, i, "/..") && EndsAt(c, i + 3)) { DotSegmentSeen(c, i); }
    TrimmedEnd(whole);
    assert c[0] == whole[0];
  }

  lemma TrimmedEnd(p: Path)
    requires p != [] && !HasDuplicate(p)
    ensures var c := Trimmed(p); |c| > 1 ==> c[|c| - 1] != SLASH
  {
    if |p| > 1 && p[|p| - 1] == SLASH { NoDuplicateAt(p, |p| - 2); }
  }

  lemma DuplicateSeen(c: Path, i: nat)
    requires HasAt(c, i, "//")
    ensures HasDuplicate(c)
  {
    assert c[i + 0] as char == "//"[0] && c[i + 1] as char == "//"[1];
  }

  lemma DotSegmentSeen(c: Path, i: nat)
    requires (HasAt(c, i, "/.") && EndsAt(c, i + 2)) || (HasAt(c, i, "/..") && EndsAt(c, i + 3))
    ensures HasDotSegment(c)
  {
    if HasAt(c, i, "/.") && EndsAt(c, i + 2) {
      assert c[i + 0] as char == "/."[0] && c[i + 1] as char == "/."[1];
      SegmentIs(c, i + 1, i + 2);
    } else {
      assert c[i + 0] as char == "/.."[0] && c[i + 1] as char == "/.."[1] && c[i + 2] as char == "/.."[2];
      SegmentIs(c, i + 1, i + 3);
    }
    assert DotSegmentAt(c, i + 1);
  }

  // What it decodes to.

  /** Every escape replaced by the byte it stands for. */
  function PercentDecoded(p: Path): seq<Byte>
    decreases |p|
  {
    if p == [] then []
    else if p[0] as char == '%' && |p| >= 3 && IsHex(p[1]) && IsHex(p[2]) then
      [HexValue(p[1]) * 16 + HexValue(p[2])] + PercentDecoded(p[3..])
    else [p[0]] + PercentDecoded(p[1..])
  }

  function Meant(t: Token): Byte {
    match t
    case Literal(b) => b
    case Escaped(c) => c
  }

  function AllMeant(ts: seq<Token>): seq<Byte> {
    seq(|ts|, i requires 0 <= i < |ts| => Meant(ts[i]))
  }

  lemma {:induction false} TokensDecode(raw: Path)
    requires Tokens(raw).Ok?
    ensures PercentDecoded(raw) == AllMeant(Tokens(raw).value)
    decreases |raw|
  {
    if raw != [] {
      var first := FirstToken(raw).value;
      TokensDecode(first.1);
      var rest := Tokens(first.1).value;
      assert AllMeant([first.0] + rest) == [Meant(first.0)] + AllMeant(rest);
    }
  }

  /** Canonicalization never changes what a path decodes to, but for one trailing separator. */
  lemma DecodingIsKept(raw: Path)
    requires Canonical(raw).Ok?
    ensures PercentDecoded(Canonical(raw).value) == Trimmed(PercentDecoded(raw))
  {
    CanonicalIsMeaning(raw);
    TokensAreCanonical(raw);
    TokensDecode(raw);
    TokensOfRender(Meaning(raw));
    TokensDecode(Canonical(raw).value);
    var ts := Tokens(raw).value;
    hide Tokens, Render, PercentDecoded;
    if ts != [] {
      var last := ts[|ts| - 1];
      assert CanonicalToken(last);
      assert AllMeant(ts)[|ts| - 1] == Meant(last);
      if |ts| > 1 && last == Literal(SLASH) { assert AllMeant(ts[..|ts| - 1]) == AllMeant(ts)[..|ts| - 1]; }
    }
  }
}
