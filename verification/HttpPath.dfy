/** canonicalize_http_path (url.cpp): percent-encoding normalization in the sense of RFC
    3986, sections 6.2.2.1 and 6.2.2.2, with the restrictions the router needs. */
module HttpPaths {
  import opened Wrappers
  import opened Bytes

  type Path = seq<Byte>

  const MAX_PATH := 2048
  const SLASH: Byte := 0x2F
  const DOT: Byte := 0x2E
  const PERCENT: Byte := 0x25

  datatype PathError =
    | NoLeadingSlash | TooLong | ForbiddenByte | InvalidEscape | EncodedControl
    | EncodedSeparator | DuplicateSeparator | DotSegment

  predicate IsHex(b: Byte) {
    0x30 <= b <= 0x39 || 0x41 <= b <= 0x46 || 0x61 <= b <= 0x66
  }

  function HexValue(b: Byte): (v: nat)
    requires IsHex(b)
    ensures v < 16
  {
    if b <= 0x39 then b as int - 0x30 else if b <= 0x46 then b as int - 0x41 + 10 else b as int - 0x61 + 10
  }

  function UpperHex(v: nat): (b: Byte)
    requires v < 16
    ensures IsHex(b) && HexValue(b) == v && !(0x61 <= b <= 0x66)
  {
    if v < 10 then (0x30 + v) as Byte else (0x41 + v - 10) as Byte
  }

  predicate IsUnreserved(b: Byte) {
    0x30 <= b <= 0x39 || 0x41 <= b <= 0x5A || 0x61 <= b <= 0x7A || b in {0x2D, 0x2E, 0x5F, 0x7E}
  }

  /** Control bytes, query, fragment and backslash. */
  predicate IsForbidden(b: Byte) {
    b < 0x20 || b in {0x7F, 0x3F, 0x23, 0x5C}
  }

  // What a path says, apart from how it is spelled.

  /** One byte of the path, written as itself or, when it must stay escaped, as its code. */
  datatype Token = Literal(byte: Byte) | Escaped(code: Byte)

  predicate CanonicalToken(t: Token) {
    match t
    case Literal(b) => !IsForbidden(b) && b != PERCENT
    case Escaped(c) => !IsUnreserved(c) && c >= 0x20 && c != 0x7F && c != SLASH && c != 0x5C
  }

  function EscapeToken(code: Byte): Result<Token, PathError> {
    if code < 0x20 || code == 0x7F then Err(EncodedControl)
    else if code == DOT || code == SLASH || code == 0x5C then Err(EncodedSeparator)
    else Ok(if IsUnreserved(code) then Literal(code) else Escaped(code))
  }

  /** The first token and the bytes after it. */
  function FirstToken(raw: Path): (r: Result<(Token, Path), PathError>)
    requires raw != []
    ensures r.Ok? ==> |r.value.1| < |raw| && CanonicalToken(r.value.0)
  {
    if IsForbidden(raw[0]) then Err(ForbiddenByte)
    else if raw[0] != PERCENT then Ok((Literal(raw[0]), raw[1..]))
    else if |raw| < 3 || !IsHex(raw[1]) || !IsHex(raw[2]) then Err(InvalidEscape)
    else
      var token := EscapeToken((HexValue(raw[1]) * 16 + HexValue(raw[2])) as Byte);
      if token.Err? then Err(token.error) else Ok((token.value, raw[3..]))
  }

  function Tokens(raw: Path): Result<seq<Token>, PathError>
    decreases |raw|
  {
    if raw == [] then Ok([])
    else
      var first := FirstToken(raw);
      if first.Err? then Err(first.error)
      else
        var rest := Tokens(first.value.1);
        if rest.Err? then rest else Ok([first.value.0] + rest.value)
  }

  function Spelled(t: Token): (p: Path)
    ensures 1 <= |p| <= 3
  {
    match t
    case Literal(b) => [b]
    case Escaped(c) => [PERCENT, UpperHex(c as int / 16), UpperHex(c as int % 16)]
  }

  function Render(ts: seq<Token>): Path {
    if ts == [] then [] else Spelled(ts[0]) + Render(ts[1..])
  }

  // The checks on the normalized text.

  ghost predicate HasDuplicate(p: Path) {
    exists i :: 0 <= i < |p| - 1 && p[i] == SLASH && p[i + 1] == SLASH
  }

  /** The segment from start up to the next separator. */
  function Segment(p: Path, start: nat): Path
    requires start <= |p|
    decreases |p| - start
  {
    if start == |p| || p[start] == SLASH then [] else [p[start]] + Segment(p, start + 1)
  }

  predicate IsDotName(segment: Path) {
    segment == [DOT] || segment == [DOT, DOT]
  }

  ghost predicate DotSegmentAt(p: Path, start: int) {
    0 < start <= |p| && p[start - 1] == SLASH && IsDotName(Segment(p, start))
  }

  ghost predicate HasDotSegment(p: Path) {
    exists start :: DotSegmentAt(p, start)
  }

  function Trimmed(p: Path): Path {
    if |p| > 1 && p[|p| - 1] == SLASH then p[..|p| - 1] else p
  }

  /** The canonical form, as a function of what the path says. */
  ghost function Canonical(raw: Path): Result<Path, PathError> {
    if raw == [] || raw[0] != SLASH then Err(NoLeadingSlash)
    else if |raw| > MAX_PATH then Err(TooLong)
    else
      var tokens := Tokens(raw);
      if tokens.Err? then Err(tokens.error)
      else if HasDuplicate(Render(tokens.value)) then Err(DuplicateSeparator)
      else if HasDotSegment(Render(tokens.value)) then Err(DotSegment)
      else Ok(Trimmed(Render(tokens.value)))
  }

  // The loops of canonicalize_http_path.

  lemma RenderAppend(ts: seq<Token>, t: Token)
    ensures Render(ts + [t]) == Render(ts) + Spelled(t)
  {
    if ts == [] {
      assert Render([t]) == Spelled(t) + Render([]);
    } else {
      assert (ts + [t])[1..] == ts[1..] + [t];
      RenderAppend(ts[1..], t);
    }
  }

  function After(read: seq<Token>, rest: Result<seq<Token>, PathError>): Result<seq<Token>, PathError> {
    if rest.Err? then rest else Ok(read + rest.value)
  }

  lemma AfterToken(read: seq<Token>, raw: Path)
    requires raw != []
    ensures FirstToken(raw).Err? ==> After(read, Tokens(raw)) == Err(FirstToken(raw).error)
    ensures FirstToken(raw).Ok? ==>
      After(read, Tokens(raw)) == After(read + [FirstToken(raw).value.0], Tokens(FirstToken(raw).value.1))
  {
    var first := FirstToken(raw);
    if first.Ok? {
      var rest := Tokens(first.value.1);
      if rest.Ok? {
        assert read + ([first.value.0] + rest.value) == read + [first.value.0] + rest.value;
      }
    }
  }

  lemma NothingRead()
    ensures Render([]) == [] && Tokens([]) == Ok([])
  {}

  lemma FirstTokenIs(raw: Path)
    requires raw != []
    ensures IsForbidden(raw[0]) ==> FirstToken(raw) == Err(ForbiddenByte)
    ensures !IsForbidden(raw[0]) && raw[0] != PERCENT ==> FirstToken(raw) == Ok((Literal(raw[0]), raw[1..]))
    ensures raw[0] == PERCENT && (|raw| < 3 || !IsHex(raw[1]) || !IsHex(raw[2])) ==>
      FirstToken(raw) == Err(InvalidEscape)
    ensures raw[0] == PERCENT && |raw| >= 3 && IsHex(raw[1]) && IsHex(raw[2]) ==>
      var token := EscapeToken((HexValue(raw[1]) * 16 + HexValue(raw[2])) as Byte);
      FirstToken(raw) == if token.Err? then Err(token.error) else Ok((token.value, raw[3..]))
  {}

  method Normalize(raw: Path) returns (r: Result<Path, PathError>)
    ensures r == if Tokens(raw).Err? then Err(Tokens(raw).error) else Ok(Render(Tokens(raw).value))
  {
    NothingRead();
    hide Tokens, Render, FirstToken;
    var candidate: Path := [];
    ghost var read: seq<Token> := [];
    var index := 0;
    assert raw[0..] == raw;
    assert Tokens(raw).Ok? ==> [] + Tokens(raw).value == Tokens(raw).value;
    while index < |raw|
      invariant 0 <= index <= |raw|
      invariant candidate == Render(read)
      invariant Tokens(raw) == After(read, Tokens(raw[index..]))
    {
      ghost var rest := raw[index..];
      AfterToken(read, rest);
      FirstTokenIs(rest);
      var b := raw[index];
      if IsForbidden(b) { return Err(ForbiddenByte); }
      if b != PERCENT {
        RenderAppend(read, Literal(b));
        read := read + [Literal(b)];
        candidate := candidate + [b];
        index := index + 1;
        assert raw[index..] == rest[1..];
        continue;
      }
      if index + 2 >= |raw| || !IsHex(raw[index + 1]) || !IsHex(raw[index + 2]) { return Err(InvalidEscape); }
      var decoded := (HexValue(raw[index + 1]) * 16 + HexValue(raw[index + 2])) as Byte;
      if decoded < 0x20 || decoded == 0x7F { return Err(EncodedControl); }
      if decoded == DOT || decoded == SLASH || decoded == 0x5C { return Err(EncodedSeparator); }
      ghost var token := if IsUnreserved(decoded) then Literal(decoded) else Escaped(decoded);
      RenderAppend(read, token);
      read := read + [token];
      if IsUnreserved(decoded) {
        candidate := candidate + [decoded];
      } else {
        candidate := candidate + [PERCENT, UpperHex(decoded as int / 16), UpperHex(decoded as int % 16)];
      }
      index := index + 3;
      assert raw[index..] == rest[3..];
    }
    assert raw[|raw|..] == [] && read + [] == read;
    return Ok(candidate);
  }

  /** candidate.find("//"). */
  method FindDuplicate(p: Path) returns (found: bool)
    ensures found <==> HasDuplicate(p)
  {
    var i := 0;
    while i + 1 < |p|
      invariant 0 <= i
      invariant forall k :: 0 <= k < i && k < |p| - 1 ==> !(p[k] == SLASH && p[k + 1] == SLASH)
    {
      if p[i] == SLASH && p[i + 1] == SLASH { return true; }
      i := i + 1;
    }
    return false;
  }

  /** A segment is what find and substr cut out. */
  lemma SegmentIs(p: Path, start: nat, end: nat)
    requires start <= end <= |p| && (end == |p| || p[end] == SLASH)
    requires forall k :: start <= k < end ==> p[k] != SLASH
    ensures Segment(p, start) == p[start..end]
    decreases end - start
  {
    if start < end { SegmentIs(p, start + 1, end); }
  }

  /** The segment loop. */
  method FindDotSegment(p: Path) returns (found: bool)
    requires p != [] && p[0] == SLASH
    ensures found <==> HasDotSegment(p)
  {
    var start := 1;
    while start <= |p|
      invariant 1 <= start <= |p| + 1
      invariant start <= |p| ==> p[start - 1] == SLASH
      invariant forall t :: 0 < t < start ==> !DotSegmentAt(p, t)
      decreases |p| + 1 - start
    {
      var end := start;
      while end < |p| && p[end] != SLASH
        invariant start <= end <= |p|
        invariant forall k :: start <= k < end ==> p[k] != SLASH
      {
        end := end + 1;
      }
      SegmentIs(p, start, end);
      if IsDotName(p[start..end]) {
        assert DotSegmentAt(p, start);
        return true;
      }
      start := end + 1;
    }
    return false;
  }

  method Canonicalize(raw: Path) returns (r: Result<Path, PathError>)
    ensures r == Canonical(raw)
  {
    if raw == [] || raw[0] != SLASH { return Err(NoLeadingSlash); }
    if |raw| > MAX_PATH { return Err(TooLong); }
    var normalized := Normalize(raw);
    if normalized.Err? { return normalized; }
    var candidate := normalized.value;
    StartsWithSlash(raw);
    var duplicate := FindDuplicate(candidate);
    if duplicate { return Err(DuplicateSeparator); }
    var dot := FindDotSegment(candidate);
    if dot { return Err(DotSegment); }
    return Ok(if |candidate| > 1 && candidate[|candidate| - 1] == SLASH then candidate[..|candidate| - 1] else candidate);
  }

  lemma StartsWithSlash(raw: Path)
    requires raw != [] && raw[0] == SLASH && Tokens(raw).Ok?
    ensures Render(Tokens(raw).value) != [] && Render(Tokens(raw).value)[0] == SLASH
  {
    var first := FirstToken(raw);
    assert first.value.0 == Literal(SLASH);
    assert Tokens(raw).value[0] == Literal(SLASH);
  }

  // Main results.

  ghost predicate AllCanonical(ts: seq<Token>) {
    forall t :: t in ts ==> CanonicalToken(t)
  }

  lemma {:induction false} TokensAreCanonical(raw: Path)
    requires Tokens(raw).Ok?
    ensures AllCanonical(Tokens(raw).value)
    ensures |Render(Tokens(raw).value)| <= |raw|
    decreases |raw|
  {
    if raw != [] {
      TokensAreCanonical(FirstToken(raw).value.1);
      var ts := Tokens(raw).value;
      assert ts[1..] == Tokens(FirstToken(raw).value.1).value;
    }
  }

  lemma FirstTokenOfSpelled(t: Token, rest: Path)
    requires CanonicalToken(t)
    ensures FirstToken(Spelled(t) + rest) == Ok((t, rest))
  {
    var p := Spelled(t) + rest;
    assert p[|Spelled(t)|..] == rest;
    if t.Escaped? {
      assert p[1] == UpperHex(t.code as int / 16) && p[2] == UpperHex(t.code as int % 16);
    }
  }

  /** Reading back what canonical tokens spell gives the same tokens. */
  lemma {:induction false} TokensOfRender(ts: seq<Token>)
    requires AllCanonical(ts)
    ensures Tokens(Render(ts)) == Ok(ts)
  {
    if ts != [] {
      FirstTokenOfSpelled(ts[0], Render(ts[1..]));
      TokensOfRender(ts[1..]);
      assert [ts[0]] + ts[1..] == ts;
    }
  }

  lemma {:induction false} RenderConcat(first: seq<Token>, second: seq<Token>)
    ensures Render(first + second) == Render(first) + Render(second)
  {
    if first == [] {
      assert first + second == second;
    } else {
      assert (first + second)[1..] == first[1..] + second;
      RenderConcat(first[1..], second);
    }
  }

  function TrimmedTokens(ts: seq<Token>): seq<Token> {
    if |ts| > 1 && ts[|ts| - 1] == Literal(SLASH) then ts[..|ts| - 1] else ts
  }

  /** Dropping the trailing separator from the text or from the tokens is the same. */
  lemma TrimmedRender(ts: seq<Token>)
    requires AllCanonical(ts) && ts != []
    ensures Trimmed(Render(ts)) == Render(TrimmedTokens(ts))
  {
    hide Render, Spelled;
    var front, last := ts[..|ts| - 1], ts[|ts| - 1];
    assert ts == front + [last];
    RenderAppend(front, last);
    LastByte(last);
    RenderLength(front);
    var p := Render(front) + Spelled(last);
    assert p[|p| - 1] == Spelled(last)[|Spelled(last)| - 1];
    if last == Literal(SLASH) {
      assert p[..|p| - 1] == Render(front);
    }
  }

  lemma LastByte(t: Token)
    requires CanonicalToken(t)
    ensures Spelled(t)[|Spelled(t)| - 1] == SLASH <==> t == Literal(SLASH)
    ensures t == Literal(SLASH) ==> Spelled(t) == [SLASH]
  {}

  lemma RenderLength(ts: seq<Token>)
    ensures Render(ts) == [] <==> ts == []
  {}

  /** What an accepted path says: its tokens without the trailing separator. */
  function Meaning(raw: Path): seq<Token>
    requires Tokens(raw).Ok?
  {
    TrimmedTokens(Tokens(raw).value)
  }

  lemma CanonicalIsMeaning(raw: Path)
    requires Canonical(raw).Ok?
    ensures Canonical(raw).value == Render(Meaning(raw))
    ensures AllCanonical(Meaning(raw)) && Meaning(raw) != [] && Meaning(raw)[0] == Literal(SLASH)
  {
    TokensAreCanonical(raw);
    StartsWithSlash(raw);
    TrimmedRender(Tokens(raw).value);
  }

  /** Two accepted paths have the same canonical form exactly when they say the same. So
      hex case, escaped unreserved bytes and one trailing separator never matter, and
      nothing else is ever identified. */
  lemma SameFormIffSameMeaning(a: Path, b: Path)
    requires Canonical(a).Ok? && Canonical(b).Ok?
    ensures Canonical(a) == Canonical(b) <==> Meaning(a) == Meaning(b)
  {
    CanonicalIsMeaning(a);
    CanonicalIsMeaning(b);
    TokensOfRender(Meaning(a));
    TokensOfRender(Meaning(b));
  }

  lemma CanonicalIsShorter(raw: Path)
    requires Canonical(raw).Ok?
    ensures 1 <= |Canonical(raw).value| <= |raw| <= MAX_PATH
  {
    TokensAreCanonical(raw);
    StartsWithSlash(raw);
  }

  lemma NoDuplicateAt(p: Path, i: nat)
    requires !HasDuplicate(p) && i + 1 < |p|
    ensures !(p[i] == SLASH && p[i + 1] == SLASH)
  {}

  lemma TrimmedHasNoDotSegment(p: Path)
    requires p != [] && p[0] == SLASH && !HasDuplicate(p) && !HasDotSegment(p)
    ensures !HasDuplicate(Trimmed(p)) && !HasDotSegment(Trimmed(p))
    ensures Trimmed(Trimmed(p)) == Trimmed(p)
  {
    var q := Trimmed(p);
    if q != p {
      forall start: nat | start <= |q| ensures DotSegmentAt(q, start) ==> DotSegmentAt(p, start) {
        SegmentSurvives(p, start);
      }
      NoDuplicateAt(p, |q| - 1);
      forall i | 0 <= i < |q| - 1 ensures !(q[i] == SLASH && q[i + 1] == SLASH) {
        NoDuplicateAt(p, i);
      }
    }
  }

  lemma {:induction false} SegmentSurvives(p: Path, start: nat)
    requires |p| > 1 && p[|p| - 1] == SLASH && start <= |p| - 1
    ensures Segment(p[..|p| - 1], start) == Segment(p, start)
    decreases |p| - start
  {
    if start < |p| - 1 && p[start] != SLASH { SegmentSurvives(p, start + 1); }
  }

  /** A canonical path is its own canonical form. */
  lemma CanonicalIsIdempotent(raw: Path)
    requires Canonical(raw).Ok?
    ensures Canonical(Canonical(raw).value) == Canonical(raw)
  {
    var c := Canonical(raw).value;
    CanonicalIsShorter(raw);
    CanonicalIsMeaning(raw);
    TokensOfRender(Meaning(raw));
    StartsWithSlash(raw);
    TrimmedHasNoDotSegment(Render(Tokens(raw).value));
    assert c[0] == SLASH;
  }

  // Variants of spelling, edit by edit.

  lemma {:induction false} TokensConcat(first: Path, second: Path)
    requires Tokens(first).Ok?
    ensures Tokens(first + second) == After(Tokens(first).value, Tokens(second))
    decreases |first|
  {
    if first == [] {
      assert first + second == second;
      assert Tokens(second).Ok? ==> [] + Tokens(second).value == Tokens(second).value;
    } else {
      var step := FirstToken(first).value;
      FirstTokenConcat(first, second);
      TokensConcat(step.1, second);
      if Tokens(second).Ok? {
        var rest := Tokens(step.1).value;
        assert [step.0] + (rest + Tokens(second).value) == ([step.0] + rest) + Tokens(second).value;
      }
    }
  }

  lemma FirstTokenConcat(first: Path, second: Path)
    requires first != [] && FirstToken(first).Ok?
    ensures var step := FirstToken(first).value;
      FirstToken(first + second) == Ok((step.0, step.1 + second))
  {
    var step := FirstToken(first).value;
    var k := |first| - |step.1|;
    assert first[k..] + second == (first + second)[k..];
  }

  /** Writing an unreserved byte other than a dot as an escape, with either hex case,
      changes nothing: neither the canonical form nor the error. */
  lemma EscapingUnreservedIsInvisible(before: Path, b: Byte, high: Byte, low: Byte, rest: Path)
    requires Tokens(before).Ok? && |before| + 3 + |rest| <= MAX_PATH
    requires IsUnreserved(b) && b != DOT
    requires IsHex(high) && IsHex(low) && HexValue(high) * 16 + HexValue(low) == b
    ensures Canonical(before + [PERCENT, high, low] + rest) == Canonical(before + [b] + rest)
  {
    hide Canonical, Tokens;
    var escaped, plain := [PERCENT, high, low] + rest, [b] + rest;
    EscapeReads(b, high, low, rest);
    SameTail(before, escaped, plain);
    assert before + [PERCENT, high, low] + rest == before + escaped;
    assert before + [b] + rest == before + plain;
  }

  lemma EscapeReads(b: Byte, high: Byte, low: Byte, rest: Path)
    requires IsUnreserved(b) && b != DOT
    requires IsHex(high) && IsHex(low) && HexValue(high) * 16 + HexValue(low) == b
    ensures Tokens([PERCENT, high, low] + rest) == Tokens([b] + rest)
  {
    var escaped, plain := [PERCENT, high, low] + rest, [b] + rest;
    assert escaped[3..] == rest && plain[1..] == rest;
    assert EscapeToken(b) == Ok(Literal(b));
    assert FirstToken(escaped) == Ok((Literal(b), rest));
    hide IsUnreserved, HexValue, EscapeToken;
  }

  /** The case of the hex digits of an escape changes nothing. */
  lemma HexCaseIsInvisible(before: Path, high: Byte, low: Byte, high': Byte, low': Byte, rest: Path)
    requires Tokens(before).Ok?
    requires IsHex(high) && IsHex(low) && IsHex(high') && IsHex(low')
    requires HexValue(high) == HexValue(high') && HexValue(low) == HexValue(low')
    ensures Canonical(before + [PERCENT, high, low] + rest) == Canonical(before + [PERCENT, high', low'] + rest)
  {
    hide Canonical, Tokens;
    var p, q := [PERCENT, high, low] + rest, [PERCENT, high', low'] + rest;
    HexCaseReads(high, low, high', low', rest);
    SameTail(before, p, q);
    assert before + [PERCENT, high, low] + rest == before + p;
    assert before + [PERCENT, high', low'] + rest == before + q;
  }

  lemma HexCaseReads(high: Byte, low: Byte, high': Byte, low': Byte, rest: Path)
    requires IsHex(high) && IsHex(low) && IsHex(high') && IsHex(low')
    requires HexValue(high) == HexValue(high') && HexValue(low) == HexValue(low')
    ensures Tokens([PERCENT, high, low] + rest) == Tokens([PERCENT, high', low'] + rest)
  {
    hide HexValue, IsHex, EscapeToken;
    var p, q := [PERCENT, high, low] + rest, [PERCENT, high', low'] + rest;
    assert p[3..] == rest && q[3..] == rest;
    assert FirstToken(p) == FirstToken(q);
  }

  lemma SameTail(before: Path, p: Path, q: Path)
    requires Tokens(before).Ok? && Tokens(p) == Tokens(q)
    requires p != [] && q != [] && p[0] != SLASH && q[0] != SLASH
    requires |p| == |q| || (|before| + |p| <= MAX_PATH && |before| + |q| <= MAX_PATH)
    ensures Canonical(before + p) == Canonical(before + q)
  {
    TokensConcat(before, p);
    TokensConcat(before, q);
  }

  /** One trailing separator changes nothing. */
  lemma TrailingSlashIsInvisible(raw: Path)
    requires raw != [] && raw[|raw| - 1] != SLASH && |raw| < MAX_PATH && Tokens(raw).Ok?
    ensures Canonical(raw + [SLASH]) == Canonical(raw)
  {
    if raw[0] == SLASH {
      TrailingTokens(raw);
      StartsWithSlash(raw);
      EndsAlike(raw);
      SlashAddsNothing(Render(Tokens(raw).value));
    }
    hide Tokens, Render, HasDuplicate, HasDotSegment, Trimmed;
  }

  lemma TrailingTokens(raw: Path)
    requires Tokens(raw).Ok?
    ensures Tokens(raw + [SLASH]).Ok?
    ensures Render(Tokens(raw + [SLASH]).value) == Render(Tokens(raw).value) + [SLASH]
  {
    assert FirstToken([SLASH]) == Ok((Literal(SLASH), []));
    NothingRead();
    assert Tokens([SLASH]) == Ok([Literal(SLASH)] + []);
    assert [Literal(SLASH)] + [] == [Literal(SLASH)];
    TokensConcat(raw, [SLASH]);
    assert Tokens(raw + [SLASH]) == Ok(Tokens(raw).value + [Literal(SLASH)]);
    assert Spelled(Literal(SLASH)) == [SLASH];
    hide Tokens, Render;
    RenderAppend(Tokens(raw).value, Literal(SLASH));
  }

  /** A token sequence ends in a separator exactly when the text does. */
  lemma {:induction false} EndsAlike(raw: Path)
    requires raw != [] && raw[|raw| - 1] != SLASH && Tokens(raw).Ok?
    ensures var p := Render(Tokens(raw).value); p != [] && p[|p| - 1] != SLASH
    decreases |raw|
  {
    var step := FirstToken(raw).value;
    var ts := Tokens(raw).value;
    assert ts[0] == step.0 && ts[1..] == Tokens(step.1).value;
    if step.1 == [] {
      assert Render(ts[1..]) == [];
      if raw[0] != PERCENT { assert |raw| == 1; }
    } else {
      assert step.1[|step.1| - 1] == raw[|raw| - 1];
      EndsAlike(step.1);
    }
  }

  lemma SlashAddsNothing(p: Path)
    requires p != [] && p[0] == SLASH && p[|p| - 1] != SLASH
    ensures HasDuplicate(p + [SLASH]) <==> HasDuplicate(p)
    ensures HasDotSegment(p + [SLASH]) <==> HasDotSegment(p)
    ensures Trimmed(p + [SLASH]) == Trimmed(p)
  {
    var q := p + [SLASH];
    assert q[..|p|] == p;
    if HasDuplicate(p) {
      var i :| 0 <= i < |p| - 1 && p[i] == SLASH && p[i + 1] == SLASH;
      assert q[i] == SLASH && q[i + 1] == SLASH;
    }
    forall start: nat | start <= |p| ensures Segment(q, start) == Segment(p, start) {
      SegmentSurvives(q, start);
    }
    forall start | 0 < start <= |q| ensures DotSegmentAt(q, start) <==> DotSegmentAt(p, start) {
      if start == |q| { assert Segment(q, start) == []; }
    }
  }
}
