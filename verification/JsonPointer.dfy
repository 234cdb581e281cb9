/** The text form of a JSON Pointer (sections 3 and 4 of RFC 6901) and its parser. */
module JsonPointer {
  import opened Wrappers

  const MAX_JSON_POINTER_BYTES := 4096

  datatype PointerError = TooLong | NotAPointer | InvalidEscape

  /** A reference token with ~ and / escaped. */
  function Escape(token: string): string {
    if token == [] then []
    else EscapeChar(token[0]) + Escape(token[1..])
  }

  function EscapeChar(c: char): string {
    if c == '~' then ['~', '0'] else if c == '/' then ['~', '1'] else [c]
  }

  function Render(tokens: seq<string>): string {
    if tokens == [] then [] else "/" + Escape(tokens[0]) + Render(tokens[1..])
  }

  /** decode_pointer_token as a function. */
  function Unescape(encoded: string): Result<string, PointerError> {
    if encoded == [] then Ok([])
    else if encoded[0] != '~' then Cons(encoded[0], Unescape(encoded[1..]))
    else if |encoded| == 1 || (encoded[1] != '0' && encoded[1] != '1') then Err(InvalidEscape)
    else Cons(if encoded[1] == '0' then '~' else '/', Unescape(encoded[2..]))
  }

  function Cons(c: char, rest: Result<string, PointerError>): Result<string, PointerError> {
    if rest.Err? then rest else Ok([c] + rest.value)
  }

  lemma {:induction false} UnescapeOfEscape(token: string)
    ensures Unescape(Escape(token)) == Ok(token) && '/' !in Escape(token)
  {
    if token != [] {
      UnescapeOfEscape(token[1..]);
      var e, rest := EscapeChar(token[0]), Escape(token[1..]);
      assert (e + rest)[|e|..] == rest;
      assert token == [token[0]] + token[1..];
    }
  }

  /** Decoding is injective on the texts between two slashes. */
  lemma {:induction false} EscapeOfUnescape(encoded: string)
    requires Unescape(encoded).Ok? && '/' !in encoded
    ensures Escape(Unescape(encoded).value) == encoded
  {
    if encoded != [] {
      var token := Unescape(encoded).value;
      if encoded[0] != '~' {
        EscapeOfUnescape(encoded[1..]);
        assert token[1..] == Unescape(encoded[1..]).value;
      } else {
        EscapeOfUnescape(encoded[2..]);
        assert token[1..] == Unescape(encoded[2..]).value;
        assert encoded == [encoded[0], encoded[1]] + encoded[2..];
      }
    }
  }

  /** decode_pointer_token. */
  method DecodePointerToken(encoded: string) returns (r: Result<string, PointerError>)
    ensures r == Unescape(encoded)
  {
    var decoded := [];
    var index := 0;
    assert encoded[0..] == encoded;
    AppendNothing(Unescape(encoded));
    while index < |encoded|
      invariant index <= |encoded|
      invariant Unescape(encoded) == Append(decoded, Unescape(encoded[index..]))
      decreases |encoded| - index
    {
      var rest := encoded[index..];
      assert rest[1..] == encoded[index + 1..];
      if encoded[index] != '~' {
        AppendCons(decoded, encoded[index], Unescape(rest[1..]));
        decoded := decoded + [encoded[index]];
        index := index + 1;
        continue;
      }
      if index + 1 >= |encoded| || (encoded[index + 1] != '0' && encoded[index + 1] != '1') {
        return Err(InvalidEscape);
      }
      assert rest[2..] == encoded[index + 2..];
      var c := if encoded[index + 1] == '0' then '~' else '/';
      AppendCons(decoded, c, Unescape(rest[2..]));
      decoded := decoded + [c];
      index := index + 2;
    }
    assert decoded + [] == decoded;
    return Ok(decoded);
  }

  function Append(prefix: string, rest: Result<string, PointerError>): Result<string, PointerError> {
    if rest.Err? then rest else Ok(prefix + rest.value)
  }

  lemma AppendNothing(rest: Result<string, PointerError>)
    ensures Append([], rest) == rest
  {
    if rest.Ok? { assert [] + rest.value == rest.value; }
  }

  lemma AppendCons(prefix: string, c: char, rest: Result<string, PointerError>)
    ensures Append(prefix, Cons(c, rest)) == Append(prefix + [c], rest)
  {
    if rest.Ok? { assert prefix + ([c] + rest.value) == prefix + [c] + rest.value; }
  }

  /** The position of the next slash, or the end. */
  function NextSlash(s: string): (n: nat)
    ensures n <= |s| && '/' !in s[..n] && (n < |s| ==> s[n] == '/')
  {
    if s == [] || s[0] == '/' then 0 else NextSlash(s[1..]) + 1
  }

  /** The tokens of a text that starts with a slash. */
  function Tokens(s: string): Result<seq<string>, PointerError>
    requires s != [] && s[0] == '/'
    decreases |s|
  {
    var end := NextSlash(s[1..]) + 1;
    var token := Unescape(s[1..end]);
    if token.Err? then Err(token.error)
    else if end == |s| then Ok([token.value])
    else
      var rest := Tokens(s[end..]);
      if rest.Err? then rest else Ok([token.value] + rest.value)
  }

  /** parse_json_pointer as a function. */
  function ParsePointer(source: string): Result<seq<string>, PointerError> {
    if |source| > MAX_JSON_POINTER_BYTES then Err(TooLong)
    else if source == [] then Ok([])
    else if source[0] != '/' then Err(NotAPointer)
    else Tokens(source)
  }

  lemma {:induction false} NextSlashOf(a: string, s: string)
    requires '/' !in a && (s == [] || s[0] == '/')
    ensures NextSlash(a + s) == |a|
  {
    if a == [] {
      assert a + s == s;
    } else {
      assert (a + s)[1..] == a[1..] + s;
      NextSlashOf(a[1..], s);
    }
  }

  /** The first token of a text and what follows it. */
  lemma TokensOfFirst(encoded: string, tail: string)
    requires '/' !in encoded && (tail == [] || tail[0] == '/')
    ensures Tokens("/" + encoded + tail) ==
      if Unescape(encoded).Err? then Err(Unescape(encoded).error)
      else if tail == [] then Ok([Unescape(encoded).value])
      else Prefixed([Unescape(encoded).value], Tokens(tail))
  {
    var s := "/" + encoded + tail;
    assert s[1..] == encoded + tail;
    NextSlashOf(encoded, tail);
    assert s[1..|encoded| + 1] == encoded && s[|encoded| + 1..] == tail;
  }

  lemma {:induction false} TokensOfRender(tokens: seq<string>)
    requires tokens != []
    ensures Render(tokens) != [] && Render(tokens)[0] == '/' && Tokens(Render(tokens)) == Ok(tokens)
  {
    hide Tokens, Unescape, Escape;
    UnescapeOfEscape(tokens[0]);
    if |tokens| > 1 { TokensOfRender(tokens[1..]); }
    TokensOfFirst(Escape(tokens[0]), Render(tokens[1..]));
    var s := "/" + Escape(tokens[0]) + Render(tokens[1..]);
    assert Render(tokens) == s && s[0] == '/';
    if |tokens| == 1 { assert tokens[1..] == [] && tokens == [tokens[0]]; }
    assert tokens == [tokens[0]] + tokens[1..];
  }

  lemma {:induction false} RenderOfTokens(s: string)
    requires s != [] && s[0] == '/' && Tokens(s).Ok?
    ensures Tokens(s).value != [] && Render(Tokens(s).value) == s
    decreases |s|
  {
    var end := NextSlash(s[1..]) + 1;
    var token := Unescape(s[1..end]).value;
    assert s[1..end] == s[1..][..NextSlash(s[1..])];
    EscapeOfUnescape(s[1..end]);
    assert s == "/" + s[1..end] + s[end..];
    var tokens := Tokens(s).value;
    if end < |s| {
      RenderOfTokens(s[end..]);
      assert tokens[1..] == Tokens(s[end..]).value;
    } else {
      assert tokens[1..] == [];
    }
  }

  /** Pointer texts and token lists correspond one to one, up to the length limit. */
  lemma PointerRoundTrip(source: string, tokens: seq<string>)
    ensures ParsePointer(source) == Ok(tokens) <==>
      |source| <= MAX_JSON_POINTER_BYTES && source == Render(tokens)
  {
    if ParsePointer(source) == Ok(tokens) && source != [] { RenderOfTokens(source); }
    if |source| <= MAX_JSON_POINTER_BYTES && source == Render(tokens) && tokens != [] { TokensOfRender(tokens); }
  }

  /** parse_json_pointer. */
  method ParseJsonPointer(source: string) returns (r: Result<seq<string>, PointerError>)
    ensures r == ParsePointer(source)
  {
    if |source| > MAX_JSON_POINTER_BYTES { return Err(TooLong); }
    if source != [] && source[0] != '/' { return Err(NotAPointer); }
    if source == [] { return Ok([]); }
    r := SplitTokens(source);
  }

  /** The loop of parse_json_pointer over the text between slashes. */
  method SplitTokens(source: string) returns (r: Result<seq<string>, PointerError>)
    requires source != [] && source[0] == '/'
    ensures r == Tokens(source)
  {
    hide Tokens, Unescape;
    var tokens := [];
    var start := 1;
    assert source[0..] == source;
    PrefixedNothing(Tokens(source));
    while true
      invariant 1 <= start <= |source| && source[start - 1] == '/'
      invariant Tokens(source) == Prefixed(tokens, Tokens(source[start - 1..]))
      decreases |source| - start
    {
      var end := start;
      while end < |source| && source[end] != '/'
        invariant start <= end <= |source| && '/' !in source[start..end]
      {
        end := end + 1;
      }
      assert source[start - 1..] == "/" + source[start..end] + source[end..];
      TokensOfFirst(source[start..end], source[end..]);
      var decoded := DecodePointerToken(source[start..end]);
      if decoded.Err? { return Err(decoded.error); }
      if end == |source| {
        return Ok(tokens + [decoded.value]);
      }
      PrefixedStep(tokens, decoded.value, Tokens(source[end..]));
      tokens := tokens + [decoded.value];
      start := end + 1;
    }
  }

  function Prefixed(front: seq<string>, rest: Result<seq<string>, PointerError>): Result<seq<string>, PointerError> {
    if rest.Err? then rest else Ok(front + rest.value)
  }

  lemma PrefixedNothing(rest: Result<seq<string>, PointerError>)
    ensures Prefixed([], rest) == rest
  {
    if rest.Ok? { assert [] + rest.value == rest.value; }
  }

  lemma PrefixedStep(front: seq<string>, token: string, rest: Result<seq<string>, PointerError>)
    ensures Prefixed(front, Prefixed([token], rest)) == Prefixed(front + [token], rest)
  {
    if rest.Ok? { assert front + ([token] + rest.value) == front + [token] + rest.value; }
  }
}
