/** The length-prefixed frames of frame_codec.cpp: an encoder, and a decoder that is fed
    in arbitrary pieces, against a one-shot parse of the whole stream. */
module FrameCodec {
  import opened Bytes
  import opened Utf8

  const MAXIMUM_FRAME_BYTES := 16 * 1024 * 1024
  const MAXIMUM_BUFFER := MAXIMUM_FRAME_BYTES + 4

  datatype FrameError = NoError | EmptyPayload | TooLarge | InvalidUtf8 | Incomplete | DecoderFailed

  type Payload = seq<Byte>

  /** read_little_endian_length. */
  function LengthField(s: seq<Byte>): nat
    requires |s| >= 4
  {
    s[0] + 0x100 * (s[1] as int) + 0x1_0000 * (s[2] as int) + 0x100_0000 * (s[3] as int)
  }

  function Header(n: nat): seq<Byte> {
    [n % 0x100, n / 0x100 % 0x100, n / 0x1_0000 % 0x100, n / 0x100_0000 % 0x100]
  }

  lemma HeaderHoldsLength(n: nat, rest: seq<Byte>)
    requires n < 0x1_0000_0000
    ensures LengthField(Header(n) + rest) == n
  {
    assert n / 0x1_0000 == n / 0x100 / 0x100 && n / 0x100_0000 == n / 0x100 / 0x100 / 0x100;
  }

  lemma LengthFieldIsHeader(s: seq<Byte>)
    requires |s| >= 4
    ensures s[..4] == Header(LengthField(s))
  {
    var n := LengthField(s);
    assert n / 0x100 == s[1] + 0x100 * (s[2] as int) + 0x1_0000 * (s[3] as int);
    assert n / 0x1_0000 == s[2] + 0x100 * (s[3] as int);
  }

  ghost predicate Encodable(payload: Payload) {
    0 < |payload| <= MAXIMUM_FRAME_BYTES && IsUtf8(payload)
  }

  function Frame(payload: Payload): seq<Byte> { Header(|payload|) + payload }

  function Frames(payloads: seq<Payload>): seq<Byte> {
    if payloads == [] then [] else Frame(payloads[0]) + Frames(payloads[1..])
  }

  /** What a stream means: the frames in front, the bytes not used, the error met. */
  datatype Parsed = Parsed(frames: seq<Payload>, rest: seq<Byte>, error: FrameError)

  /** The verdict on the front of a stream. */
  datatype Front = NeedsMore | Rejected(error: FrameError) | Complete(length: nat)

  ghost function FrontOf(s: seq<Byte>): (f: Front)
    ensures f.Complete? ==> 0 < f.length <= MAXIMUM_FRAME_BYTES && 4 + f.length <= |s| && IsUtf8(s[4..4 + f.length])
    ensures f.Complete? ==> s[..4] == Header(f.length)
    ensures f.Rejected? ==> f.error != NoError
    ensures f.NeedsMore? ==> |s| < MAXIMUM_BUFFER
  {
    if |s| < 4 then NeedsMore
    else
      LengthFieldIsHeader(s);
      var n := LengthField(s);
      if n == 0 then Rejected(EmptyPayload)
      else if n > MAXIMUM_FRAME_BYTES then Rejected(TooLarge)
      else if |s| - 4 < n then NeedsMore
      else if !IsUtf8(s[4..4 + n]) then Rejected(InvalidUtf8)
      else Complete(n)
  }

  /** The layout of a frame in numbers: four octets of length, least significant first, and
      the payload of 1 to 16777216 octets. */
  lemma FrameLayout(payload: Payload)
    requires Encodable(payload)
    ensures 1 <= |payload| <= 16777216
    ensures var f := Frame(payload);
      |f| == 4 + |payload| && f[4..] == payload && f[0] as int + 256 * (f[1] as int) + 65536 * (f[2] as int) + 16777216 * (f[3] as int) == |payload|
  {
    HeaderHoldsLength(|payload|, payload);
  }

  /** Which fronts are turned away, in numbers. */
  lemma FrontErrors(s: seq<Byte>)
    ensures FrontOf(s) == Rejected(EmptyPayload) <==> |s| >= 4 && s[0] == 0 && s[1] == 0 && s[2] == 0 && s[3] == 0
    ensures FrontOf(s) == Rejected(TooLarge) <==> |s| >= 4 && s[0] as int + 256 * (s[1] as int) + 65536 * (s[2] as int) + 16777216 * (s[3] as int) > 16777216
    ensures FrontOf(s) == Rejected(InvalidUtf8) <==>
      && |s| >= 4
      && var n := s[0] as int + 256 * (s[1] as int) + 65536 * (s[2] as int) + 16777216 * (s[3] as int);
      0 < n <= 16777216 && 4 + n <= |s| && !IsUtf8(s[4..4 + n])
    ensures FrontOf(s).Rejected? ==> FrontOf(s).error in {EmptyPayload, TooLarge, InvalidUtf8}
  {
    hide IsUtf8;
    if |s| >= 4 { FrontByTests(s); }
  }

  lemma FrontOfShort(s: seq<Byte>)
    requires |s| < 4
    ensures FrontOf(s) == NeedsMore
  {}

  /** The order in which the decoder tests the front. */
  lemma FrontByTests(s: seq<Byte>)
    requires |s| >= 4
    ensures var n := LengthField(s);
      FrontOf(s) == if n == 0 then Rejected(EmptyPayload)
                    else if n > MAXIMUM_FRAME_BYTES then Rejected(TooLarge)
                    else if |s| - 4 < n then NeedsMore
                    else if !IsUtf8(s[4..4 + n]) then Rejected(InvalidUtf8)
                    else Complete(n)
  {}

  lemma FrontIsStable(a: seq<Byte>, b: seq<Byte>)
    requires !FrontOf(a).NeedsMore?
    ensures FrontOf(a + b) == FrontOf(a)
  {
    var n := LengthField(a);
    if 4 + n <= |a| { assert (a + b)[4..4 + n] == a[4..4 + n]; }
  }

  ghost function Parse(s: seq<Byte>): (p: Parsed)
    decreases |s|
  {
    match FrontOf(s)
    case NeedsMore => Parsed([], s, NoError)
    case Rejected(error) => Parsed([], s, error)
    case Complete(n) => Prepend(s[4..4 + n], Parse(s[4 + n..]))
  }

  lemma ParseUnfolds(s: seq<Byte>)
    ensures var f := FrontOf(s);
      && (f.NeedsMore? ==> Parse(s) == Parsed([], s, NoError))
      && (f.Rejected? ==> Parse(s) == Parsed([], s, f.error))
      && (f.Complete? ==> Parse(s) == Prepend(s[4..4 + f.length], Parse(s[4 + f.length..])))
  {}

  function Prepend(payload: Payload, p: Parsed): Parsed {
    p.(frames := [payload] + p.frames)
  }

  /** Going on with more bytes where a parse stopped. */
  ghost function Resume(p: Parsed, more: seq<Byte>): Parsed {
    if p.error != NoError then p.(rest := p.rest + more)
    else var q := Parse(p.rest + more); q.(frames := p.frames + q.frames)
  }

  lemma ResumePrepend(payload: Payload, p: Parsed, more: seq<Byte>)
    ensures Resume(Prepend(payload, p), more) == Prepend(payload, Resume(p, more))
  {
    if p.error == NoError {
      var q := Parse(p.rest + more);
      assert [payload] + p.frames + q.frames == [payload] + (p.frames + q.frames);
    }
  }

  /** Parsing can stop anywhere and go on from what it left over. */
  lemma {:induction false} ParseResumes(a: seq<Byte>, b: seq<Byte>)
    ensures Parse(a + b) == Resume(Parse(a), b)
    decreases |a|
  {
    match FrontOf(a)
    case NeedsMore =>
      var q := Parse(a + b);
      assert [] + q.frames == q.frames;
    case Rejected(_) => FrontIsStable(a, b);
    case Complete(n) =>
      FrontIsStable(a, b);
      assert (a + b)[4..4 + n] == a[4..4 + n] && (a + b)[4 + n..] == a[4 + n..] + b;
      ParseResumes(a[4 + n..], b);
      ResumePrepend(a[4..4 + n], Parse(a[4 + n..]), b);
  }

  lemma Associative<T>(a: seq<T>, b: seq<T>, c: seq<T>)
    ensures a + (b + c) == (a + b) + c
  {}

  lemma SliceOfRest<T>(s: seq<T>, from: nat, a: nat, b: nat)
    requires from + b <= |s| && a <= b
    ensures s[from..][a..b] == s[from + a..from + b] && s[from..][b..] == s[from + b..]
  {}

  /** One more piece of the input, with frames already handed out. */
  lemma ResumePiece(frames: seq<Payload>, pending: seq<Byte>, piece: seq<Byte>, more: seq<Byte>)
    ensures var p := Parse(pending + piece);
      Resume(Parsed(frames, pending, NoError), piece + more) == Resume(p.(frames := frames + p.frames), more)
  {
    hide Parse;
    var p := Parse(pending + piece);
    Associative(pending, piece, more);
    ParseResumes(pending + piece, more);
    if p.error == NoError { Associative(frames, p.frames, Parse(p.rest + more).frames); }
  }

  /** What is left over holds no complete frame and fits in the buffer with room to spare. */
  lemma {:induction false} LeftoverIsIncomplete(s: seq<Byte>)
    requires Parse(s).error == NoError
    ensures FrontOf(Parse(s).rest).NeedsMore?
    decreases |s|
  {
    if FrontOf(s).Complete? { LeftoverIsIncomplete(s[4 + FrontOf(s).length..]); }
  }

  lemma LeftoverStays(rest: seq<Byte>)
    requires FrontOf(rest).NeedsMore?
    ensures Parse(rest + []) == Parsed([], rest, NoError)
  {
    assert rest + [] == rest;
  }

  /** A frame in front of anything is recognised. */
  lemma FrontOfFrame(payload: Payload, rest: seq<Byte>)
    requires Encodable(payload)
    ensures var s := Frame(payload) + rest;
      FrontOf(s) == Complete(|payload|) && s[4..4 + |payload|] == payload && s[4 + |payload|..] == rest
  {
    hide IsUtf8;
    var s := Frame(payload) + rest;
    HeaderHoldsLength(|payload|, payload + rest);
    assert s == Header(|payload|) + (payload + rest);
    assert s[4..4 + |payload|] == payload && s[4 + |payload|..] == rest;
  }

  /** Concatenated frames parse to exactly their payloads. */
  lemma {:induction false} ParseOfFrames(payloads: seq<Payload>)
    requires forall i :: 0 <= i < |payloads| ==> Encodable(payloads[i])
    ensures Parse(Frames(payloads)) == Parsed(payloads, [], NoError)
  {
    hide Parse, FrontOf, Encodable, Frame;
    ParseUnfolds(Frames(payloads));
    if payloads == [] {
      FrontOfShort([]);
    } else {
      FrontOfFrame(payloads[0], Frames(payloads[1..]));
      ParseOfFrames(payloads[1..]);
    }
  }

  /** Conversely, whatever was parsed is the encoding of the payloads reported. */
  lemma {:induction false} ParsedBytesAreFrames(s: seq<Byte>)
    ensures var p := Parse(s);
      s == Frames(p.frames) + p.rest && forall i :: 0 <= i < |p.frames| ==> Encodable(p.frames[i])
    decreases |s|
  {
    hide Parse, FrontOf, Header, IsUtf8;
    var p := Parse(s);
    ParseUnfolds(s);
    if FrontOf(s).Complete? {
      var n := FrontOf(s).length;
      var tail := Parse(s[4 + n..]);
      ParsedBytesAreFrames(s[4 + n..]);
      assert p.frames[1..] == tail.frames;
      assert s == s[..4 + n] + s[4 + n..] && s[..4 + n] == s[..4] + s[4..4 + n];
      Associative(s[..4 + n], Frames(tail.frames), tail.rest);
    }
  }

  /** A stream is accepted as a whole exactly when it is a concatenation of frames. */
  lemma CompleteStreams(s: seq<Byte>, payloads: seq<Payload>)
    ensures Parse(s) == Parsed(payloads, [], NoError) <==>
      s == Frames(payloads) && forall i :: 0 <= i < |payloads| ==> Encodable(payloads[i])
  {
    ParsedBytesAreFrames(s);
    if s == Frames(payloads) && forall i :: 0 <= i < |payloads| ==> Encodable(payloads[i]) {
      ParseOfFrames(payloads);
    }
  }

  /** encode_frame. */
  method EncodeFrame(payload: Payload) returns (ok: bool, frame: seq<Byte>, error: FrameError)
    ensures ok <==> Encodable(payload)
    ensures ok ==> error == NoError && frame == Frame(payload)
    ensures !ok ==> frame == [] && error == (if payload == [] then EmptyPayload
                                             else if |payload| > MAXIMUM_FRAME_BYTES then TooLarge else InvalidUtf8)
  {
    if payload == [] { return false, [], EmptyPayload; }
    if |payload| > MAXIMUM_FRAME_BYTES { return false, [], TooLarge; }
    var valid := ValidUtf8(payload);
    if !valid { return false, [], InvalidUtf8; }
    frame := [];
    frame := frame + [|payload| % 0x100];
    frame := frame + [|payload| / 0x100 % 0x100];
    frame := frame + [|payload| / 0x1_0000 % 0x100];
    frame := frame + [|payload| / 0x100_0000 % 0x100];
    frame := frame + payload;
    return true, frame, NoError;
  }

  /** What one consume call does to a decoder: its unused bytes and its failed flag. */
  datatype DecoderState = DecoderState(pending: seq<Byte>, failed: bool)

  ghost function Fed(st: DecoderState, bytes: seq<Byte>): (DecoderState, seq<Payload>, FrameError) {
    if st.failed then (st, [], DecoderFailed)
    else
      var p := Parse(st.pending + bytes);
      (DecoderState(if p.error == NoError then p.rest else [], p.error != NoError), p.frames, p.error)
  }

  class FrameDecoder {
    var buffer: seq<Byte>
    var offset: nat
    var failed: bool

    ghost predicate Valid()
      reads this
    {
      && offset <= |buffer| <= MAXIMUM_BUFFER
      && (!failed ==> FrontOf(buffer[offset..]).NeedsMore?)
    }

    ghost function State(): DecoderState
      requires Valid()
      reads this
    {
      DecoderState(if failed then [] else buffer[offset..], failed)
    }

    constructor ()
      ensures Valid() && State() == DecoderState([], false)
    {
      buffer, offset, failed := [], 0, false;
    }

    /** consume. Both TooLarge guards on the buffer itself are unreachable. */
    method Consume(bytes: seq<Byte>) returns (ok: bool, frames: seq<Payload>, error: FrameError)
      requires Valid()
      modifies this
      ensures Valid()
      ensures (State(), frames, error) == Fed(old(State()), bytes)
      ensures ok <==> error == NoError
    {
      frames, error := [], NoError;
      if failed { return false, [], DecoderFailed; }
      var rest := bytes;
      ghost var whole := Parse(buffer[offset..] + bytes);
      assert [] + whole.frames == whole.frames;
      while rest != []
        invariant Valid() && !failed && error == NoError
        invariant whole == Resume(Parsed(frames, buffer[offset..], NoError), rest)
        decreases |rest|
      {
        if offset != 0 {
          buffer := buffer[offset..];
          offset := 0;
        }
        if |buffer| > MAXIMUM_BUFFER { assert false; }
        var capacity := MAXIMUM_BUFFER - |buffer|;
        var count := if capacity < |rest| then capacity else |rest|;
        assert count >= 1;
        ghost var pending := buffer;
        var piece := rest[..count];
        assert rest == piece + rest[count..];
        buffer := buffer + piece;
        rest := rest[count..];
        ResumePiece(frames, pending, piece, rest);
        var decoded, more;
        decoded, more, error := DecodeAvailable();
        frames := frames + more;
        if !decoded { return false, frames, error; }
        if count == 0 && rest != [] { assert false; }
      }
      LeftoverStays(buffer[offset..]);
      assert frames + [] == frames;
      return true, frames, NoError;
    }

    /** decode_available. */
    method DecodeAvailable() returns (ok: bool, frames: seq<Payload>, error: FrameError)
      requires !failed && offset == 0 && |buffer| <= MAXIMUM_BUFFER
      modifies this
      ensures Valid() && failed == !ok && (ok <==> error == NoError)
      ensures var p := Parse(old(buffer));
        frames == p.frames && error == p.error && (ok ==> buffer[offset..] == p.rest)
    {
      hide Parse, FrontOf, LengthField, Header, IsUtf8;
      frames, error := [], NoError;
      ghost var whole := buffer;
      assert buffer[0..] == buffer && [] + buffer == buffer;
      assert [] + Parse(whole).frames == Parse(whole).frames;
      while |buffer| - offset >= 4
        invariant buffer == whole && offset <= |buffer| && !failed
        invariant var q := Parse(buffer[offset..]); Parse(whole) == q.(frames := frames + q.frames)
        decreases |buffer| - offset
      {
        ghost var front := buffer[offset..];
        ParseUnfolds(front);
        FrontByTests(front);
        var length := LengthField(buffer[offset..]);
        if length == 0 {
          failed := true;
          return false, frames, EmptyPayload;
        }
        if length > MAXIMUM_FRAME_BYTES {
          failed := true;
          return false, frames, TooLarge;
        }
        var available := |buffer| - offset - 4;
        if available < length {
          assert frames + [] == frames;
          return true, frames, NoError;
        }
        var view := buffer[offset + 4..offset + 4 + length];
        SliceOfRest(buffer, offset, 4, 4 + length);
        var valid := ValidUtf8(view);
        if !valid {
          failed := true;
          return false, frames, InvalidUtf8;
        }
        assert frames + ([view] + Parse(front[4 + length..]).frames)
            == frames + [view] + Parse(front[4 + length..]).frames;
        frames := frames + [view];
        offset := offset + 4 + length;
      }
      ok := true;
      ParseUnfolds(buffer[offset..]);
      FrontOfShort(buffer[offset..]);
      assert frames + [] == frames;
      if offset == |buffer| {
        buffer, offset := [], 0;
      } else if offset > 64 * 1024 {
        buffer := buffer[offset..];
        offset := 0;
      }
    }

    /** finish. */
    method Finish() returns (ok: bool, error: FrameError)
      requires Valid()
      ensures ok <==> State() == DecoderState([], false)
      ensures error == if failed then DecoderFailed else if ok then NoError else Incomplete
    {
      if failed { return false, DecoderFailed; }
      if |buffer| != offset { return false, Incomplete; }
      return true, NoError;
    }

    /** reset. */
    method Reset()
      modifies this
      ensures Valid() && State() == DecoderState([], false)
    {
      buffer, offset, failed := [], 0, false;
    }
  }

  /** The decoder state and all frames emitted after feeding the chunks one by one. */
  ghost function FedAll(chunks: seq<seq<Byte>>): (DecoderState, seq<Payload>) {
    if chunks == [] then (DecoderState([], false), [])
    else
      var before := FedAll(chunks[..|chunks| - 1]);
      var step := Fed(before.0, chunks[|chunks| - 1]);
      (step.0, before.1 + step.1)
  }

  /** However the stream is cut into consume calls, the frames and the failed flag are
      those of the one-shot parse, and so are the bytes still waiting. */
  lemma {:induction false} ChunkingIsIrrelevant(chunks: seq<seq<Byte>>)
    ensures var p := Parse(Concat(chunks));
      FedAll(chunks) == (DecoderState(if p.error == NoError then p.rest else [], p.error != NoError), p.frames)
  {
    if chunks != [] {
      var front, last := chunks[..|chunks| - 1], chunks[|chunks| - 1];
      ChunkingIsIrrelevant(front);
      ParseResumes(Concat(front), last);
      var p := Parse(Concat(front));
      assert p.frames + [] == p.frames;
      assert FedAll(front).0 == DecoderState(if p.error == NoError then p.rest else [], p.error != NoError);
    }
  }

  /** finish holds after the chunks exactly when they cut up a concatenation of frames,
      and then the frames emitted are the payloads in order. */
  lemma FinishedIffFrames(chunks: seq<seq<Byte>>, payloads: seq<Payload>)
    ensures FedAll(chunks) == (DecoderState([], false), payloads) <==>
      Concat(chunks) == Frames(payloads) && forall i :: 0 <= i < |payloads| ==> Encodable(payloads[i])
  {
    ChunkingIsIrrelevant(chunks);
    CompleteStreams(Concat(chunks), payloads);
  }
}
