/** The streaming SHA-256 of sha256.cpp: a block buffer, a running hash and a length. */
module Sha256Stream {
  import opened Bytes
  import opened Sha256Spec

  const MAX_UINT64 := 0xFFFF_FFFF_FFFF_FFFF

  class Sha256 {
    const hash: array<Word>
    const buffer: array<Byte>
    var bufferSize: nat
    var totalBytes: nat
    ghost var hashed: seq<Byte>
    ghost var message: seq<Byte>

    /** What has been hashed so far is a whole number of blocks; the rest is buffered. */
    ghost predicate Absorbing()
      reads this, hash, buffer
    {
      && hash.Length == 8 && buffer.Length == 64 && bufferSize < 64
      && WholeBlocks(hashed) && hash[..] == Fold(hashed)
    }

    ghost predicate Valid()
      reads this, hash, buffer
    {
      Absorbing() && message == hashed + buffer[..bufferSize] && totalBytes == |message| <= MAX_UINT64
    }

    constructor ()
      ensures Valid() && message == [] && fresh(hash) && fresh(buffer)
    {
      hash := new Word[8](i requires 0 <= i < 8 => INITIAL_HASH[i]);
      buffer := new Byte[64](_ => 0);
      bufferSize, totalBytes, hashed, message := 0, 0, [], [];
      new;
      assert hash[..] == INITIAL_HASH;
    }

    /** transform: the schedule, the rounds, and the addition into the hash. */
    method Transform(block: seq<Byte>)
      requires hash.Length == 8 && |block| == 64
      modifies hash
      ensures hash[..] == Compress(old(hash[..]), block)
    {
      hide Rounds, Schedule, Accumulated;
      ghost var start := hash[..];
      var words := Expand(block);
      var v := RunRounds(start, words, block);
      Accumulate(v);
    }

    /** The last eight assignments of transform. */
    method Accumulate(v: Working)
      requires hash.Length == 8
      modifies hash
      ensures hash[..] == Accumulated(old(hash[..]), v)
    {
      hide Add;
      hash[0] := Add(hash[0], v.a);
      hash[1] := Add(hash[1], v.b);
      hash[2] := Add(hash[2], v.c);
      hash[3] := Add(hash[3], v.d);
      hash[4] := Add(hash[4], v.e);
      hash[5] := Add(hash[5], v.f);
      hash[6] := Add(hash[6], v.g);
      hash[7] := Add(hash[7], v.h);
      assert hash[..] == [hash[0], hash[1], hash[2], hash[3], hash[4], hash[5], hash[6], hash[7]];
    }

    static method Expand(block: seq<Byte>) returns (words: array<Word>)
      requires |block| == 64
      ensures fresh(words) && words.Length == 64
      ensures forall t :: 0 <= t < 64 ==> words[t] == Schedule(block, t)
    {
      hide SmallSigma0, SmallSigma1, Octet, Add;
      words := new Word[64](_ => 0);
      for index := 0 to 16
        invariant forall t :: 0 <= t < index ==> words[t] == Schedule(block, t)
      {
        var position := 4 * index;
        words[index] := (Octet(block[position]) << 24) | (Octet(block[position + 1]) << 16)
                        | (Octet(block[position + 2]) << 8) | Octet(block[position + 3]);
      }
      for index := 16 to 64
        invariant forall t :: 0 <= t < index ==> words[t] == Schedule(block, t)
      {
        var sigma0 := SmallSigma0(words[index - 15]);
        var sigma1 := SmallSigma1(words[index - 2]);
        SumOrder(words[index - 16], sigma0, words[index - 7], sigma1);
        words[index] := Add(Add(Add(words[index - 16], sigma0), words[index - 7]), sigma1);
      }
    }

    method RunRounds(ghost start: seq<Word>, words: array<Word>, ghost block: seq<Byte>) returns (v: Working)
      requires hash.Length == 8 && hash[..] == start && |block| == 64 && words.Length == 64
      requires forall t :: 0 <= t < 64 ==> words[t] == Schedule(block, t)
      ensures v == Rounds(start, block, 64)
    {
      hide Schedule, BigSigma0, BigSigma1, Ch, Maj, Add, ToWord;
      var a, b, c, d := hash[0], hash[1], hash[2], hash[3];
      var e, f, g, h := hash[4], hash[5], hash[6], hash[7];
      for index := 0 to 64
        invariant Working(a, b, c, d, e, f, g, h) == Rounds(start, block, index)
      {
        ghost var before := Working(a, b, c, d, e, f, g, h);
        var sum1 := BigSigma1(e);
        var choice := Ch(e, f, g);
        var temporary1 := Add(Add(Add(Add(h, sum1), choice), ToWord(ROUND_CONSTANTS[index])), words[index]);
        var sum0 := BigSigma0(a);
        var majority := Maj(a, b, c);
        var temporary2 := Add(sum0, majority);
        h := g;
        g := f;
        f := e;
        e := Add(d, temporary1);
        d := c;
        c := b;
        b := a;
        a := Add(temporary1, temporary2);
        assert Working(a, b, c, d, e, f, g, h) == Round(before, ToWord(ROUND_CONSTANTS[index]), words[index]);
      }
      v := Working(a, b, c, d, e, f, g, h);
    }

    static lemma AddSwaps(x: Word, y: Word)
      ensures Add(x, y) == Add(y, x)
    {}

    static lemma AddIsSum(x: Word, y: Word)
      ensures Add(x, y) == x + y
    {}

    static lemma SumRegroups(x: Word, y: Word, z: Word)
      ensures (x + y) + z == (x + z) + y
    {}

    static lemma AddRegroups(x: Word, y: Word, z: Word)
      ensures Add(Add(x, y), z) == Add(Add(x, z), y)
    {
      calc {
        Add(Add(x, y), z);
        { hide Add; AddIsSum(x, y); AddIsSum(x + y, z); }
        (x + y) + z;
        { SumRegroups(x, y, z); }
        (x + z) + y;
        { hide Add; AddIsSum(x, z); AddIsSum(x + z, y); }
        Add(Add(x, z), y);
      }
    }

    /** The schedule adds its four terms in another order than the standard. */
    static lemma SumOrder(a: Word, b: Word, c: Word, d: Word)
      ensures Add(Add(Add(a, b), c), d) == Add(Add(Add(d, c), b), a)
    {
      hide Add;
      AddSwaps(a, b);
      AddRegroups(b, a, c);
      AddSwaps(b, c);
      AddRegroups(Add(c, b), a, d);
      AddRegroups(c, b, d);
      AddSwaps(c, d);
    }

    /** Tops up a partly filled buffer, and hashes it when it becomes full. */
    method FillBuffer(content: seq<Byte>) returns (copied: nat)
      requires Absorbing() && bufferSize != 0
      modifies this`bufferSize, this`hashed, hash, buffer
      ensures copied <= |content| && Absorbing() && (bufferSize == 0 || copied == |content|)
      ensures hashed + buffer[..bufferSize] == old(hashed + buffer[..bufferSize]) + content[..copied]
    {
      hide Fold, WholeBlocks, Compress;
      var room := buffer.Length - bufferSize;
      copied := if |content| < room then |content| else room;
      CopyIn(content[..copied]);
      if bufferSize + copied == buffer.Length {
        ghost var block := buffer[..bufferSize + copied];
        assert buffer[..] == block;
        FoldExtends(hashed, block);
        Transform(buffer[..]);
        hashed := hashed + block;
        bufferSize := 0;
        assert buffer[..bufferSize] == [];
      } else {
        bufferSize := bufferSize + copied;
      }
    }

    /** copy_n into the buffer behind its contents; the size is set by the caller. */
    method CopyIn(piece: seq<Byte>)
      requires buffer.Length == 64 && bufferSize + |piece| <= 64
      modifies buffer
      ensures buffer[..bufferSize + |piece|] == old(buffer[..bufferSize]) + piece
    {
      ghost var before := buffer[..bufferSize];
      forall i | 0 <= i < |piece| { buffer[bufferSize + i] := piece[i]; }
      assert buffer[..bufferSize] == before;
      assert buffer[bufferSize..bufferSize + |piece|] == piece;
    }

    /** Hashes whole blocks straight from the input. */
    method AbsorbBlocks(content: seq<Byte>, start: nat) returns (offset: nat)
      requires Absorbing() && start <= |content| && bufferSize == 0
      modifies this`hashed, hash
      ensures start <= offset <= |content| && |content| - offset < 64
      ensures Absorbing() && hashed == old(hashed) + content[start..offset]
    {
      hide Fold, WholeBlocks, Compress;
      offset := start;
      while |content| - offset >= buffer.Length
        invariant start <= offset <= |content| && Absorbing()
        invariant hashed == old(hashed) + content[start..offset]
      {
        var block := content[offset..offset + buffer.Length];
        assert content[start..offset + 64] == content[start..offset] + block;
        FoldExtends(hashed, block);
        Transform(block);
        hashed := hashed + block;
        offset := offset + buffer.Length;
      }
    }

    /** update. */
    method Update(content: seq<Byte>) returns (ok: bool)
      requires Valid()
      modifies this, hash, buffer
      ensures Valid() && ok == (|old(message)| + |content| <= MAX_UINT64)
      ensures message == if ok then old(message) + content else old(message)
    {
      hide Fold, WholeBlocks, Compress;
      if |content| > MAX_UINT64 - totalBytes { return false; }
      Grown(message, content, 0, 0);
      totalBytes := totalBytes + |content|;
      var offset := 0;
      if bufferSize != 0 {
        offset := FillBuffer(content);
      }
      assert hashed + buffer[..bufferSize] == message + content[..offset];
      if bufferSize == 0 {
        ghost var from := offset;
        offset := AbsorbBlocks(content, offset);
        Grown(message, content, from, offset);
      }
      assert hashed + buffer[..bufferSize] == message + content[..offset];
      if offset < |content| {
        Grown(message, content, offset, |content|);
        CopyIn(content[offset..]);
        bufferSize := |content| - offset;
      }
      message := message + content;
      return true;
    }

    /** Two neighbouring pieces of the input. */
    static lemma Grown(message: seq<Byte>, content: seq<Byte>, from: nat, to: nat)
      requires from <= to <= |content|
      ensures (message + content[..from]) + content[from..to] == message + content[..to]
      ensures to == |content| ==> content[from..to] == content[from..] && content[..to] == content
      ensures from == 0 ==> message + content[..from] == message
    {}

    /** fill with zeros between two buffer positions. */
    method FillZeros(from: nat, to: nat)
      requires buffer.Length == 64 && from <= to <= 64
      modifies buffer
      ensures buffer[..to] == old(buffer[..from]) + Zeros(to - from)
    {
      ghost var before := buffer[..from];
      forall i | from <= i < to { buffer[i] := 0; }
      assert buffer[..from] == before;
      assert buffer[from..to] == Zeros(to - from);
    }

    method PutLength(bits: nat)
      requires buffer.Length == 64 && bits < 0x1_0000_0000_0000_0000
      modifies buffer
      ensures buffer[..] == old(buffer[..56]) + BigEndian64(bits)
    {
      hide LengthOctet;
      ghost var before := buffer[..56];
      for index := 0 to 8
        invariant buffer[..56] == before
        invariant forall i :: 0 <= i < index ==> buffer[56 + i] == LengthOctet(bits, i)
      {
        buffer[56 + index] := LengthOctet(bits, index);
      }
      assert buffer[56..] == BigEndian64(bits);
    }

    /** The first half of finish: the 0x80 byte, and a block of its own for it when the
        length field does not fit behind it. */
    method MarkEnd() returns (ghost zeros: nat)
      requires Valid()
      modifies this`bufferSize, this`hashed, hash, buffer
      ensures Absorbing() && bufferSize <= 56 && zeros + (56 - bufferSize) == ZeroCount(|message|)
      ensures hashed + buffer[..bufferSize] == (message + [0x80]) + Zeros(zeros)
    {
      hide Fold, WholeBlocks, Compress, ZeroCount;
      ghost var rest := buffer[..bufferSize];
      SizeOfRest(hashed, rest);
      buffer[bufferSize] := 0x80;
      assert buffer[..bufferSize] == rest;
      bufferSize := bufferSize + 1;
      assert buffer[..bufferSize] == rest + [0x80];
      zeros := 0;
      if bufferSize > 56 {
        FillZeros(bufferSize, buffer.Length);
        zeros := buffer.Length - bufferSize;
        ghost var block := buffer[..64];
        assert buffer[..] == block;
        FoldExtends(hashed, block);
        Transform(buffer[..]);
        hashed := hashed + block;
        bufferSize := 0;
      }
    }

    /** finish. The length field is the bit count modulo 2^64, which is the bit count
        itself for every message FIPS 180-4 defines. */
    method Finish() returns (digest: seq<Word>)
      requires Valid()
      modifies this, hash, buffer
      ensures digest == Fold(PadWith(old(message), 8 * |old(message)| % 0x1_0000_0000_0000_0000))
      ensures |old(message)| < 0x2000_0000_0000_0000 ==> digest == Digest(old(message))
    {
      hide Fold, WholeBlocks, Compress, BigEndian64, Zeros, ZeroCount;
      var bits := totalBytes * 8 % 0x1_0000_0000_0000_0000;
      ghost var zeros := MarkEnd();
      ghost var more, tail := 56 - bufferSize, buffer[..bufferSize];
      FillZeros(bufferSize, 56);
      PutLength(bits);
      ZerosAdd(zeros, more);
      ghost var last := buffer[..];
      assert last == (tail + Zeros(more)) + BigEndian64(bits);
      assert hashed + last == ((hashed + tail) + Zeros(more)) + BigEndian64(bits);
      assert ((message + [0x80]) + Zeros(zeros)) + Zeros(more) == (message + [0x80]) + (Zeros(zeros) + Zeros(more));
      FoldExtends(hashed, last);
      Transform(buffer[..]);
      digest := hash[..];
    }

    static lemma SizeOfRest(m: seq<Byte>, rest: seq<Byte>)
      requires WholeBlocks(m) && |rest| < 64
      ensures ZeroCount(|m + rest|) == if |rest| + 1 <= 56 then 55 - |rest| else 119 - |rest|
    {}

    static lemma ZerosAdd(a: nat, b: nat)
      ensures Zeros(a) + Zeros(b) == Zeros(a + b) && |Zeros(a)| == a && |Zeros(b)| == b
    {}

    static lemma FoldExtends(m: seq<Byte>, block: seq<Byte>)
      requires WholeBlocks(m) && |block| == 64
      ensures WholeBlocks(m + block) && Fold(m + block) == Compress(Fold(m), block)
    {
      assert (m + block)[..|m + block| - 64] == m && (m + block)[|m + block| - 64..] == block;
    }
  }

  /** sha256_file_hex: the file arrives in pieces of whatever size read returns. */
  method HashPieces(pieces: seq<seq<Byte>>) returns (ok: bool, digest: seq<Word>)
    ensures |Concat(pieces)| < 0x2000_0000_0000_0000 ==> ok && digest == Digest(Concat(pieces))
    ensures ok ==> digest == Fold(PadWith(Concat(pieces), 8 * |Concat(pieces)| % 0x1_0000_0000_0000_0000))
    ensures ok <==> |Concat(pieces)| <= MAX_UINT64
  {
    hide Fold, PadWith;
    var state := new Sha256();
    for i := 0 to |pieces|
      invariant state.Valid() && fresh(state) && fresh(state.hash) && fresh(state.buffer)
      invariant state.message == Concat(pieces[..i])
    {
      assert pieces[..i + 1][..i] == pieces[..i];
      if |pieces[i]| > 0 {
        ok := state.Update(pieces[i]);
        if !ok {
          ConcatGrows(pieces, i + 1);
          return false, [];
        }
      }
    }
    assert pieces[..|pieces|] == pieces;
    digest := state.Finish();
    return true, digest;
  }

  lemma {:induction false} ConcatGrows(pieces: seq<seq<Byte>>, i: nat)
    requires i <= |pieces|
    ensures |Concat(pieces[..i])| <= |Concat(pieces)|
  {
    if i < |pieces| {
      ConcatGrows(pieces[..|pieces| - 1], i);
      assert pieces[..|pieces| - 1][..i] == pieces[..i];
    } else {
      assert pieces[..i] == pieces;
    }
  }
}
