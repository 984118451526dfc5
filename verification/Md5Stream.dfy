/** The streaming MD5 context (`context_md5_t`) and the object around it (`md5_generator`). */
module Md5Stream {
  import opened Bits
  import opened Md5Counter
  import opened Md5Transform
  import opened Rfc1321

  // ---------------------------------------------------------------- blocks

  /** The whole blocks of a message, and the bytes after them. */
  function Whole(m: seq<byte>): (w: seq<byte>)
    ensures |w| % 64 == 0
  {
    m[..|m| - |m| % 64]
  }

  function Rest(m: seq<byte>): (r: seq<byte>)
    ensures |r| < 64
    ensures m == Whole(m) + r
  {
    m[|m| - |m| % 64..]
  }

  /** What the fields of a context say after message `m`. */
  ghost predicate Holds(m: seq<byte>, state: State, bits0: nat, bits1: nat, input: seq<byte>) {
    && state == Fold(Whole(m))
    && bits0 == LowBits(|m|)
    && bits1 == HighBits(|m|)
    && |Rest(m)| < 64 == |input|
    && input[..|Rest(m)|] == Rest(m)
  }

  lemma NothingHashed(input: seq<byte>)
    requires |input| == 64
    ensures Holds([], INITIAL, 0, 0, input)
  {
  }

  lemma FoldBlock(m: seq<byte>, block: seq<byte>)
    requires |m| % 64 == 0 && |block| == 64
    ensures Fold(m + block) == Compress(Fold(m), Words(block))
  {
    hide Compress, Words;
    assert (m + block)[..|m + block| - 64] == m;
    assert (m + block)[|m + block| - 64..] == block;
  }

  /** A message is cut at its last block boundary in one way. */
  lemma WholeIs(w: seq<byte>, r: seq<byte>)
    requires |w| % 64 == 0 && |r| < 64
    ensures Whole(w + r) == w && Rest(w + r) == r
  {
    assert |w + r| % 64 == |r|;
    assert (w + r)[..|w|] == w && (w + r)[|w|..] == r;
  }

  lemma OneMoreBlock(m: seq<byte>, data: seq<byte>, i: nat, j: nat)
    requires i <= j <= |data|
    ensures m + data[..i] + data[i..j] == m + data[..j] && data[..|data|] == data
  {
  }

  lemma PendingIs(m: seq<byte>)
    ensures LowBits(|m|) / 8 % 64 == |Rest(m)|
  {
    CountOfPending(|m|);
  }

  lemma StaysInBlock(m: seq<byte>, data: seq<byte>)
    requires |Rest(m)| + |data| < 64
    ensures Whole(m + data) == Whole(m) && Rest(m + data) == Rest(m) + data
  {
    assert m + data == Whole(m) + (Rest(m) + data);
    WholeIs(Whole(m), Rest(m) + data);
  }

  lemma FillsBlock(m: seq<byte>, data: seq<byte>, used: nat)
    requires |Rest(m)| + used == 64 && used <= |data|
    ensures Whole(m) + (Rest(m) + data[..used]) + data[used..] == m + data
  {
  }

  lemma PaddingLength(n: nat)
    ensures (55 - n) % 64 == if n % 64 <= 55 then 55 - n % 64 else 63 - n % 64 + 56
  {
    var q := n / 64;
    assert 55 - n == -q * 64 + (55 - n % 64);
  }

  /** Padding that fits behind the rest of the message. */
  lemma PaddedFits(m: seq<byte>)
    requires |Rest(m)| <= 55
    ensures Padded(m) == Whole(m) + (Rest(m) + [0x80] + Zeros(55 - |Rest(m)|) + LengthBytes(m))
  {
    PaddingLength(|m|);
  }

  /** Padding that needs another block. */
  lemma PaddedSpills(m: seq<byte>)
    requires |Rest(m)| > 55
    ensures Padded(m) == Whole(m) + (Rest(m) + [0x80] + Zeros(63 - |Rest(m)|)) + (Zeros(56) + LengthBytes(m))
  {
    PaddingLength(|m|);
    var c := |Rest(m)|;
    assert Zeros(63 - c + 56) == Zeros(63 - c) + Zeros(56);
  }

  /** The padded message without its last block. */
  function PaddedStart(m: seq<byte>): (p: seq<byte>)
    ensures |p| % 64 == 0
  {
    Padded(m)[..|Padded(m)| - 64]
  }

  /** A message of any length, cut into pieces. */
  function Concat(pieces: seq<seq<byte>>): seq<byte> {
    if |pieces| == 0 then [] else Concat(pieces[..|pieces| - 1]) + pieces[|pieces| - 1]
  }

  // ---------------------------------------------------------------- memory

  method Memcpy(to_: array<byte>, at: nat, data: seq<byte>)
    requires at + |data| <= to_.Length
    modifies to_
    ensures to_[..] == old(to_[..at]) + data + old(to_[at + |data|..])
  {
    forall i | 0 <= i < |data| {
      to_[at + i] := data[i];
    }
  }

  method Memset(to_: array<byte>, at: nat, value: byte, n: nat)
    requires at + n <= to_.Length
    modifies to_
    ensures to_[..] == old(to_[..at]) + seq(n, _ => value) + old(to_[at + n..])
  {
    forall i | 0 <= i < n {
      to_[at + i] := value;
    }
  }

  class Context {
    const buf: array<Word>
    var bits0: nat
    var bits1: nat
    const input: array<byte>
    /** Everything hashed so far. */
    ghost var message: seq<byte>

    ghost predicate Valid()
      reads this, buf, input
    {
      && buf.Length == 4
      && input.Length == 64
      && Holds(message, StateOf(buf), bits0, bits1, input[..])
    }

    /** `MD5Init`. */
    constructor ()
      ensures Valid() && fresh(buf) && fresh(input)
      ensures message == []
    {
      hide Holds, LowBits, HighBits, Fold;
      buf := new Word[][0x67452301, 0xefcdab89, 0x98badcfe, 0x10325476];
      input := new byte[64](_ => 0);
      bits0, bits1 := 0, 0;
      message := [];
      new;
      NothingHashed(input[..]);
      assert StateOf(buf) == INITIAL;
    }

    /** The block in the buffer is hashed after message `m`. */
    method Transform(ghost m: seq<byte>)
      requires buf.Length == 4 && input.Length == 64
      requires |m| % 64 == 0 && StateOf(buf) == Fold(m)
      modifies buf
      ensures StateOf(buf) == Fold(m + input[..])
    {
      hide *;
      FoldBlock(m, input[..]);
      MD5Transform(buf, Words(input[..]));
    }

    /** The bit counter counts `len` more bytes. */
    method Count(len: nat, ghost n: nat)
      requires bits0 == LowBits(n) && bits1 == HighBits(n)
      modifies `bits0, `bits1
      ensures bits0 == LowBits(n + len) && bits1 == HighBits(n + len)
    {
      CounterAdds(n, len);
      var t := bits0;
      bits0 := (t + len % TWO_TO_THE_32 * 8 % TWO_TO_THE_32) % TWO_TO_THE_32;
      if bits0 < t {
        bits1 := (bits1 + 1) % TWO_TO_THE_32;
      }
      bits1 := (bits1 + len / 0x2000_0000) % TWO_TO_THE_32;
    }

    /** `MD5Update`: hash the next piece of the message. */
    method MD5Update(data: seq<byte>)
      requires Valid()
      modifies this`bits0, this`bits1, this`message, buf, input
      ensures Valid() && message == old(message) + data
    {
      hide Fold, Whole, Rest, LowBits, HighBits;
      PendingIs(message);
      var t := bits0 / 8 % 64;
      Count(|data|, |message|);
      if t != 0 {
        if |data| < 64 - t {
          Memcpy(input, t, data);
          StaysInBlock(message, data);
          message := message + data;
          return;
        }
        var used := 64 - t;
        Memcpy(input, t, data[..used]);
        assert input[..] == Rest(message) + data[..used];
        FillsBlock(message, data, used);
        Transform(Whole(message));
        HashBlocks(data[used..], Whole(message) + input[..]);
      } else {
        assert Whole(message) == message;
        HashBlocks(data, message);
      }
      message := message + data;
    }

    /** The last part of `MD5Update`: whole blocks are hashed, the rest is kept. */
    method HashBlocks(data: seq<byte>, ghost m: seq<byte>)
      requires buf.Length == 4 && input.Length == 64
      requires |m| % 64 == 0 && StateOf(buf) == Fold(m)
      modifies buf, input
      ensures StateOf(buf) == Fold(Whole(m + data))
      ensures input[..|Rest(m + data)|] == Rest(m + data)
    {
      hide Fold, Whole, Rest, StateOf;
      var used := 0;
      assert m + data[..0] == m;
      while |data| - used >= 64
        invariant used <= |data| && used % 64 == 0
        invariant StateOf(buf) == Fold(m + data[..used])
      {
        HashBlock(data[used..used + 64], m + data[..used]);
        OneMoreBlock(m, data, used, used + 64);
        used := used + 64;
      }
      Memcpy(input, 0, data[used..]);
      OneMoreBlock(m, data, used, |data|);
      WholeIs(m + data[..used], data[used..]);
    }

    method HashBlock(block: seq<byte>, ghost m: seq<byte>)
      requires buf.Length == 4 && input.Length == 64 && |block| == 64
      requires |m| % 64 == 0 && StateOf(buf) == Fold(m)
      modifies buf, input
      ensures StateOf(buf) == Fold(m + block)
    {
      hide Fold;
      Memcpy(input, 0, block);
      assert input[..] == block;
      Transform(m);
    }

    /** `MD5Final`: pad, hash the last blocks and give the digest; the context is cleared. */
    method MD5Final() returns (digest: seq<byte>)
      requires Valid()
      modifies this, buf, input
      ensures digest == Md5(old(message))
      ensures bits0 == bits1 == 0
      ensures input[..] == Zeros(64) && StateOf(buf) == State(0, 0, 0, 0)
    {
      hide Fold, Whole, Rest, Zeros, Padded, LengthBytes, WordBytes, LowBits, HighBits, NatBytes;
      PendingIs(message);
      Pad();
      CounterIsLength(message);
      ghost var start := input[..56];
      Memcpy(input, 56, NatBytes(bits0));
      Memcpy(input, 60, NatBytes(bits1));
      assert input[..] == start + LengthBytes(message);
      assert PaddedStart(message) + input[..] == PaddedStart(message) + start + LengthBytes(message);
      Transform(PaddedStart(message));
      digest := WordBytes(buf[0]) + WordBytes(buf[1]) + WordBytes(buf[2]) + WordBytes(buf[3]);
      Clear();
    }

    /** The part of `MD5Final` before the length: all but the last eight bytes of the padding. */
    method Pad()
      requires Valid()
      modifies buf, input
      ensures StateOf(buf) == Fold(PaddedStart(message))
      ensures PaddedStart(message) + input[..56] + LengthBytes(message) == Padded(message)
    {
      hide Fold, Whole, Rest, Padded, LengthBytes, LowBits, HighBits;
      PendingIs(message);
      var count := bits0 / 8 % 64;
      input[count] := 0x80;
      var p := count + 1;
      count := 63 - count;
      if count < 8 {
        PaddedSpills(message);
        Memset(input, p, 0, count);
        assert input[..] == Rest(message) + [0x80] + Zeros(count);
        Transform(Whole(message));
        Memset(input, 0, 0, 56);
        assert input[..56] == Zeros(56);
      } else {
        PaddedFits(message);
        Memset(input, p, 0, count - 8);
        assert input[..56] == Rest(message) + [0x80] + Zeros(count - 8);
      }
    }

    method Clear()
      requires buf.Length == 4 && input.Length == 64
      modifies this, buf, input
      ensures bits0 == bits1 == 0
      ensures input[..] == Zeros(64) && StateOf(buf) == State(0, 0, 0, 0)
    {
      buf[0], buf[1], buf[2], buf[3] := 0, 0, 0, 0;
      bits0, bits1 := 0, 0;
      Memset(input, 0, 0, 64);
    }
  }

  /** A generator hashes until it has given its digest, once. */
  class Generator {
    var finalized: bool
    const ctx: Context

    ghost predicate Valid()
      reads this, ctx, ctx.buf, ctx.input
    {
      finalized || ctx.Valid()
    }

    constructor ()
      ensures Valid() && fresh(ctx) && fresh(ctx.buf) && fresh(ctx.input)
      ensures !finalized && ctx.message == []
    {
      finalized := false;
      ctx := new Context();
    }

    method Update(data: seq<byte>)
      requires Valid() && !finalized
      modifies this, ctx, ctx.buf, ctx.input
      ensures Valid() && !finalized && ctx.message == old(ctx.message) + data
    {
      ctx.MD5Update(data);
    }

    method Final() returns (digest: seq<byte>)
      requires Valid() && !finalized
      modifies this, ctx, ctx.buf, ctx.input
      ensures Valid() && finalized
      ensures digest == Md5(old(ctx.message))
    {
      digest := ctx.MD5Final();
      finalized := true;
    }

    static method HashBuf(data: seq<byte>) returns (digest: seq<byte>)
      ensures digest == Md5(data)
    {
      var g := new Generator();
      g.Update(data);
      assert g.ctx.message == data;
      digest := g.Final();
    }
  }

  /** However a message is cut into updates, the digest is that of the whole message. */
  method HashPieces(pieces: seq<seq<byte>>) returns (digest: seq<byte>)
    ensures digest == Md5(Concat(pieces))
  {
    hide Md5;
    var g := new Generator();
    var i := 0;
    while i < |pieces|
      invariant i <= |pieces|
      invariant fresh(g) && fresh(g.ctx) && fresh(g.ctx.buf) && fresh(g.ctx.input)
      invariant g.Valid() && !g.finalized && g.ctx.message == Concat(pieces[..i])
    {
      assert pieces[..i + 1][..i] == pieces[..i];
      g.Update(pieces[i]);
      i := i + 1;
    }
    assert pieces[..i] == pieces;
    digest := g.Final();
  }
}
