/**
  The streaming form of XXH3 (64-bit), which the damage refinery feeds one row of pixels
  at a time. The mixing primitives are parameters: everything here holds for any of them.
 */
module Xxh3 {
  import opened Common

  // Sizes, written out below as the numbers they are: a stripe has 64 bytes and uses up 8
  // bytes of secret, the internal buffer has 256 bytes, a secret has at least 136, the last
  // stripe is mixed 7 bytes before the end of the secret, inputs up to 240 bytes are "short".

  /**
    The primitives of the hash over accumulators `A` and digests `H`. A secret is known
    by its size; a primitive that reads the secret is given the offset it reads from.
   */
  datatype Primitives<!A, !H> = Primitives(
    secretSize: nat,
    initial: A,
    accumulate512: (A, seq<Byte>, int) -> A,
    scramble: (A, int) -> A,
    merge: (A, nat) -> H,
    short: seq<Byte> -> H)
  {
    ghost predicate Valid() { secretSize >= 136 }
    function SecretLimit(): int { secretSize - 64 }
    function StripesPerBlock(): int { SecretLimit() / 8 }
  }

  // ---------------------------------------------------------------- specification

  /** The accumulators and the number of stripes taken from the current block. */
  datatype Progress<A> = Progress(acc: A, soFar: nat)

  function Stripe(input: seq<Byte>, k: nat): (s: seq<Byte>)
    requires 64 * (k + 1) <= |input|
  {
    input[64 * k..64 * (k + 1)]
  }

  /** One stripe enters; a block that becomes full is scrambled at once. */
  function Step<A, H>(f: Primitives<A, H>, p: Progress<A>, stripe: seq<Byte>): Progress<A> {
    var acc := f.accumulate512(p.acc, stripe, 8 * p.soFar);
    if p.soFar + 1 == f.StripesPerBlock()
    then Progress(f.scramble(acc, f.SecretLimit()), 0)
    else Progress(acc, p.soFar + 1)
  }

  /** The first `n` stripes of `input` enter, one after the other. */
  function Steps<A, H>(f: Primitives<A, H>, p: Progress<A>, input: seq<Byte>, n: nat): Progress<A>
    requires 64 * n <= |input|
  {
    if n == 0 then p else Step(f, Steps(f, p, input, n - 1), Stripe(input, n - 1))
  }

  /**
    The reference: all stripes that end before the last byte enter in order, then the
    final 64 bytes, overlapping if need be, enter under their own part of the secret.
   */
  function Hash<A, H>(f: Primitives<A, H>, input: seq<Byte>): H {
    if |input| <= 240 then f.short(input) else f.merge(LongAcc(f, input), |input|)
  }

  function LongAcc<A, H>(f: Primitives<A, H>, input: seq<Byte>): A
    requires |input| > 240
  {
    f.accumulate512(
      Steps(f, Progress(f.initial, 0), input, (|input| - 1) / 64).acc, input[|input| - 64..], f.SecretLimit() - 7)
  }

  lemma {:induction false} StepsCompose<A, H>(
    f: Primitives<A, H>, p: Progress<A>, input: seq<Byte>, a: nat, b: nat)
    requires 64 * (a + b) <= |input|
    ensures Steps(f, p, input, a + b) == Steps(f, Steps(f, p, input, a), input[64 * a..], b)
  {
    if b == 0 {
    } else {
      StepsCompose(f, p, input, a, b - 1);
      assert Stripe(input[64 * a..], b - 1) == Stripe(input, a + b - 1);
    }
  }

  lemma {:induction false} StepsLocal<A, H>(
    f: Primitives<A, H>, p: Progress<A>, input: seq<Byte>, other: seq<Byte>, n: nat)
    requires 64 * n <= |input| && 64 * n <= |other|
    requires input[..64 * n] == other[..64 * n]
    ensures Steps(f, p, input, n) == Steps(f, p, other, n)
  {
    if n == 0 {
    } else {
      var m := 64 * (n - 1);
      assert input[..m] == input[..64 * n][..m];
      assert other[..m] == other[..64 * n][..m];
      StepsLocal(f, p, input, other, n - 1);
      assert Stripe(input, n - 1) == input[..64 * n][m..];
      assert Stripe(other, n - 1) == other[..64 * n][m..];
    }
  }

  // ---------------------------------------------------------------- accumulation loops

  /** `n` stripes enter at secret offset `8 * soFar` with no block boundary. */
  function Accumulated<A, H>(f: Primitives<A, H>, acc: A, soFar: nat, input: seq<Byte>, n: nat): A
    requires 64 * n <= |input|
  {
    if n == 0 then acc
    else f.accumulate512(Accumulated(f, acc, soFar, input, n - 1), Stripe(input, n - 1), 8 * (soFar + n - 1))
  }

  method Accumulate<A, H>(f: Primitives<A, H>, acc0: A, input: seq<Byte>, soFar: nat, nbStripes: nat) returns (acc: A)
    requires 64 * nbStripes <= |input|
    ensures acc == Accumulated(f, acc0, soFar, input, nbStripes)
  {
    acc := acc0;
    for n := 0 to nbStripes
      invariant acc == Accumulated(f, acc0, soFar, input, n)
    {
      acc := f.accumulate512(acc, Stripe(input, n), 8 * (soFar + n));
    }
  }

  lemma {:induction false} StepsWithinBlock<A, H>(f: Primitives<A, H>, p: Progress<A>, input: seq<Byte>, n: nat)
    requires 64 * n <= |input|
    requires p.soFar + n < f.StripesPerBlock()
    ensures Steps(f, p, input, n) == Progress(Accumulated(f, p.acc, p.soFar, input, n), p.soFar + n)
  {
    if n != 0 {
      StepsWithinBlock(f, p, input, n - 1);
    }
  }

  lemma StepsToBlockEnd<A, H>(f: Primitives<A, H>, p: Progress<A>, input: seq<Byte>, n: nat)
    requires 64 * n <= |input|
    requires 0 < n && p.soFar + n == f.StripesPerBlock()
    ensures Steps(f, p, input, n)
         == Progress(f.scramble(Accumulated(f, p.acc, p.soFar, input, n), f.SecretLimit()), 0)
  {
    StepsWithinBlock(f, p, input, n - 1);
  }

  /** `XXH3_consumeStripes`: whole blocks first, then a partial one. */
  method ConsumeStripes<A, H>(f: Primitives<A, H>, p: Progress<A>, input: seq<Byte>, nbStripes: nat)
    returns (q: Progress<A>)
    requires f.Valid() && p.soFar < f.StripesPerBlock()
    requires 64 * nbStripes <= |input|
    ensures q == Steps(f, p, input, nbStripes) && q.soFar < f.StripesPerBlock()
  {
    var acc, done := p.acc, 0;
    q := p;
    if nbStripes >= f.StripesPerBlock() - p.soFar {
      acc, done := ConsumeBlocks(f, p, input, nbStripes);
      q := Progress(acc, 0);
    }
    if nbStripes - done > 0 {
      var rest := input[64 * done..];
      StepsCompose(f, p, input, done, nbStripes - done);
      StepsWithinBlock(f, q, rest, nbStripes - done);
      acc := Accumulate(f, q.acc, rest, q.soFar, nbStripes - done);
      q := Progress(acc, q.soFar + (nbStripes - done));
    }
  }

  /** The open block is filled up, then whole blocks follow; each is scrambled. */
  method ConsumeBlocks<A, H>(f: Primitives<A, H>, p: Progress<A>, input: seq<Byte>, nbStripes: nat)
    returns (acc: A, done: nat)
    requires f.Valid() && p.soFar < f.StripesPerBlock() <= p.soFar + nbStripes
    requires 64 * nbStripes <= |input|
    ensures done <= nbStripes < done + f.StripesPerBlock()
    ensures Steps(f, p, input, done) == Progress(acc, 0)
  {
    var perBlock := f.StripesPerBlock();
    var soFar, thisIter := p.soFar, perBlock - p.soFar;
    acc, done := p.acc, 0;
    while nbStripes - done >= thisIter
      invariant 0 <= done <= nbStripes && 0 < thisIter && 0 <= soFar && soFar + thisIter == perBlock
      invariant done > 0 ==> soFar == 0
      invariant Steps(f, p, input, done) == Progress(acc, soFar)
      decreases nbStripes - done
    {
      var rest := input[64 * done..];
      StepsCompose(f, p, input, done, thisIter);
      StepsToBlockEnd(f, Progress(acc, soFar), rest, thisIter);
      acc := Accumulate(f, acc, rest, soFar, thisIter);
      acc := f.scramble(acc, f.SecretLimit());
      done := done + thisIter;
      thisIter := perBlock;
      soFar := 0;
    }
  }

  // ---------------------------------------------------------------- one-shot form

  lemma StripeCountByBlocks(len: nat, perBlock: nat, blocks: nat)
    requires perBlock > 0 && len > 0
    requires blocks == (len - 1) / (64 * perBlock)
    ensures 0 <= 64 * (blocks * perBlock) <= len - 1 < 64 * (blocks * perBlock + perBlock)
  {
    var b := 64 * perBlock;
    assert (len - 1) == b * blocks + (len - 1) % b;
    assert b * blocks == 64 * (blocks * perBlock);
  }

  /** The block loop of `XXH3_hashLong_internal_loop`; also counts the stripes it went through. */
  method AccumulateBlocks<A, H>(f: Primitives<A, H>, input: seq<Byte>, nbBlocks: nat) returns (acc: A, at: nat, ghost stripes: nat)
    requires f.Valid()
    requires 0 <= 64 * (nbBlocks * f.StripesPerBlock()) <= |input|
    ensures stripes == nbBlocks * f.StripesPerBlock()
    ensures at == 64 * (nbBlocks * f.StripesPerBlock())
    ensures at == 64 * stripes <= |input| && Steps(f, Progress(f.initial, 0), input, stripes) == Progress(acc, 0)
  {
    var perBlock := f.StripesPerBlock();
    acc := f.initial;
    at := 0;
    stripes := 0;
    for n := 0 to nbBlocks
      invariant stripes == n * perBlock && at == 64 * stripes <= |input|
      invariant Steps(f, Progress(f.initial, 0), input, stripes) == Progress(acc, 0)
    {
      MulMono(n + 1, nbBlocks, perBlock);
      StepsCompose(f, Progress(f.initial, 0), input, stripes, perBlock);
      StepsToBlockEnd(f, Progress(acc, 0), input[at..], perBlock);
      acc := Accumulate(f, acc, input[at..], 0, perBlock);
      acc := f.scramble(acc, f.SecretLimit());
      at := at + 64 * perBlock;
      stripes := stripes + perBlock;
    }
  }

  /** The last partial block and the last stripe, after `k` stripes in whole blocks. */
  method FinishLong<A, H>(f: Primitives<A, H>, input: seq<Byte>, acc0: A, at: nat, ghost k: nat) returns (h: H)
    requires f.Valid() && |input| > 240 && at == 64 * k
    requires 64 * k <= |input| - 1 < 64 * (k + f.StripesPerBlock())
    requires Steps(f, Progress(f.initial, 0), input, k) == Progress(acc0, 0)
    ensures h == Hash(f, input)
  {
    var len := |input|;
    var nbStripes := ((len - 1) - at) / 64;
    StepsCompose(f, Progress(f.initial, 0), input, k, nbStripes);
    StepsWithinBlock(f, Progress(acc0, 0), input[at..], nbStripes);
    var acc := Accumulate(f, acc0, input[at..], 0, nbStripes);
    acc := f.accumulate512(acc, input[len - 64..], f.SecretLimit() - 7);
    h := f.merge(acc, len);
  }

  /** `XXH3_hashLong_internal_loop` */
  method HashLong<A, H>(f: Primitives<A, H>, input: seq<Byte>) returns (h: H)
    requires f.Valid() && |input| > 240
    ensures h == Hash(f, input)
  {
    var nbBlocks := CountBlocks(|input|, f.StripesPerBlock());
    var acc, at;
    ghost var stripes;
    acc, at, stripes := AccumulateBlocks(f, input, nbBlocks);
    h := FinishLong(f, input, acc, at, stripes);
  }

  method CountBlocks(len: nat, perBlock: nat) returns (nbBlocks: nat)
    requires perBlock > 0 && len > 0
    ensures 0 <= 64 * (nbBlocks * perBlock) <= len - 1 < 64 * (nbBlocks * perBlock + perBlock)
  {
    nbBlocks := (len - 1) / (64 * perBlock);
    StripeCountByBlocks(len, perBlock, nbBlocks);
  }

  /** `XXH3_64bits_internal` */
  method OneShot<A, H>(f: Primitives<A, H>, input: seq<Byte>) returns (h: H)
    requires f.Valid()
    ensures h == Hash(f, input)
  {
    if |input| <= 240 {
      h := f.short(input);
    } else {
      h := HashLong(f, input);
    }
  }

  // ---------------------------------------------------------------- streaming form

  /**
    What a stream object holds after the bytes `seen`: the stripes already consumed,
    the bytes still buffered, and, past the buffered bytes, the tail of the last
    consumed stripe, which the digest needs when little is buffered.
   */
  ghost predicate Holds<A, H>(
    f: Primitives<A, H>, p: Progress<A>, buffer: seq<Byte>, buffered: nat, seen: seq<Byte>)
  {
    && |buffer| == 256
    && buffered <= 256 && buffered <= |seen|
    && (seen != [] ==> buffered > 0)
    && var consumed := |seen| - buffered;
    && consumed % 64 == 0
    && buffer[..buffered] == seen[consumed..]
    && p == Steps(f, Progress(f.initial, 0), seen, consumed / 64)
    && p.soFar < f.StripesPerBlock()
    && (consumed > 0 ==> |seen| > 256)
    && (consumed > 0 ==>
          forall i {:trigger buffer[i]} :: 192 <= i < 256 && buffered <= i ==>
            buffer[i] == seen[consumed - 256 + i])
  }

  /** The buffer after `bytes` were copied over it at offset `at`. */
  function Overwrite(buffer: seq<Byte>, at: nat, bytes: seq<Byte>): (r: seq<Byte>)
    requires at + |bytes| <= |buffer|
    ensures |r| == |buffer|
  {
    buffer[..at] + bytes + buffer[at + |bytes|..]
  }

  lemma SliceOfAppend(a: seq<Byte>, b: seq<Byte>, i: nat, j: nat)
    requires i <= j <= |b|
    ensures (a + b)[|a| + i..|a| + j] == b[i..j]
  {
  }

  class Stream<A, H> {
    const f: Primitives<A, H>
    var acc: A
    const buffer: array<Byte>
    var bufferedSize: nat
    var nbStripesSoFar: nat
    var totalLen: nat
    ghost var seen: seq<Byte>

    ghost predicate Valid()
      reads this, buffer
    {
      && f.Valid()
      && buffer.Length == 256
      && totalLen == |seen|
      && Holds(f, Progress(acc, nbStripesSoFar), buffer[..], bufferedSize, seen)
    }

    constructor (f: Primitives<A, H>)
      requires f.Valid()
      ensures Valid() && fresh(buffer) && seen == [] && this.f == f
    {
      this.f := f;
      acc := f.initial;
      buffer := new Byte[256](i => 0);
      bufferedSize, nbStripesSoFar, totalLen, seen := 0, 0, 0, [];
    }

    /** `XXH3_64bits_reset`: the buffer keeps its stale bytes. */
    method Reset()
      requires Valid()
      modifies this
      ensures Valid() && seen == []
    {
      acc := f.initial;
      bufferedSize, nbStripesSoFar, totalLen, seen := 0, 0, 0, [];
    }

    method CopyToBuffer(at: nat, bytes: seq<Byte>)
      requires at + |bytes| <= buffer.Length
      modifies buffer
      ensures buffer[..] == Overwrite(old(buffer[..]), at, bytes)
    {
      forall i | 0 <= i < |bytes| {
        buffer[at + i] := bytes[i];
      }
    }

    /** `XXH3_update` */
    method Update(input: seq<Byte>)
      requires Valid()
      modifies this, buffer
      ensures Valid() && seen == old(seen) + input
    {
      ghost var before := seen;
      var len := |input|;
      totalLen := totalLen + len;
      seen := seen + input;
      if len <= 256 - bufferedSize {
        AfterSmallInput(f, Progress(acc, nbStripesSoFar), buffer[..], bufferedSize, before, input);
        CopyToBuffer(bufferedSize, input);
        bufferedSize := bufferedSize + len;
        return;
      }
      UpdateLong(input, before);
    }

    /** The part of `XXH3_update` for input that does not fit the buffer. */
    method UpdateLong(input: seq<Byte>, ghost before: seq<Byte>)
      requires f.Valid() && buffer.Length == 256
      requires Holds(f, Progress(acc, nbStripesSoFar), buffer[..], bufferedSize, before)
      requires |input| > 256 - bufferedSize
      modifies this`acc, this`nbStripesSoFar, this`bufferedSize, buffer
      ensures Holds(f, Progress(acc, nbStripesSoFar), buffer[..], bufferedSize, before + input)
    {
      var p, at := DrainBuffer(input, before);
      if |input| - at > 256 {
        p, at := ConsumeBulk(input, p, at, before);
      }
      AfterRemainder(f, p, buffer[..], before, input, at);
      CopyToBuffer(0, input[at..]);
      bufferedSize := |input| - at;
      acc, nbStripesSoFar := p.acc, p.soFar;
    }

    /** A partly filled buffer is completed from the input, then consumed. */
    method DrainBuffer(input: seq<Byte>, ghost before: seq<Byte>) returns (p: Progress<A>, at: nat)
      requires f.Valid() && buffer.Length == 256
      requires Holds(f, Progress(acc, nbStripesSoFar), buffer[..], bufferedSize, before)
      requires |input| > 256 - bufferedSize
      modifies this`bufferedSize, buffer
      ensures bufferedSize == 0 && at < |input|
      ensures Drained(f, p, buffer[..], before, input, at)
    {
      p, at := Progress(acc, nbStripesSoFar), 0;
      if bufferedSize != 0 {
        at := 256 - bufferedSize;
        AfterBufferFull(f, p, buffer[..], bufferedSize, before, input, input[..at]);
        CopyToBuffer(bufferedSize, input[..at]);
        p := ConsumeStripes(f, p, buffer[..], 4);
        bufferedSize := 0;
      } else {
        AtStart(f, p, buffer[..], before, input);
      }
    }

    /** All stripes but those touching the last byte bypass the buffer; the last one is kept at its end. */
    method ConsumeBulk(input: seq<Byte>, p: Progress<A>, at: nat, ghost before: seq<Byte>)
      returns (q: Progress<A>, to: nat)
      requires f.Valid() && buffer.Length == 256
      requires Drained(f, p, buffer[..], before, input, at)
      requires |input| - at > 256
      modifies buffer
      ensures to < |input| <= to + 64
      ensures Drained(f, q, buffer[..], before, input, to)
    {
      var nbStripes := (|input| - 1 - at) / 64;
      AfterBulk(f, p, buffer[..], before, input, at, nbStripes);
      q := ConsumeStripes(f, p, input[at..], nbStripes);
      to := at + 64 * nbStripes;
      CopyToBuffer(192, input[to - 64..to]);
    }

    /** `XXH3_digest_long`: leaves the stream as it is, so more input may follow. */
    method DigestLong() returns (a: A)
      requires Valid() && |seen| > 240
      ensures a == LongAcc(f, seen)
    {
      var lastStripe;
      if bufferedSize >= 64 {
        a, lastStripe := FromBuffer();
      } else {
        a, lastStripe := FromTail();
      }
      a := f.accumulate512(a, lastStripe, f.SecretLimit() - 7);
    }

    method FromBuffer() returns (a: A, lastStripe: seq<Byte>)
      requires Valid() && |seen| > 240 && bufferedSize >= 64
      ensures a == Steps(f, Progress(f.initial, 0), seen, (|seen| - 1) / 64).acc && lastStripe == seen[|seen| - 64..]
    {
      LastStripeFromBuffer(f, Progress(acc, nbStripesSoFar), buffer[..], bufferedSize, seen);
      a := ConsumeBuffered();
      lastStripe := buffer[..][bufferedSize - 64..bufferedSize];
    }

    /** The last stripe began before the buffer did: its beginning is caught up from the buffer's tail. */
    method FromTail() returns (a: A, lastStripe: seq<Byte>)
      requires Valid() && |seen| > 240 && bufferedSize < 64
      ensures a == Steps(f, Progress(f.initial, 0), seen, (|seen| - 1) / 64).acc && lastStripe == seen[|seen| - 64..]
    {
      LastStripeFromTail(f, Progress(acc, nbStripesSoFar), buffer[..], bufferedSize, seen);
      a := acc;
      var catchupSize := 64 - bufferedSize;
      lastStripe := buffer[..][256 - catchupSize..] + buffer[..][..bufferedSize];
    }

    method ConsumeBuffered() returns (a: A)
      requires Valid() && bufferedSize >= 64
      ensures a == Steps(f, Progress(acc, nbStripesSoFar), buffer[..], (bufferedSize - 1) / 64).acc
    {
      var p := ConsumeStripes(f, Progress(acc, nbStripesSoFar), buffer[..], (bufferedSize - 1) / 64);
      a := p.acc;
    }

    /** `XXH3_64bits_digest` */
    method Digest() returns (h: H)
      requires Valid()
      ensures h == Hash(f, seen)
    {
      if totalLen > 240 {
        var a := DigestLong();
        h := f.merge(a, totalLen);
      } else {
        ShortInputIsBuffered(f, Progress(acc, nbStripesSoFar), buffer[..], bufferedSize, seen);
        h := f.short(buffer[..totalLen]);
        assert buffer[..][..totalLen] == buffer[..totalLen];
      }
    }
  }

  // ---- what each part of `Update` leaves behind

  lemma AfterSmallInput<A, H>(
    f: Primitives<A, H>, p: Progress<A>, buffer: seq<Byte>, buffered: nat, seen: seq<Byte>, input: seq<Byte>)
    requires Holds(f, p, buffer, buffered, seen)
    requires buffered + |input| <= 256
    ensures Holds(f, p, Overwrite(buffer, buffered, input), buffered + |input|, seen + input)
  {
    var consumed := |seen| - buffered;
    var after := seen + input;
    assert after[..consumed] == seen[..consumed];
    StepsLocal(f, Progress(f.initial, 0), seen, after, consumed / 64);
    var b := Overwrite(buffer, buffered, input);
    assert b[..buffered + |input|] == after[consumed..];
  }

  /** Everything before `input[at..]` has been consumed and the buffer ends with its last stripe. */
  ghost predicate Drained<A, H>(
    f: Primitives<A, H>, p: Progress<A>, buffer: seq<Byte>, seen: seq<Byte>, input: seq<Byte>, at: nat)
  {
    && |buffer| == 256 && at <= |input|
    && var after, consumed := seen + input, |seen| + at;
    && consumed % 64 == 0
    && p == Steps(f, Progress(f.initial, 0), after, consumed / 64)
    && p.soFar < f.StripesPerBlock()
    && (consumed > 0 ==> buffer[192..] == after[consumed - 64..consumed])
  }

  lemma AtStart<A, H>(f: Primitives<A, H>, p: Progress<A>, buffer: seq<Byte>, seen: seq<Byte>, input: seq<Byte>)
    requires Holds(f, p, buffer, 0, seen)
    ensures Drained(f, p, buffer, seen, input, 0)
  {
  }

  lemma AfterBufferFull<A, H>(
    f: Primitives<A, H>, p: Progress<A>, buffer: seq<Byte>, buffered: nat, seen: seq<Byte>,
    input: seq<Byte>, load: seq<Byte>)
    requires Holds(f, p, buffer, buffered, seen)
    requires 0 < buffered && |load| == 256 - buffered && load <= input
    ensures var full := Overwrite(buffer, buffered, load);
      Drained(f, Steps(f, p, full, 4), full, seen, input, |load|)
  {
    var full := Overwrite(buffer, buffered, load);
    var after, consumed := seen + input, |seen| - buffered;
    var k := consumed / 64;
    assert after[..consumed] == seen[..consumed];
    StepsLocal(f, Progress(f.initial, 0), seen, after, k);
    StepsCompose(f, Progress(f.initial, 0), after, k, 4);
    assert full == after[consumed..consumed + 256];
    assert after[consumed..][..256] == full == full[..256];
    StepsLocal(f, p, full, after[consumed..], 4);
    StepsBounded(f, p, full, 4);
    assert full[192..] == after[consumed + 192..consumed + 256];
  }

  lemma {:induction false} StepsBounded<A, H>(f: Primitives<A, H>, p: Progress<A>, input: seq<Byte>, n: nat)
    requires 64 * n <= |input| && p.soFar < f.StripesPerBlock()
    ensures Steps(f, p, input, n).soFar < f.StripesPerBlock()
  {
    if n != 0 {
      StepsBounded(f, p, input, n - 1);
    }
  }

  lemma BulkSteps<A, H>(
    f: Primitives<A, H>, p: Progress<A>, seen: seq<Byte>, input: seq<Byte>, at: nat, n: nat, k: nat)
    requires at + 64 * n <= |input| && |seen| + at == 64 * k
    requires p == Steps(f, Progress(f.initial, 0), seen + input, k) && p.soFar < f.StripesPerBlock()
    ensures Steps(f, p, input[at..], n) == Steps(f, Progress(f.initial, 0), seen + input, k + n)
    ensures Steps(f, p, input[at..], n).soFar < f.StripesPerBlock()
  {
    StepsCompose(f, Progress(f.initial, 0), seen + input, k, n);
    assert (seen + input)[64 * k..] == input[at..];
    StepsBounded(f, p, input[at..], n);
  }

  lemma DrainedAt<A, H>(
    f: Primitives<A, H>, p: Progress<A>, buffer: seq<Byte>, seen: seq<Byte>, input: seq<Byte>, at: nat, k: nat)
    requires |buffer| == 256 && at <= |input| && |seen| + at == 64 * k > 0
    requires p == Steps(f, Progress(f.initial, 0), seen + input, k) && p.soFar < f.StripesPerBlock()
    requires buffer[192..] == (seen + input)[|seen| + at - 64..|seen| + at]
    ensures Drained(f, p, buffer, seen, input, at)
  {
  }

  lemma AfterBulk<A, H>(
    f: Primitives<A, H>, p: Progress<A>, buffer: seq<Byte>, seen: seq<Byte>, input: seq<Byte>, at: nat, n: nat)
    requires Drained(f, p, buffer, seen, input, at)
    requires 0 < n && at + 64 * n <= |input|
    ensures var to := at + 64 * n;
      var b := Overwrite(buffer, 192, input[to - 64..to]);
      Drained(f, Steps(f, p, input[at..], n), b, seen, input, to)
  {
    var k := (|seen| + at) / 64;
    var to := at + 64 * n;
    var b := Overwrite(buffer, 192, input[to - 64..to]);
    BulkSteps(f, p, seen, input, at, n, k);
    SliceOfAppend(seen, input, to - 64, to);
    assert b[192..] == input[to - 64..to];
    DrainedAt(f, Steps(f, p, input[at..], n), b, seen, input, to, k + n);
  }

  lemma AfterRemainder<A, H>(
    f: Primitives<A, H>, p: Progress<A>, buffer: seq<Byte>, seen: seq<Byte>, input: seq<Byte>, at: nat)
    requires Drained(f, p, buffer, seen, input, at)
    requires at < |input| <= at + 256 && |seen| + |input| > 256
    ensures Holds(f, p, Overwrite(buffer, 0, input[at..]), |input| - at, seen + input)
  {
    var after, consumed := seen + input, |seen| + at;
    var b := Overwrite(buffer, 0, input[at..]);
    assert b[..|input| - at] == after[consumed..];
    if consumed > 0 {
      forall i | 192 <= i < 256 && |input| - at <= i
        ensures b[i] == after[consumed - 256 + i]
      {
        assert b[i] == buffer[i] == buffer[192..][i - (192)];
      }
    }
  }

  lemma LastStripeFromBuffer<A, H>(
    f: Primitives<A, H>, p: Progress<A>, buffer: seq<Byte>, buffered: nat, seen: seq<Byte>)
    requires Holds(f, p, buffer, buffered, seen)
    requires |seen| > 240 && buffered >= 64
    ensures Steps(f, p, buffer, (buffered - 1) / 64) == Steps(f, Progress(f.initial, 0), seen, (|seen| - 1) / 64)
    ensures buffer[buffered - 64..buffered] == seen[|seen| - 64..]
  {
    var consumed := |seen| - buffered;
    var k, n := consumed / 64, (buffered - 1) / 64;
    assert (|seen| - 1) / 64 == k + n;
    StepsCompose(f, Progress(f.initial, 0), seen, k, n);
    assert buffer[..64 * n] == buffer[..buffered][..64 * n];
    assert seen[64 * k..][..64 * n] == buffer[..buffered][..64 * n];
    StepsLocal(f, p, buffer, seen[64 * k..], n);
    assert buffer[buffered - 64..buffered] == buffer[..buffered][buffered - 64..];
  }

  lemma LastStripeFromTail<A, H>(
    f: Primitives<A, H>, p: Progress<A>, buffer: seq<Byte>, buffered: nat, seen: seq<Byte>)
    requires Holds(f, p, buffer, buffered, seen)
    requires |seen| > 240 && buffered < 64
    ensures p == Steps(f, Progress(f.initial, 0), seen, (|seen| - 1) / 64)
    ensures buffer[256 - (64 - buffered)..] + buffer[..buffered] == seen[|seen| - 64..]
  {
    var consumed := |seen| - buffered;
    assert (|seen| - 1) / 64 == consumed / 64;
    var catchup := 64 - buffered;
    var tail := buffer[256 - catchup..];
    forall i | 0 <= i < catchup
      ensures tail[i] == seen[|seen| - 64 + i]
    {
      assert tail[i] == buffer[256 - catchup + i];
    }
    assert tail == seen[|seen| - 64..consumed];
  }

  lemma ShortInputIsBuffered<A, H>(
    f: Primitives<A, H>, p: Progress<A>, buffer: seq<Byte>, buffered: nat, seen: seq<Byte>)
    requires Holds(f, p, buffer, buffered, seen) && |seen| <= 240
    ensures buffered == |seen| && buffer[..|seen|] == seen
  {
  }

  // ---------------------------------------------------------------- both forms agree

  /** However the input is cut into updates, the digest is that of the whole. */
  method StreamChunks<A, H>(f: Primitives<A, H>, chunks: seq<seq<Byte>>) returns (h: H)
    requires f.Valid()
    ensures h == Hash(f, Concat(chunks))
  {
    var s := new Stream(f);
    for i := 0 to |chunks|
      invariant s.Valid() && fresh(s) && fresh(s.buffer) && s.f == f
      invariant s.seen == Concat(chunks[..i])
    {
      assert chunks[..i + 1] == chunks[..i] + [chunks[i]];
      ConcatSnoc(chunks[..i], chunks[i]);
      s.Update(chunks[i]);
    }
    assert chunks[..|chunks|] == chunks;
    h := s.Digest();
  }

  method StreamedAndOneShot<A, H>(f: Primitives<A, H>, chunks: seq<seq<Byte>>) returns (streamed: H, oneShot: H)
    requires f.Valid()
    ensures streamed == oneShot
  {
    streamed := StreamChunks(f, chunks);
    oneShot := OneShot(f, Concat(chunks));
  }

  /** Two cuts of the same bytes give the same digest. */
  method StreamTwoCuts<A, H>(f: Primitives<A, H>, xs: seq<seq<Byte>>, ys: seq<seq<Byte>>) returns (hx: H, hy: H)
    requires f.Valid()
    requires Concat(xs) == Concat(ys)
    ensures hx == hy
  {
    hx := StreamChunks(f, xs);
    hy := StreamChunks(f, ys);
  }

  /** The scramble schedule: after `n` stripes the open block holds `n % perBlock` of them. */
  lemma {:induction false} ScrambleSchedule<A, H>(f: Primitives<A, H>, input: seq<Byte>, n: nat)
    requires f.Valid() && 64 * n <= |input|
    ensures Steps(f, Progress(f.initial, 0), input, n).soFar == n % f.StripesPerBlock()
  {
    if n != 0 {
      ScrambleSchedule(f, input, n - 1);
      NextRemainder(n - 1, f.StripesPerBlock());
    }
  }

  lemma {:induction false} NextRemainder(n: nat, m: nat)
    requires m > 1
    ensures (n + 1) % m == if n % m + 1 == m then 0 else n % m + 1
  {
    var q, r := n / m, n % m;
    assert n == q * m + r;
    if r + 1 == m {
      assert n + 1 == (q + 1) * m;
      DivModUnique(n + 1, m, q + 1, 0);
    } else {
      DivModUnique(n + 1, m, q, r + 1);
    }
  }
}
