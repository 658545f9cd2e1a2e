/**
  What a hash of XXH3 feeds to its mixing primitives, written down without reference to the
  way it is computed: which bytes, under which part of the secret, and where the scrambles fall.
 */
module Xxh3Schedule {
  import opened Common
  import opened Xxh3

  /** One use of a primitive: 64 bytes mixed in, or a scramble, with the offset into the secret. */
  datatype Use = Mixed(bytes: seq<Byte>, offset: int) | Scrambled(offset: int)

  /**
    The first `n` stripes: stripe `k` goes in at 8 bytes of secret per stripe of its block,
    and a scramble with the last 64 bytes of secret follows each full block.
   */
  function Uses(secretSize: nat, input: seq<Byte>, n: nat): seq<Use>
    requires secretSize >= 136 && 64 * n <= |input|
  {
    if n == 0 then []
    else
      var k := n - 1;
      Uses(secretSize, input, k)
      + [Mixed(input[64 * k..64 * k + 64], 8 * (k % ((secretSize - 64) / 8)))]
      + if n % ((secretSize - 64) / 8) == 0 then [Scrambled(secretSize - 64)] else []
  }

  /** All stripes that end before the last byte, then the last 64 bytes of the input. */
  function AllUses(secretSize: nat, input: seq<Byte>): seq<Use>
    requires secretSize >= 136 && |input| > 240
  {
    Uses(secretSize, input, (|input| - 1) / 64) + [Mixed(input[|input| - 64..], secretSize - 71)]
  }

  /** The accumulators after the primitives were used like that. */
  function Replay<A, H>(f: Primitives<A, H>, us: seq<Use>): A {
    if us == [] then f.initial
    else
      var acc := Replay(f, us[..|us| - 1]);
      match us[|us| - 1]
      case Mixed(bytes, offset) => f.accumulate512(acc, bytes, offset)
      case Scrambled(offset) => f.scramble(acc, offset)
  }

  lemma {:induction false} ReplaySnoc<A, H>(f: Primitives<A, H>, us: seq<Use>, u: Use)
    ensures Replay(f, us + [u]) == match u
      case Mixed(bytes, offset) => f.accumulate512(Replay(f, us), bytes, offset)
      case Scrambled(offset) => f.scramble(Replay(f, us), offset)
  {
    assert (us + [u])[..|us|] == us;
  }

  /** One more stripe, where `soFar` stripes of its block came before. */
  lemma {:induction false} StepReplays<A, H>(
    f: Primitives<A, H>, p: Progress<A>, us: seq<Use>, stripe: seq<Byte>, k: nat, perBlock: nat)
    requires perBlock == f.StripesPerBlock() > 1 && p.acc == Replay(f, us) && p.soFar == k % perBlock
    ensures Step(f, p, stripe).acc == Replay(f,
      us + [Mixed(stripe, 8 * (k % perBlock))] + if (k + 1) % perBlock == 0 then [Scrambled(f.secretSize - 64)] else [])
  {
    NextRemainder(k, perBlock);
    ReplaySnoc(f, us, Mixed(stripe, 8 * (k % perBlock)));
    if (k + 1) % perBlock == 0 {
      ReplaySnoc(f, us + [Mixed(stripe, 8 * (k % perBlock))], Scrambled(f.secretSize - 64));
    } else {
      assert us + [Mixed(stripe, 8 * (k % perBlock))] + [] == us + [Mixed(stripe, 8 * (k % perBlock))];
    }
  }

  lemma {:induction false} StepsReplay<A, H>(f: Primitives<A, H>, input: seq<Byte>, n: nat)
    requires f.Valid() && 64 * n <= |input|
    ensures Steps(f, Progress(f.initial, 0), input, n).acc == Replay(f, Uses(f.secretSize, input, n))
  {
    if n != 0 {
      var k := n - 1;
      StepsReplay(f, input, k);
      ScrambleSchedule(f, input, k);
      var p := Steps(f, Progress(f.initial, 0), input, k);
      StepReplays(f, p, Uses(f.secretSize, input, k), Stripe(input, k), k, f.StripesPerBlock());
    }
  }

  /** The hash of any input, for any primitives: the schedule played on them. */
  lemma {:induction false} HashPlaysTheSchedule<A, H>(f: Primitives<A, H>, input: seq<Byte>)
    requires f.Valid()
    ensures Hash(f, input)
      == if |input| <= 240 then f.short(input) else f.merge(Replay(f, AllUses(f.secretSize, input)), |input|)
  {
    if |input| > 240 {
      StepsReplay(f, input, (|input| - 1) / 64);
      ReplaySnoc(f, Uses(f.secretSize, input, (|input| - 1) / 64), Mixed(input[|input| - 64..], f.secretSize - 71));
    }
  }

  // ---------------------------------------------------------------- the schedule, read by position

  lemma {:induction false} UsesLength(secretSize: nat, input: seq<Byte>, n: nat)
    requires secretSize >= 136 && 64 * n <= |input|
    ensures |Uses(secretSize, input, n)| == n + n / ((secretSize - 64) / 8)
  {
    if n != 0 {
      UsesLength(secretSize, input, n - 1);
      NextQuotient(n - 1, (secretSize - 64) / 8);
    }
  }

  lemma NextQuotient(n: nat, m: nat)
    requires m > 1
    ensures (n + 1) / m == n / m + if (n + 1) % m == 0 then 1 else 0
  {
    var q, r := n / m, n % m;
    assert n == q * m + r;
    if r + 1 == m {
      assert n + 1 == (q + 1) * m + 0;
      DivModUnique(n + 1, m, q + 1, 0);
    } else {
      DivModUnique(n + 1, m, q, r + 1);
    }
  }

  /** Stripe `k` comes after `k` stripes and the scrambles of the blocks these filled. */
  lemma {:induction false} StripeAt(secretSize: nat, input: seq<Byte>, n: nat, k: nat)
    requires secretSize >= 136 && 64 * n <= |input| && k < n
    ensures var perBlock := (secretSize - 64) / 8; var us := Uses(secretSize, input, n);
      && k + k / perBlock < |us|
      && us[k + k / perBlock] == Mixed(input[64 * k..64 * k + 64], 8 * (k % perBlock))
      && ((k + 1) % perBlock == 0 ==> k + k / perBlock + 1 < |us| && us[k + k / perBlock + 1] == Scrambled(secretSize - 64))
  {
    var perBlock := (secretSize - 64) / 8;
    UsesLength(secretSize, input, n - 1);
    if k < n - 1 {
      StripeAt(secretSize, input, n - 1, k);
    }
  }

  // ---------------------------------------------------------------- primitives that record

  datatype Recorded = Long(uses: seq<Use>, length: nat) | Short(bytes: seq<Byte>)

  function Recorder(secretSize: nat): Primitives<seq<Use>, Recorded> {
    Primitives(
      secretSize, [],
      (us: seq<Use>, bytes: seq<Byte>, offset: int) => us + [Mixed(bytes, offset)],
      (us: seq<Use>, offset: int) => us + [Scrambled(offset)],
      (us: seq<Use>, length: nat) => Long(us, length),
      (bytes: seq<Byte>) => Short(bytes))
  }

  lemma {:induction false} RecorderReplays(secretSize: nat, us: seq<Use>)
    ensures Replay(Recorder(secretSize), us) == us
  {
    if us != [] {
      var front := us[..|us| - 1];
      RecorderReplays(secretSize, front);
      assert front + [us[|us| - 1]] == us;
    }
  }

  /** Recording primitives write down the schedule, and nothing else. */
  lemma {:induction false} RecorderSeesTheSchedule(secretSize: nat, input: seq<Byte>)
    requires secretSize >= 136
    ensures Hash(Recorder(secretSize), input)
      == if |input| <= 240 then Short(input) else Long(AllUses(secretSize, input), |input|)
  {
    HashPlaysTheSchedule(Recorder(secretSize), input);
    if |input| > 240 {
      RecorderReplays(secretSize, AllUses(secretSize, input));
    }
  }

  /** What the streaming code does to the primitives, whatever the cut of the input. */
  method RecordStream(secretSize: nat, chunks: seq<seq<Byte>>) returns (r: Recorded)
    requires secretSize >= 136
    ensures var input := Concat(chunks);
      r == if |input| <= 240 then Short(input) else Long(AllUses(secretSize, input), |input|)
  {
    RecorderSeesTheSchedule(secretSize, Concat(chunks));
    r := StreamChunks(Recorder(secretSize), chunks);
  }
}
