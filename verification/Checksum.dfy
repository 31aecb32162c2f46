/**
 * The Internet checksum (RFC 1071) in its two versions: `compute_checksum` of the server, with a
 * 64-bit accumulator and a loop that folds it, and `calculate_checksum` of the client, with a signed
 * 32-bit accumulator and two fixed folding steps. Words are 16 bits, low byte first.
 */
module InternetChecksum {
  import opened Arith
  import opened Limits

  type Byte = x: int | 0 <= x < 256

  function Word(low: Byte, high: Byte): nat {
    low as nat + 256 * high as nat
  }

  /** The sum of the words of a buffer; an odd last byte counts as a word with a zero high byte. */
  function WordSum(b: seq<Byte>): nat
    decreases |b|
  {
    if |b| == 0 then 0
    else if |b| == 1 then b[0]
    else Word(b[0], b[1]) + WordSum(b[2..])
  }

  /** The representative of `x` modulo 65535 in 1..65535, and 0 for 0 itself. */
  function Canon(x: nat): (r: nat)
    ensures r <= 65535
  {
    if x == 0 then 0 else 1 + (x - 1) % 65535
  }

  /** The checksum of a buffer: the ones' complement of its ones' complement sum. */
  function Checksum(b: seq<Byte>): (c: nat)
    ensures c <= 65535
  {
    65535 - Canon(WordSum(b))
  }

  lemma CanonUnique(x: nat, r: nat, q: int)
    requires x > 0 && 0 < r <= 65535 && x == r + 65535 * q
    ensures Canon(x) == r
  {
    DivModUnique(x - 1, 65535, q, r - 1);
  }

  lemma CanonSplit(x: nat) returns (q: nat)
    ensures x == Canon(x) + 65535 * q && (Canon(x) == 0 <==> x == 0)
  {
    q := if x == 0 then 0 else (x - 1) / 65535;
  }

  /** Adding a multiple of 65535 to a positive sum does not change its fold. */
  lemma CanonShift(x: nat, q: nat)
    requires x > 0
    ensures Canon(x + 65535 * q) == Canon(x)
  {
    var p := CanonSplit(x);
    CanonUnique(x + 65535 * q, Canon(x), p + q);
  }

  // ----- The 64-bit version -----

  /** What `compute_checksum` returns, its accumulator wrapping around at 2^64. */
  function LongResult(b: seq<Byte>): nat {
    65535 - Canon(WordSum(b) % ULONG_RANGE)
  }

  lemma WrapStep(sum: nat, word: nat, rest: nat)
    ensures ((sum + word) % ULONG_RANGE + rest) % ULONG_RANGE == (sum + (word + rest)) % ULONG_RANGE
  {
    var m := ULONG_RANGE;
    AddMultiple((sum + word) % m + rest, (sum + word) / m, m);
  }

  method ComputeChecksum(buffer: array<Byte>, length: nat) returns (answer: nat)
    requires length <= buffer.Length
    ensures answer == LongResult(buffer[..length])
  {
    var sum: nat, left, i := 0, length, 0;
    ghost var all := buffer[..length];
    while left > 1
      invariant i + left == length && sum < ULONG_RANGE
      invariant (sum + WordSum(all[i..])) % ULONG_RANGE == WordSum(all) % ULONG_RANGE
      decreases left
    {
      assert all[i..][2..] == all[i + 2..] && all[i..][0] == buffer[i] && all[i..][1] == buffer[i + 1];
      WrapStep(sum, Word(buffer[i], buffer[i + 1]), WordSum(all[i + 2..]));
      sum := (sum + Word(buffer[i], buffer[i + 1])) % ULONG_RANGE;
      i, left := i + 2, left - 2;
    }
    if left > 0 {
      assert all[i..] == [buffer[i]];
      sum := (sum + buffer[i] as nat) % ULONG_RANGE;
    }
    assert sum == WordSum(all) % ULONG_RANGE;
    answer := FoldAndComplement(sum);
  }

  /** The tail of `compute_checksum`: fold the carries until none is left, then complement. */
  method FoldAndComplement(total: nat) returns (answer: nat)
    requires total < ULONG_RANGE
    ensures answer == 65535 - Canon(total)
  {
    var sum := total;
    while sum / 65536 != 0
      invariant Canon(sum) == Canon(total)
      decreases sum
    {
      FoldStep(sum);
      sum := sum % 65536 + sum / 65536;
    }
    answer := Complement(sum);
    if sum > 0 { CanonUnique(sum, sum, 0); }
  }

  /** The cast of the complement to `unsigned short`. */
  function Complement(sum: nat): (c: nat)
    ensures c == 65535 - sum % 65536
  {
    (-1 - sum) % 65536
  }

  /** Folding the carries back in keeps the value modulo 65535, and 0 apart from 65535. */
  lemma FoldStep(sum: nat)
    ensures Canon(sum % 65536 + sum / 65536) == Canon(sum)
    ensures sum >= 65536 ==> 0 < sum % 65536 + sum / 65536 < sum
  {
    var x := sum % 65536 + sum / 65536;
    assert sum == x + 65535 * (sum / 65536);
    if x > 0 {
      CanonShift(x, sum / 65536);
    }
  }

  // ----- The 32-bit version -----

  /** The C `int` accumulator either holds the sum or leaves its range, where C defines nothing. */
  datatype Outcome = Answer(value: nat) | Overflow

  function IntResult(b: seq<Byte>): Outcome {
    if WordSum(b) > INT_MAX then Overflow else Answer(65535 - Canon(WordSum(b)))
  }

  method CalculateChecksum(paddress: array<Byte>, len: int) returns (r: Outcome)
    requires len <= paddress.Length
    ensures len >= 0 ==> r == IntResult(paddress[..len])
    ensures len < 0 ==> r == Answer(65535)
  {
    var nleft, sum: nat, w := len, 0, 0;
    ghost var all := paddress[..if len < 0 then 0 else len];
    while nleft > 1
      invariant nleft <= len && 0 <= sum <= INT_MAX
      invariant len >= 0 ==> nleft >= 0 && w == len - nleft && sum + WordSum(all[w..]) == WordSum(all)
      invariant len < 0 ==> nleft == len && sum == 0
      decreases nleft
    {
      assert all[w..][2..] == all[w + 2..] && all[w..][0] == paddress[w] && all[w..][1] == paddress[w + 1];
      if sum + Word(paddress[w], paddress[w + 1]) > INT_MAX {
        return Overflow;
      }
      sum := sum + Word(paddress[w], paddress[w + 1]);
      w, nleft := w + 2, nleft - 2;
    }
    if nleft == 1 {
      assert all[w..] == [paddress[w]];
      if sum + paddress[w] as nat > INT_MAX {
        return Overflow;
      }
      sum := sum + paddress[w] as nat;
    }
    assert sum == WordSum(all);
    hide WordSum, Canon;
    TwoStepFold(sum);
    sum := sum / 65536 + sum % 65536;
    sum := sum + sum / 65536;
    return Answer(Complement(sum));
  }

  /** In the range of `int` two steps fold as well as the loop does. */
  lemma TwoStepFold(sum: nat)
    requires sum <= INT_MAX
    ensures var t := sum / 65536 + sum % 65536; (t + t / 65536) % 65536 == Canon(sum)
  {
    var t := sum / 65536 + sum % 65536;
    FoldStep(sum);
    if t >= 65536 {
      CanonUnique(t, t - 65535, 1);
    } else if t > 0 {
      CanonUnique(t, t, 0);
    }
  }

  // ----- What the definitions come to -----

  /** Words add up, an odd last byte counting as a word of its own. */
  lemma {:induction false} SumsAdd(a: seq<Byte>, b: seq<Byte>)
    ensures WordSum([]) == 0
    ensures forall x: Byte :: WordSum([x]) == x
    ensures forall x: Byte, y: Byte :: WordSum([x, y]) == x + 256 * y
    ensures |a| % 2 == 0 ==> WordSum(a + b) == WordSum(a) + WordSum(b)
    decreases |a|
  {
    forall x: Byte, y: Byte
      ensures WordSum([x, y]) == x + 256 * y
    {
      assert [x, y][2..] == [];
    }
    if |a| % 2 == 0 {
      if a == [] {
        assert a + b == b;
      } else {
        SumsAdd(a[2..], b);
        assert (a + b)[2..] == a[2..] + b && (a + b)[0] == a[0] && (a + b)[1] == a[1];
      }
    }
  }

  /**
   * The complement of the checksum is the ones' complement sum of the words: that of one word is the word,
   * and a carry out of 16 bits is added at the bottom (RFC 1071, section 1).
   */
  lemma OnesComplement(a: seq<Byte>, b: seq<Byte>)
    requires |a| % 2 == 0
    ensures Checksum([]) == 65535
    ensures forall x: Byte :: Checksum([x]) == 65535 - x
    ensures forall x: Byte, y: Byte :: Checksum([x, y]) == 65535 - x - 256 * y
    ensures var sum := (65535 - Checksum(a)) + (65535 - Checksum(b));
            65535 - Checksum(a + b) == if sum > 65535 then sum - 65535 else sum
  {
    SumsAdd(a, b);
    forall x: Byte, y: Byte
      ensures Checksum([x, y]) == 65535 - x - 256 * y
    {
      assert WordSum([x, y]) == x + 256 * y;
      if x + 256 * y > 0 { CanonUnique(x + 256 * y, x + 256 * y, 0); }
    }
    var p := CanonSplit(WordSum(a));
    var q := CanonSplit(WordSum(b));
    var sum := Canon(WordSum(a)) + Canon(WordSum(b));
    if sum > 65535 {
      CanonUnique(WordSum(a + b), sum - 65535, p + q + 1);
    } else if sum > 0 {
      CanonUnique(WordSum(a + b), sum, p + q);
    }
  }

}
