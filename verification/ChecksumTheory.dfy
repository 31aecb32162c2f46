/** What the checksum means: arithmetic modulo 65535, its range, framing, and concatenation. */
module ChecksumTheory {
  import opened Arith
  import opened InternetChecksum
  import opened Limits

  // ----- The buffer as one number -----

  /** The buffer read as a base-256 number, lowest digit first. */
  function Number(b: seq<Byte>): nat {
    if b == [] then 0 else b[0] as nat + 256 * Number(b[1..])
  }

  lemma {:induction false} NumberModulo(b: seq<Byte>) returns (q: nat)
    ensures Number(b) == WordSum(b) + 65535 * q
    ensures WordSum(b) == 0 ==> Number(b) == 0
    decreases |b|
  {
    if |b| < 2 {
      q := 0;
    } else {
      var p := NumberModulo(b[2..]);
      assert b[1..][1..] == b[2..];
      q := p + Number(b[2..]);
    }
  }

  /**
   * The checksum is the buffer, as a number with its first byte lowest, modulo 65535, taken from 65535: what is
   * subtracted is in 1..65535, and 0 only for the number 0.
   */
  lemma FoldIsModulo(b: seq<Byte>)
    ensures Number([]) == 0 && (b != [] ==> Number(b) == b[0] as nat + 256 * Number(b[1..]))
    ensures Checksum(b) == 65535 <==> Number(b) == 0
    ensures Number(b) > 0 ==> Checksum(b) < 65535 && (65535 - Checksum(b)) % 65535 == Number(b) % 65535
  {
    hide Checksum;
    CanonOfNumber(b);
    CanonModulo(Number(b));
  }

  lemma CanonModulo(x: nat)
    ensures Canon(x) == 0 <==> x == 0
    ensures Canon(x) % 65535 == x % 65535
  {
    var q := CanonSplit(x);
    AddMultiple(Canon(x), q, 65535);
  }

  lemma CanonOfNumber(b: seq<Byte>)
    ensures Checksum(b) == 65535 - Canon(Number(b))
  {
    var q := NumberModulo(b);
    if WordSum(b) > 0 {
      CanonShift(WordSum(b), q);
    }
  }

  lemma {:induction false} NumberZero(b: seq<Byte>)
    ensures Number(b) == 0 <==> forall i :: 0 <= i < |b| ==> b[i] == 0
    decreases |b|
  {
    if b != [] {
      NumberZero(b[1..]);
      assert forall i :: 0 < i < |b| ==> b[i] == b[1..][i - 1];
    }
  }

  /** All-zero data, and only that, has the checksum 65535. */
  lemma AllOnesOnlyForZeros(b: seq<Byte>)
    ensures Checksum(b) == 65535 <==> forall i :: 0 <= i < |b| ==> b[i] == 0
  {
    CanonOfNumber(b);
    NumberZero(b);
  }

  // ----- Order of the words -----

  /** The words of a buffer, an odd last byte with a zero high byte. */
  function Words(b: seq<Byte>): (w: seq<nat>)
    ensures |w| == (|b| + 1) / 2
    ensures forall i :: 0 <= i < |b| / 2 ==> w[i] == b[2 * i] as nat + 256 * b[2 * i + 1] as nat
    ensures |b| % 2 == 1 ==> w[|b| / 2] == b[|b| - 1] as nat
  {
    seq((|b| + 1) / 2, i requires 0 <= i < (|b| + 1) / 2 => if 2 * i + 1 < |b| then Word(b[2 * i], b[2 * i + 1])
                                                             else b[2 * i])
  }

  function Sum(s: seq<nat>): nat {
    if s == [] then 0 else s[0] + Sum(s[1..])
  }

  lemma {:induction false} SumOfWords(b: seq<Byte>)
    ensures WordSum(b) == Sum(Words(b))
    decreases |b|
  {
    if |b| >= 2 {
      SumOfWords(b[2..]);
      assert Words(b)[1..] == Words(b[2..]);
    }
  }

  lemma {:induction false} SumWithout(s: seq<nat>, j: nat)
    requires j < |s|
    ensures Sum(s) == s[j] + Sum(s[..j] + s[j + 1..])
  {
    if j == 0 {
      assert s[..0] + s[1..] == s[1..];
    } else {
      SumWithout(s[1..], j - 1);
      assert (s[..j] + s[j + 1..])[1..] == s[1..][..j - 1] + s[1..][j..];
    }
  }

  lemma MultisetWithout(s: seq<nat>, j: nat)
    requires j < |s|
    ensures multiset(s[..j] + s[j + 1..]) == multiset(s) - multiset{s[j]}
  {
    assert s == s[..j] + [s[j]] + s[j + 1..];
  }

  lemma {:induction false} SumPermutes(s: seq<nat>, t: seq<nat>)
    requires multiset(s) == multiset(t)
    ensures Sum(s) == Sum(t)
    decreases |s|
  {
    if s == [] {
      assert |multiset(t)| == 0;
    } else {
      var j := OccursIn(s, t);
      var u := t[..j] + t[j + 1..];
      MultisetWithout(t, j);
      SumWithout(t, j);
      SumPermutes(s[1..], u);
    }
  }

  lemma OccursIn(s: seq<nat>, t: seq<nat>) returns (j: nat)
    requires s != [] && multiset(s) == multiset(t)
    ensures j < |t| && t[j] == s[0] && multiset(s[1..]) == multiset(t) - multiset{t[j]}
  {
    assert s[0] in multiset(t);
    j :| j < |t| && t[j] == s[0];
    assert s == [s[0]] + s[1..];
  }

  /** The order of the 16-bit words does not matter. */
  lemma OrderOfWords(a: seq<Byte>, b: seq<Byte>)
    requires multiset(Words(a)) == multiset(Words(b))
    ensures Checksum(a) == Checksum(b)
  {
    SumOfWords(a);
    SumOfWords(b);
    SumPermutes(Words(a), Words(b));
  }

  // ----- Order of the bytes in a word -----

  function SwapBytes(b: seq<Byte>): (r: seq<Byte>)
    requires |b| % 2 == 0
    ensures |r| == |b|
    ensures forall i :: 0 <= i < |b| / 2 ==> r[2 * i] == b[2 * i + 1] && r[2 * i + 1] == b[2 * i]
  {
    seq(|b|, k requires 0 <= k < |b| => if k % 2 == 0 then b[k + 1] else b[k - 1])
  }

  function SwapWord(w: nat): nat
    requires w <= 65535
  {
    w % 256 * 256 + w / 256
  }

  lemma {:induction false} SwapSum(b: seq<Byte>) returns (q: nat)
    requires |b| % 2 == 0
    ensures 256 * WordSum(b) == WordSum(SwapBytes(b)) + 65535 * q
    ensures WordSum(SwapBytes(b)) == 0 <==> WordSum(b) == 0
    decreases |b|
  {
    if b == [] {
      q := 0;
    } else {
      var p := SwapSum(b[2..]);
      assert SwapBytes(b)[2..] == SwapBytes(b[2..]);
      q := p + b[1] as nat;
    }
  }

  lemma SwapFold(x: nat)
    ensures Canon(256 * x) == SwapWord(Canon(x))
  {
    var q := CanonSplit(x);
    var c := Canon(x);
    if x > 0 {
      assert 256 * x == SwapWord(c) + 65535 * (c / 256 + 256 * q);
      CanonUnique(256 * x, SwapWord(c), c / 256 + 256 * q);
    }
  }

  /** Computing on byte-swapped words gives the byte-swapped checksum. */
  lemma ByteOrderIndependence(b: seq<Byte>, swapped: seq<Byte>)
    requires |b| % 2 == 0 && |swapped| == |b|
    requires forall i :: 0 <= i < |b| / 2 ==> swapped[2 * i] == b[2 * i + 1] && swapped[2 * i + 1] == b[2 * i]
    ensures Checksum(swapped) % 256 == Checksum(b) / 256 && Checksum(swapped) / 256 == Checksum(b) % 256
  {
    forall k | 0 <= k < |b|
      ensures swapped[k] == SwapBytes(b)[k]
    {
      if k % 2 == 0 {
        assert swapped[2 * (k / 2)] == b[2 * (k / 2) + 1];
      } else {
        assert swapped[2 * (k / 2) + 1] == b[2 * (k / 2)];
      }
    }
    assert swapped == SwapBytes(b);
    SwappedChecksum(b);
  }

  lemma SwappedChecksum(b: seq<Byte>)
    requires |b| % 2 == 0
    ensures Checksum(SwapBytes(b)) == SwapWord(Checksum(b))
  {
    hide WordSum, SwapBytes, Canon, SwapWord;
    var q := SwapSum(b);
    SwapFold(WordSum(b));
    if WordSum(b) > 0 {
      CanonShift(WordSum(SwapBytes(b)), q);
    }
    SwapComplement(Canon(WordSum(b)));
  }

  lemma SwapComplement(c: nat)
    requires c <= 65535
    ensures SwapWord(65535 - c) == 65535 - SwapWord(c)
  {
    DivModUnique(65535 - c, 256, 255 - c / 256, 255 - c % 256);
  }

  // ----- The range of the accumulators -----

  /** The greatest word sum of a buffer of length `n`. */
  function MaxSum(n: nat): nat {
    65535 * (n / 2) + 255 * (n % 2)
  }

  function Full(n: nat): (b: seq<Byte>)
    ensures |b| == n
  {
    seq(n, _ => 255)
  }

  lemma {:induction false} SumIsBounded(b: seq<Byte>)
    ensures WordSum(b) <= MaxSum(|b|)
    decreases |b|
  {
    if |b| >= 2 { SumIsBounded(b[2..]); }
  }

  lemma {:induction false} FullIsMaximal(n: nat)
    ensures WordSum(Full(n)) == MaxSum(n)
  {
    if n >= 2 {
      FullIsMaximal(n - 2);
      assert Full(n)[2..] == Full(n - 2);
    }
  }

  ghost predicate AllSumsWithin(n: nat, limit: nat) {
    forall b: seq<Byte> :: |b| == n ==> WordSum(b) <= limit
  }

  lemma SumsWithin(n: nat, limit: nat)
    ensures AllSumsWithin(n, limit) <==> MaxSum(n) <= limit
  {
    FullIsMaximal(n);
    if MaxSum(n) <= limit {
      forall b: seq<Byte> | |b| == n
        ensures WordSum(b) <= limit
      {
        SumIsBounded(b);
      }
    } else {
      assert |Full(n)| == n && WordSum(Full(n)) > limit;
    }
  }

  /** The two versions give the same checksum for every buffer of length `n` if and only if `n <= 65537`. */
  lemma VersionsAgree(n: nat)
    ensures (forall b: seq<Byte> :: |b| == n ==> IntResult(b) == Answer(LongResult(b))) <==> n <= 65537
  {
    SumsWithin(n, INT_MAX);
    FullIsMaximal(n);
    if n <= 65537 {
      forall b: seq<Byte> | |b| == n
        ensures IntResult(b) == Answer(LongResult(b))
      {
        assert WordSum(b) <= INT_MAX;
      }
    } else {
      assert IntResult(Full(n)) == Overflow;
    }
  }

  /** The 64-bit accumulator never wraps exactly up to this length, far beyond any memory. */
  lemma LongNeverWraps(n: nat)
    ensures (forall b: seq<Byte> :: |b| == n ==> WordSum(b) < 0x1_0000_0000_0000_0000) <==> n <= 562958543486978
  {
    FullIsMaximal(n);
    if n <= 562958543486978 {
      forall b: seq<Byte> | |b| == n
        ensures WordSum(b) < ULONG_RANGE
      {
        SumIsBounded(b);
      }
    } else {
      assert |Full(n)| == n && WordSum(Full(n)) >= ULONG_RANGE;
    }
  }

  /** Up to that length the 64-bit version returns the checksum. */
  lemma LongIsChecksum(b: seq<Byte>)
    requires |b| <= 562958543486978
    ensures LongResult(b) == Checksum(b)
  {
    LongNeverWraps(|b|);
  }

  /** The test data of the client: `n` times the letter A. */
  function Letters(n: nat): (b: seq<Byte>)
    ensures |b| == n && forall i :: 0 <= i < n ==> b[i] == 65
  {
    seq(n, _ => 65)
  }

  lemma {:induction false} LettersSum(n: nat)
    ensures WordSum(Letters(n)) == 16705 * (n / 2) + 65 * (n % 2)
  {
    if n >= 2 {
      LettersSum(n - 2);
      assert Letters(n)[2..] == Letters(n - 2);
    }
  }

  /** On the client's test data the 32-bit accumulator overflows exactly from length 257108 on, far below its 100 MB. */
  lemma TestDataOverflows(letters: seq<Byte>)
    requires forall i :: 0 <= i < |letters| ==> letters[i] == 65
    ensures IntResult(letters) == Overflow <==> |letters| >= 257108
  {
    assert letters == Letters(|letters|);
    LettersSum(|letters|);
  }

  // ----- Framing: data followed by its checksum -----

  function LowHigh(w: nat): seq<Byte>
    requires w <= 65535
  {
    [w % 256, w / 256]
  }

  lemma {:induction false} AppendWord(b: seq<Byte>, w: nat)
    requires w <= 65535
    ensures WordSum(b + LowHigh(w)) == WordSum(b) + (if |b| % 2 == 0 then w else SwapWord(w))
    decreases |b|
  {
    if |b| >= 2 {
      AppendWord(b[2..], w);
      assert (b + LowHigh(w))[2..] == b[2..] + LowHigh(w);
    } else if |b| == 0 {
      assert b + LowHigh(w) == LowHigh(w);
    } else {
      var t := b + LowHigh(w);
      assert t == [b[0], w % 256, w / 256] && t[2..] == [w / 256];
    }
  }

  /** A sum folds to all ones exactly if it is a positive multiple of 65535. */
  lemma FoldsToOnes(x: nat)
    ensures Canon(x) == 65535 <==> x > 0 && x % 65535 == 0
  {
    var q := CanonSplit(x);
    DivModUnique(x, 65535, if Canon(x) == 65535 then q + 1 else q, if Canon(x) == 65535 then 0 else Canon(x));
  }

  /**
   * Data of even length followed by its checksum in the order of the machine checks to 0, all-zero data
   * included. After data of odd length it does so exactly if the two bytes of the checksum are equal.
   */
  lemma FramingVerifies(b: seq<Byte>)
    ensures var c := Checksum(b);
            Checksum(b + [c % 256, c / 256]) == 0 <==> |b| % 2 == 0 || c % 256 == c / 256
  {
    var c := Checksum(b);
    assert LowHigh(c) == [c % 256, c / 256];
    var q := CanonSplit(WordSum(b));
    var x := WordSum(b + LowHigh(c));
    AppendWord(b, c);
    FoldsToOnes(x);
    if |b| % 2 == 0 {
      DivModUnique(x, 65535, q + 1, 0);
    } else {
      // With c = 256 h + l the sum is 255 (l - h) plus a multiple of 65535 = 255 * 257.
      var h: int, l: int := c / 256, c % 256;
      assert x == 255 * (l - h) + 65535 * (q + 1);
      assert x > 0;
      if l >= h {
        DivModUnique(x, 65535, q + 1, 255 * (l - h));
      } else {
        DivModUnique(x, 65535, q, 65535 - 255 * (h - l));
      }
    }
  }

  /**
   * With the 32-bit version, data of even length verifies exactly if the sum of the framed data is in
   * the range of `int`. After data of odd length the bytes of the checksum must also be equal.
   */
  lemma FramingVerifiesInt(b: seq<Byte>)
    ensures var c := Checksum(b);
            (IntResult(b) == Answer(c) && IntResult(b + [c % 256, c / 256]) == Answer(0)) <==>
            WordSum(b) + c <= 0x7fff_ffff && (|b| % 2 == 0 || c % 256 == c / 256)
    ensures IntResult(b).Overflow? <==> WordSum(b) > 0x7fff_ffff
    ensures IntResult(b).Answer? ==> IntResult(b).value == Checksum(b)
  {
    var c := Checksum(b);
    assert LowHigh(c) == [c % 256, c / 256];
    AppendWord(b, c);
    FramingVerifies(b);
    assert c % 256 == c / 256 ==> SwapWord(c) == c;
    hide WordSum, Canon, SwapWord, LowHigh;
    var framed := b + [c % 256, c / 256];
    assert IntResult(framed) == Answer(0) <==> WordSum(framed) <= INT_MAX && Checksum(framed) == 0;
  }

  /** Framed data of up to 65535 bytes is in that range whatever its contents. */
  lemma FramingRange(b: seq<Byte>)
    requires |b| <= 65535
    ensures WordSum(b) + Checksum(b) <= INT_MAX
  {
    SumsWithin(|b|, MaxSum(|b|));
    assert WordSum(b) <= MaxSum(|b|);
  }

  /** The client's kind of test data is in range far beyond that: n letters A verify exactly for even n up to 257102. */
  lemma LettersVerify(letters: seq<Byte>)
    requires |letters| % 2 == 0 && forall i :: 0 <= i < |letters| ==> letters[i] == 65
    ensures var c := Checksum(letters);
            (IntResult(letters) == Answer(c) && IntResult(letters + [c % 256, c / 256]) == Answer(0)) <==>
            |letters| <= 257102
  {
    var n := |letters|;
    assert letters == Letters(n);
    LettersSum(n);
    FramingVerifiesInt(letters);
    LettersBound(n / 2);
    hide IntResult, WordSum, Canon;
  }

  /** Close to the bound the checksum itself decides. */
  lemma LettersBound(words: nat)
    ensures 16705 * words + (65535 - Canon(16705 * words)) <= INT_MAX <==> words <= 128551
  {
    assert Canon(16705 * 128550) == 42405 && Canon(16705 * 128551) == 59110;
    assert Canon(16705 * 128552) == 10280 && Canon(16705 * 128553) == 26985;
    hide Canon;
    if words == 128550 {
    } else if words == 128551 {
    } else if words == 128552 {
    } else if words == 128553 {
    }
  }

  // ----- Data in chunks -----

  /** The weight of data at an offset: at an odd offset its bytes change places within the words. */
  function Weight(offset: nat): nat {
    if offset % 2 == 0 then 1 else 256
  }

  lemma PrependByte(x: Byte, b: seq<Byte>) returns (q: int)
    ensures x as nat + 256 * WordSum(b) == WordSum([x] + b) + 65535 * q
  {
    var p: int := NumberModulo(b);
    var r: int := NumberModulo([x] + b);
    assert ([x] + b)[1..] == b;
    q := r - 256 * p;
  }

  lemma {:induction false} ConcatSum(a: seq<Byte>, b: seq<Byte>) returns (q: int)
    ensures WordSum(a) + Weight(|a|) * WordSum(b) == WordSum(a + b) + 65535 * q
    decreases |a|
  {
    if |a| == 0 {
      assert a + b == b;
      q := 0;
    } else if |a| == 1 {
      q := PrependByte(a[0], b);
      assert a + b == [a[0]] + b;
    } else {
      q := ConcatSum(a[2..], b);
      assert (a + b)[2..] == a[2..] + b;
    }
  }

  function Concat(chunks: seq<seq<Byte>>): seq<Byte> {
    if chunks == [] then [] else chunks[0] + Concat(chunks[1..])
  }

  /** The checksums of the chunks, each weighted for the offset at which its chunk starts. */
  function Weighted(chunks: seq<seq<Byte>>, offset: nat): nat {
    if chunks == [] then 0
    else Weight(offset) * Checksum(chunks[0]) + Weighted(chunks[1..], offset + |chunks[0]|)
  }

  lemma WeightProduct(o: nat, n: nat, x: nat) returns (q: nat)
    ensures Weight(o) * (Weight(n) * x) == Weight(o + n) * x + 65535 * q
  {
    q := if o % 2 == 1 && n % 2 == 1 then x else 0;
  }

  lemma {:induction false} WeightedSum(chunks: seq<seq<Byte>>, offset: nat) returns (q: int)
    ensures Weighted(chunks, offset) + Weight(offset) * WordSum(Concat(chunks)) == 65535 * q
  {
    if chunks == [] {
      q := 0;
    } else {
      var first, rest := chunks[0], Concat(chunks[1..]);
      var p := WeightedSum(chunks[1..], offset + |first|);
      var r := ConcatSum(first, rest);
      var u := WeightProduct(offset, |first|, WordSum(rest));
      var v := CanonSplit(WordSum(first));
      if offset % 2 == 0 {
        q := p + u - r + v + 1;
      } else {
        q := p + u + 256 * (v + 1 - r);
      }
    }
  }

  /** The weighted total of the chunks' checksums agrees modulo 65535 with the checksum of the whole. */
  lemma ChunkedChecksum(chunks: seq<seq<Byte>>)
    ensures Weighted(chunks, 0) % 65535 == Checksum(Concat(chunks)) % 65535
  {
    var q := WeightedSum(chunks, 0);
    var p := CanonSplit(WordSum(Concat(chunks)));
    assert Weighted(chunks, 0) == Checksum(Concat(chunks)) + (q - p - 1) * 65535;
    AddMultiple(Checksum(Concat(chunks)), q - p - 1, 65535);
  }

  /** The running total of the server: every chunk's checksum with weight 1. */
  function Total(chunks: seq<seq<Byte>>): nat {
    if chunks == [] then 0 else Checksum(chunks[0]) + Total(chunks[1..])
  }

  /** What one more chunk adds to the totals: in the weighted one its checksum, times 256 at an odd offset. */
  lemma {:induction false} ChunksGrow(chunks: seq<seq<Byte>>, chunk: seq<Byte>, offset: nat)
    ensures Concat([]) == [] && Total([]) == Weighted([], offset) == 0
    ensures Concat(chunks + [chunk]) == Concat(chunks) + chunk
    ensures Total(chunks + [chunk]) == Total(chunks) + Checksum(chunk)
    ensures Weighted(chunks + [chunk], offset) == Weighted(chunks, offset)
              + (if (offset + |Concat(chunks)|) % 2 == 0 then 1 else 256) * Checksum(chunk)
  {
    if chunks == [] {
      assert chunks + [chunk] == [chunk];
      assert [chunk][1..] == [];
    } else {
      assert (chunks + [chunk])[1..] == chunks[1..] + [chunk];
      ChunksGrow(chunks[1..], chunk, offset + |chunks[0]|);
    }
  }

  /** Every chunk but the last has even length. */
  predicate EvenButLast(chunks: seq<seq<Byte>>) {
    forall i :: 0 <= i < |chunks| - 1 ==> |chunks[i]| % 2 == 0
  }

  lemma {:induction false} EvenWeights(chunks: seq<seq<Byte>>, offset: nat)
    requires EvenButLast(chunks) && offset % 2 == 0
    ensures Weighted(chunks, offset) == Total(chunks)
  {
    if chunks != [] {
      if |chunks| > 1 {
        EvenWeights(chunks[1..], offset + |chunks[0]|);
      } else {
        assert chunks[1..] == [];
      }
    }
  }

  /** With chunks of even length the plain total agrees with the checksum of the concatenation. */
  lemma EvenChunksTotal(chunks: seq<seq<Byte>>)
    requires EvenButLast(chunks)
    ensures Total(chunks) % 65535 == Checksum(Concat(chunks)) % 65535
  {
    EvenWeights(chunks, 0);
    ChunkedChecksum(chunks);
  }

}
