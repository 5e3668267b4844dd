/** Properties of the cdma.js model: the shape and orthogonality of the Walsh
    matrix, the chunk structure of an encoding, and the round-trip law that
    decoding the shared channel with a station's code gives back its bits. */
module CdmaProofs {
  import opened Cdma

  // ---------------------------------------------------------------------
  // Dot-product algebra
  // ---------------------------------------------------------------------

  lemma {:induction false} DotAppend(a1: seq<int>, a2: seq<int>, b1: seq<int>, b2: seq<int>)
    requires |a1| == |b1| && |a2| == |b2|
    ensures Dot(a1 + a2, b1 + b2) == Dot(a1, b1) + Dot(a2, b2)
  {
    if |a1| == 0 {
      assert a1 + a2 == a2;
      assert b1 + b2 == b2;
    } else {
      assert (a1 + a2)[1..] == a1[1..] + a2;
      assert (b1 + b2)[1..] == b1[1..] + b2;
      DotAppend(a1[1..], a2, b1[1..], b2);
    }
  }

  lemma {:induction false} DotNegateLeft(a: seq<int>, b: seq<int>)
    requires |a| == |b|
    ensures Dot(Negate(a), b) == -Dot(a, b)
  {
    if |a| > 0 {
      assert Negate(a)[1..] == Negate(a[1..]);
      DotNegateLeft(a[1..], b[1..]);
    }
  }

  lemma {:induction false} DotNegateRight(a: seq<int>, b: seq<int>)
    requires |a| == |b|
    ensures Dot(a, Negate(b)) == -Dot(a, b)
  {
    if |a| > 0 {
      assert Negate(b)[1..] == Negate(b[1..]);
      DotNegateRight(a[1..], b[1..]);
    }
  }

  lemma {:induction false} DotAdd(a: seq<int>, c: seq<int>, b: seq<int>)
    requires |a| == |c| == |b|
    ensures Dot(AddSignal(a, c), b) == Dot(a, b) + Dot(c, b)
  {
    if |a| > 0 {
      assert AddSignal(a, c)[1..] == AddSignal(a[1..], c[1..]);
      DotAdd(a[1..], c[1..], b[1..]);
    }
  }

  lemma {:induction false} DotZero(v: seq<int>, b: seq<int>)
    requires |v| == |b|
    requires forall j :: 0 <= j < |v| ==> v[j] == 0
    ensures Dot(v, b) == 0
  {
    if |v| > 0 {
      DotZero(v[1..], b[1..]);
    }
  }

  /** x multiplied by the sign a bit spreads with, `x * (bit === 1 ? 1 : -1)`. */
  function SignedBy(bit: int, x: int): int
  {
    if bit == 1 then x else -x
  }

  /** SignedBy is the product with the bit's sign, written without a multiplication. */
  lemma SignedBySign(bit: int, x: int)
    ensures SignedBy(bit, x) == Sign(bit) * x
  {
  }

  /** Correlating one spread bit with a code scales the code's correlation by the bit's sign. */
  lemma DotSpread(bit: int, code: seq<int>, b: seq<int>)
    requires |code| == |b|
    ensures Dot(Spread(bit, code), b) == SignedBy(bit, Dot(code, b))
  {
    if bit != 1 {
      DotNegateLeft(code, b);
    }
  }

  // ---------------------------------------------------------------------
  // generateWalshMatrix (cdma.js:2-8)
  // ---------------------------------------------------------------------

  /** The base case is the 1×1 matrix [[1]]. */
  lemma WalshBase()
    ensures WalshMatrix(1) == [[1]]
  {
  }

  /** The doubling structure: the top half repeats each row of the half-size
      matrix, the bottom half appends its negation. */
  lemma WalshDoubling(n: nat, i: nat)
    requires IsPowerOfTwo(n) && n >= 2
    requires i < n / 2
    ensures IsPowerOfTwo(n / 2)
    ensures WalshMatrix(n)[i] == WalshMatrix(n / 2)[i] + WalshMatrix(n / 2)[i]
    ensures WalshMatrix(n)[n / 2 + i] == WalshMatrix(n / 2)[i] + Negate(WalshMatrix(n / 2)[i])
  {
    var p := WalshMatrix(n / 2);
    assert WalshMatrix(n) == TopHalf(p) + BottomHalf(p);
    assert (TopHalf(p) + BottomHalf(p))[n / 2 + i] == BottomHalf(p)[i];
  }

  /** Row 0 is all +1s. */
  lemma {:induction false} WalshFirstRow(n: nat)
    requires IsPowerOfTwo(n)
    ensures forall j :: 0 <= j < n ==> WalshMatrix(n)[0][j] == 1
  {
    if n > 1 {
      WalshFirstRow(n / 2);
      WalshDoubling(n, 0);
    }
  }

  /** Correlation of two doubled rows [a, ±a] and [b, ±b]. */
  lemma DotDoubled(a: seq<int>, b: seq<int>, negA: bool, negB: bool)
    requires |a| == |b|
    ensures Dot(a + (if negA then Negate(a) else a), b + (if negB then Negate(b) else b))
            == if negA == negB then 2 * Dot(a, b) else 0
  {
    var x := if negA then Negate(a) else a;
    var y := if negB then Negate(b) else b;
    DotAppend(a, x, b, y);
    DotNegateLeft(a, b);
    DotNegateRight(a, b);
    DotNegateRight(Negate(a), b);
  }

  /** Row i of the doubled matrix, named by the half-size row it repeats and
      whether that repeat is negated. */
  lemma WalshRowHalves(n: nat, i: nat) returns (half: nat, negated: bool)
    requires IsPowerOfTwo(n) && n >= 2
    requires i < n
    ensures IsPowerOfTwo(n / 2) && half < n / 2
    ensures negated == (i >= n / 2) && i == if negated then n / 2 + half else half
    ensures WalshMatrix(n)[i] == WalshMatrix(n / 2)[half]
              + (if negated then Negate(WalshMatrix(n / 2)[half]) else WalshMatrix(n / 2)[half])
  {
    negated := i >= n / 2;
    half := if negated then i - n / 2 else i;
    WalshDoubling(n, half);
  }

  /** Distinct rows are orthogonal and every row correlates with itself to n. */
  lemma {:induction false} WalshOrthogonal(n: nat, i: nat, j: nat)
    requires IsPowerOfTwo(n)
    requires i < n && j < n
    ensures Dot(WalshMatrix(n)[i], WalshMatrix(n)[j]) == if i == j then n else 0
  {
    if n == 1 {
      assert WalshMatrix(1)[0] == [1];
      assert Dot([1], [1]) == 1 + Dot([], []);
    } else {
      var a, negA := WalshRowHalves(n, i);
      var b, negB := WalshRowHalves(n, j);
      WalshOrthogonal(n / 2, a, b);
      DotDoubled(WalshMatrix(n / 2)[a], WalshMatrix(n / 2)[b], negA, negB);
    }
  }

  // ---------------------------------------------------------------------
  // encode (cdma.js:10-12)
  // ---------------------------------------------------------------------

  lemma MulNonNegative(a: nat, b: nat)
    ensures a * b >= 0
  {
  }

  lemma MulPred(k: nat, size: nat)
    requires k > 0
    ensures (k - 1) * size == k * size - size
    ensures k * size >= size
  {
  }

  /** An encoding is its first bit's spread followed by the encoding of the rest. */
  lemma EncodeFirst(bits: seq<int>, code: seq<int>)
    requires |bits| > 0
    ensures |Encode(bits, code)| == |code| + |Encode(bits[1..], code)|
    ensures Encode(bits, code)[..|code|] == Spread(bits[0], code)
    ensures Encode(bits, code)[|code|..] == Encode(bits[1..], code)
  {
    var head := Spread(bits[0], code);
    var rest := Encode(bits[1..], code);
    assert Encode(bits, code) == head + rest;
    assert (head + rest)[..|head|] == head;
    assert (head + rest)[|head|..] == rest;
  }

  /** A window at or after offset |code| of an encoding is a window of the
      encoding of the remaining bits. */
  lemma EncodeWindowRest(bits: seq<int>, code: seq<int>, lo: nat)
    requires |bits| > 0 && |code| <= lo && lo + |code| <= |Encode(bits, code)|
    ensures Encode(bits, code)[lo..lo + |code|] == Encode(bits[1..], code)[lo - |code|..lo]
  {
    EncodeFirst(bits, code);
    var e := Encode(bits, code);
    assert e[lo..lo + |code|] == e[|code|..][lo - |code|..lo];
  }

  /** The chips starting at offset lo = k·|code| of an encoding are bit k
      spread over the code. */
  lemma {:induction false} EncodeWindow(bits: seq<int>, code: seq<int>, k: nat, lo: nat)
    requires k < |bits| && lo == k * |code|
    ensures lo + |code| <= |Encode(bits, code)|
    ensures Encode(bits, code)[lo..lo + |code|] == Spread(bits[k], code)
  {
    EncodeFirst(bits, code);
    if k > 0 {
      MulPred(k, |code|);
      EncodeWindow(bits[1..], code, k - 1, lo - |code|);
      EncodeWindowRest(bits, code, lo);
    }
  }

  /** Chunk k of an encoding is bit k spread over the code. */
  lemma EncodeChunk(bits: seq<int>, code: seq<int>, k: nat)
    requires k < |bits|
    ensures k * |code| + |code| <= |Encode(bits, code)|
    ensures Chunk(Encode(bits, code), |code|, k) == Spread(bits[k], code)
  {
    MulNonNegative(k, |code|);
    EncodeWindow(bits, code, k, k * |code|);
  }

  /** An encoding has |code| chips per bit, and chunk k is the code when bit k
      is 1 and the negated code otherwise. */
  lemma EncodeChunks(bits: seq<int>, code: seq<int>)
    ensures |Encode(bits, code)| == |bits| * |code|
    ensures forall k :: 0 <= k < |bits| ==>
      k * |code| + |code| <= |Encode(bits, code)| &&
      Chunk(Encode(bits, code), |code|, k) == if bits[k] == 1 then code else Negate(code)
  {
    forall k | 0 <= k < |bits|
      ensures k * |code| + |code| <= |Encode(bits, code)|
      ensures Chunk(Encode(bits, code), |code|, k) == Spread(bits[k], code)
    {
      EncodeChunk(bits, code, k);
    }
  }

  // ---------------------------------------------------------------------
  // combineSignals (cdma.js:14-19)
  // ---------------------------------------------------------------------

  /** The same window [lo, hi) of every signal. */
  function Windows(signals: seq<seq<int>>, lo: nat, hi: nat): (r: seq<seq<int>>)
    requires lo <= hi
    requires forall s :: 0 <= s < |signals| ==> hi <= |signals[s]|
    ensures |r| == |signals|
    ensures forall s :: 0 <= s < |r| ==> |r[s]| == hi - lo
  {
    seq(|signals|, s requires 0 <= s < |signals| => signals[s][lo..hi])
  }

  /** Summing windows is windowing the sum. */
  lemma {:induction false} ColumnSumWindows(signals: seq<seq<int>>, lo: nat, hi: nat, j: nat)
    requires lo <= hi
    requires forall s :: 0 <= s < |signals| ==> hi <= |signals[s]|
    requires j < hi - lo
    ensures ColumnSum(Windows(signals, lo, hi), j) == ColumnSum(signals, lo + j)
  {
    if |signals| > 0 {
      assert Windows(signals, lo, hi)[1..] == Windows(signals[1..], lo, hi);
      ColumnSumWindows(signals[1..], lo, hi, j);
    }
  }

  /** Σ_s Dot(signals[s], b). */
  function DotSum(signals: seq<seq<int>>, b: seq<int>): int
    requires forall s :: 0 <= s < |signals| ==> |signals[s]| == |b|
  {
    if |signals| == 0 then 0 else Dot(signals[0], b) + DotSum(signals[1..], b)
  }

  /** Correlating a vector of column sums is summing the correlations. */
  lemma {:induction false} DotColumnSums(signals: seq<seq<int>>, v: seq<int>, b: seq<int>)
    requires |v| == |b|
    requires forall s :: 0 <= s < |signals| ==> |signals[s]| == |b|
    requires forall j :: 0 <= j < |v| ==> v[j] == ColumnSum(signals, j)
    ensures Dot(v, b) == DotSum(signals, b)
  {
    if |signals| == 0 {
      DotZero(v, b);
    } else {
      var rest := seq(|b|, j requires 0 <= j < |b| => ColumnSum(signals[1..], j));
      DotColumnSums(signals[1..], rest, b);
      assert v == AddSignal(signals[0], rest);
      DotAdd(signals[0], rest, b);
    }
  }

  /** When every signal but signals[i] is orthogonal to b, only signals[i]
      contributes to the sum of correlations. */
  lemma {:induction false} DotSumOnly(signals: seq<seq<int>>, b: seq<int>, i: int)
    requires forall s :: 0 <= s < |signals| ==> |signals[s]| == |b|
    requires forall s :: 0 <= s < |signals| && s != i ==> Dot(signals[s], b) == 0
    ensures DotSum(signals, b) == if 0 <= i < |signals| then Dot(signals[i], b) else 0
  {
    if |signals| > 0 {
      DotSumOnly(signals[1..], b, i - 1);
    }
  }

  // ---------------------------------------------------------------------
  // The round trip (cdma.js:10-33)
  // ---------------------------------------------------------------------

  /** Codes of one length, pairwise orthogonal, each with a positive self-correlation. */
  predicate Orthogonal(codes: seq<seq<int>>)
  {
    (forall s :: 0 <= s < |codes| ==> |codes[s]| == |codes[0]|) &&
    (forall s, t :: 0 <= s < |codes| && 0 <= t < |codes| && s != t ==>
      Dot(codes[s], codes[t]) == 0) &&
    (forall s :: 0 <= s < |codes| ==> Dot(codes[s], codes[s]) > 0)
  }

  lemma MulCancel(a: nat, b: nat, size: nat)
    requires size > 0 && a * size == b * size
    ensures a == b
  {
  }

  lemma MultipleAligned(m: nat, size: nat)
    requires size > 0
    ensures (m * size) % size == 0
  {
    var x := m * size;
    var q, rem := x / size, x % size;
    assert x == size * q + rem;
    var d := m - q;
    assert rem == d * size;
    assert d <= 0;
    assert d >= 0;
  }

  /** The bits of bit-period k spread over orthogonal codes: correlating their
      sum with code i leaves only station i's sign times the code's
      self-correlation. */
  lemma SpreadsCorrelation(spreads: seq<seq<int>>, data: seq<seq<int>>, codes: seq<seq<int>>, i: nat, k: nat)
    requires |spreads| == |data| == |codes| && i < |codes| && Orthogonal(codes)
    requires forall s :: 0 <= s < |data| ==> k < |data[s]|
    requires forall s :: 0 <= s < |spreads| ==> spreads[s] == Spread(data[s][k], codes[s])
    ensures forall s :: 0 <= s < |spreads| ==> |spreads[s]| == |codes[i]|
    ensures DotSum(spreads, codes[i]) == SignedBy(data[i][k], Dot(codes[i], codes[i]))
  {
    forall s | 0 <= s < |spreads| && s != i
      ensures Dot(spreads[s], codes[i]) == 0
    {
      DotSpread(data[s][k], codes[s], codes[i]);
    }
    DotSumOnly(spreads, codes[i], i);
    DotSpread(data[i][k], codes[i], codes[i]);
  }

  /** Stations with bit strings of one length and codes of one length have
      encodings of one length. */
  lemma EncodingsShape(data: seq<seq<int>>, codes: seq<seq<int>>)
    requires |data| == |codes| > 0
    requires SameLength(data) && forall s :: 0 <= s < |codes| ==> |codes[s]| == |codes[0]|
    ensures SameLength(Encodings(data, codes))
    ensures |Encodings(data, codes)[0]| == |data[0]| * |codes[0]|
  {
  }

  /** Encodings of bit strings of one length with codes of one nonzero length
      combine into a signal that divides into whole chunks of every code. */
  lemma CombinedAligned(data: seq<seq<int>>, codes: seq<seq<int>>)
    requires |data| == |codes| > 0 && SameLength(data)
    requires forall s :: 0 <= s < |codes| ==> |codes[s]| == |codes[0]| > 0
    ensures SameLength(Encodings(data, codes))
    ensures |Combine(Encodings(data, codes))| == |data[0]| * |codes[0]|
    ensures forall s :: 0 <= s < |codes| ==> Aligned(Combine(Encodings(data, codes)), codes[s])
  {
    EncodingsShape(data, codes);
    MultipleAligned(|data[0]|, |codes[0]|);
  }

  /** Window [lo, hi) of every signal is that station's bit k spread over its code. */
  predicate WindowsAreSpreads(signals: seq<seq<int>>, data: seq<seq<int>>, codes: seq<seq<int>>,
                              k: nat, lo: nat, hi: nat)
  {
    |signals| == |data| == |codes| &&
    forall s :: 0 <= s < |signals| ==>
      lo <= hi <= |signals[s]| && k < |data[s]| && signals[s][lo..hi] == Spread(data[s][k], codes[s])
  }

  /** The window [lo, lo + |code|) with lo = k·|code| of every encoding is that
      station's bit k spread over its code. */
  lemma EncodingWindows(data: seq<seq<int>>, codes: seq<seq<int>>, k: nat, lo: nat)
    requires |data| == |codes| > 0
    requires SameLength(data) && forall s :: 0 <= s < |codes| ==> |codes[s]| == |codes[0]|
    requires k < |data[0]| && lo == k * |codes[0]|
    ensures WindowsAreSpreads(Encodings(data, codes), data, codes, k, lo, lo + |codes[0]|)
  {
    var encs := Encodings(data, codes);
    forall s | 0 <= s < |data|
      ensures lo + |codes[0]| <= |encs[s]|
      ensures encs[s][lo..lo + |codes[0]|] == Spread(data[s][k], codes[s])
    {
      EncodeWindow(data[s], codes[s], k, lo);
    }
  }

  /** Correlating a window of the combined signal is summing the correlations
      of the signals' windows. */
  lemma CombineWindowDot(signals: seq<seq<int>>, lo: nat, hi: nat, b: seq<int>)
    requires |signals| > 0 && SameLength(signals)
    requires lo <= hi <= |signals[0]| && |b| == hi - lo
    ensures Dot(Combine(signals)[lo..hi], b) == DotSum(Windows(signals, lo, hi), b)
  {
    var v := Combine(signals)[lo..hi];
    forall j | 0 <= j < hi - lo
      ensures v[j] == ColumnSum(Windows(signals, lo, hi), j)
    {
      ColumnSumWindows(signals, lo, hi, j);
    }
    DotColumnSums(Windows(signals, lo, hi), v, b);
  }

  /** Signals whose windows [lo, hi) are bits spread over orthogonal codes:
      the combined window correlates with code i to station i's sign times the
      code's self-correlation. */
  lemma SpreadWindowsCorrelation(signals: seq<seq<int>>, data: seq<seq<int>>, codes: seq<seq<int>>,
                                  i: nat, k: nat, lo: nat, hi: nat)
    requires 0 < |signals| && i < |codes| && Orthogonal(codes) && SameLength(signals)
    requires WindowsAreSpreads(signals, data, codes, k, lo, hi)
    ensures lo <= hi <= |signals[0]| && hi - lo == |codes[i]|
    ensures Dot(Combine(signals)[lo..hi], codes[i]) == SignedBy(data[i][k], Dot(codes[i], codes[i]))
  {
    var windows := Windows(signals, lo, hi);
    assert forall s :: 0 <= s < |windows| ==> windows[s] == signals[s][lo..hi];
    assert |windows[i]| == |codes[i]|;
    CombineWindowDot(signals, lo, hi, codes[i]);
    SpreadsCorrelation(windows, data, codes, i, k);
  }

  /** The window of the combined signal at offset lo = k·|code| correlates with
      station i's code to that station's sign times the code's self-correlation. */
  lemma WindowCorrelation(data: seq<seq<int>>, codes: seq<seq<int>>, i: nat, k: nat, lo: nat)
    requires |data| == |codes| > 0 && i < |data|
    requires Orthogonal(codes) && SameLength(data)
    requires k < |data[0]| && lo == k * |codes[0]|
    requires SameLength(Encodings(data, codes))
    ensures lo + |codes[0]| <= |Combine(Encodings(data, codes))|
    ensures Dot(Combine(Encodings(data, codes))[lo..lo + |codes[0]|], codes[i])
            == SignedBy(data[i][k], Dot(codes[i], codes[i]))
  {
    EncodingWindows(data, codes, k, lo);
    SpreadWindowsCorrelation(Encodings(data, codes), data, codes, i, k, lo, lo + |codes[0]|);
  }

  /** The combined encodings of stations with orthogonal codes correlate, over
      bit-period k, with station i's code to that station's sign times the code's
      self-correlation: all other stations cancel out. */
  lemma ChunkCorrelation(data: seq<seq<int>>, codes: seq<seq<int>>, i: nat, k: nat)
    requires |data| == |codes| > 0 && i < |data|
    requires Orthogonal(codes) && SameLength(data)
    requires k < |data[0]|
    ensures SameLength(Encodings(data, codes))
    ensures k * |codes[0]| + |codes[0]| <= |Combine(Encodings(data, codes))|
    ensures Dot(Chunk(Combine(Encodings(data, codes)), |codes[0]|, k), codes[i])
            == SignedBy(data[i][k], Dot(codes[i], codes[i]))
  {
    EncodingsShape(data, codes);
    ChunkInRange(k, |data[0]|, |codes[0]|);
    MulNonNegative(k, |codes[0]|);
    WindowCorrelation(data, codes, i, k, k * |codes[0]|);
  }

  /** Round trip: decoding the combined encodings with station i's code
      returns station i's bits exactly, whatever the other stations send. */
  lemma RoundTrip(data: seq<seq<int>>, codes: seq<seq<int>>, i: nat)
    requires |data| == |codes| > 0 && i < |data|
    requires Orthogonal(codes) && SameLength(data) && IsBits(data[i])
    ensures SameLength(Encodings(data, codes))
    ensures Aligned(Combine(Encodings(data, codes)), codes[i])
    ensures Decoded(Combine(Encodings(data, codes)), codes[i]) == data[i]
  {
    var size, m := |codes[0]|, |data[0]|;
    if size == 0 {
      assert false;
    }
    CombinedAligned(data, codes);
    var combined := Combine(Encodings(data, codes));
    var decoded := Decoded(combined, codes[i]);
    DecodedBits(combined, codes[i]);
    MulCancel(|decoded|, m, size);
    forall k | 0 <= k < m
      ensures decoded[k] == data[i][k]
    {
      ChunkCorrelation(data, codes, i, k);
    }
  }

  /** The first `count` rows of a power-of-two Walsh matrix are orthogonal codes. */
  lemma WalshRowsOrthogonal(n: nat, count: nat)
    requires IsPowerOfTwo(n) && 0 < count <= n
    ensures Orthogonal(WalshMatrix(n)[..count])
  {
    var codes := WalshMatrix(n)[..count];
    forall s, t | 0 <= s < count && 0 <= t < count
      ensures Dot(codes[s], codes[t]) == if s == t then n else 0
    {
      WalshOrthogonal(n, s, t);
    }
  }
}
