/** A model of cdma.js: Walsh–Hadamard code generation and the spread,
    combine and correlate steps of a synchronous, noiseless CDMA channel.
    Chips, bits and signal samples are mathematical integers; the
    JavaScript numbers hold them exactly at the sizes it works with. */
module Cdma {

  // ---------------------------------------------------------------------
  // Vectors
  // ---------------------------------------------------------------------

  /** The correlation Σ a[j]·b[j] (the `reduce` at cdma.js:28). */
  function Dot(a: seq<int>, b: seq<int>): int
    requires |a| == |b|
  {
    if |a| == 0 then 0 else a[0] * b[0] + Dot(a[1..], b[1..])
  }

  /** Element-wise negation, `row.map(bit => -bit)`. */
  function Negate(row: seq<int>): seq<int>
  {
    seq(|row|, j requires 0 <= j < |row| => -row[j])
  }

  /** Element-wise sum of two samples vectors, `combined.map((val, i) => val + signal[i])`. */
  function AddSignal(acc: seq<int>, signal: seq<int>): seq<int>
    requires |signal| == |acc|
  {
    seq(|acc|, i requires 0 <= i < |acc| => acc[i] + signal[i])
  }

  /** `new Array(length).fill(0)`. */
  function Zeros(length: nat): seq<int>
  {
    seq(length, _ => 0)
  }

  /** A Walsh chip: +1 or −1. */
  predicate IsChip(x: int)
  {
    x == 1 || x == -1
  }

  /** A station bit: 0 or 1. */
  predicate IsBits(bits: seq<int>)
  {
    forall k :: 0 <= k < |bits| ==> bits[k] == 0 || bits[k] == 1
  }

  // ---------------------------------------------------------------------
  // generateWalshMatrix (cdma.js:2-8)
  // ---------------------------------------------------------------------

  /** 1, 2, 4, 8, ...: the sizes for which the recursive halving reaches 1. */
  predicate IsPowerOfTwo(n: nat)
    decreases n
  {
    n == 1 || (n >= 2 && n % 2 == 0 && IsPowerOfTwo(n / 2))
  }

  /** The top half of the doubled matrix, `prev.map(row => [...row, ...row])`. */
  function TopHalf(prev: seq<seq<int>>): seq<seq<int>>
  {
    seq(|prev|, i requires 0 <= i < |prev| => prev[i] + prev[i])
  }

  /** The bottom half, `prev.map(row => [...row, ...row.map(bit => -bit)])`. */
  function BottomHalf(prev: seq<seq<int>>): seq<seq<int>>
  {
    seq(|prev|, i requires 0 <= i < |prev| => prev[i] + Negate(prev[i]))
  }

  /** The n×n Walsh–Hadamard matrix, built by doubling:
      H(2h) = [[H(h), H(h)], [H(h), −H(h)]]. */
  function WalshMatrix(n: nat): (m: seq<seq<int>>)
    requires IsPowerOfTwo(n)
    ensures |m| == n
    ensures forall i :: 0 <= i < n ==> |m[i]| == n
    ensures forall i, j :: 0 <= i < n && 0 <= j < n ==> IsChip(m[i][j])
    decreases n
  {
    if n == 1 then [[1]]
    else
      var prev := WalshMatrix(n / 2);
      TopHalf(prev) + BottomHalf(prev)
  }

  // ---------------------------------------------------------------------
  // encode (cdma.js:10-12)
  // ---------------------------------------------------------------------

  /** The factor a bit spreads its code with: `bit === 1 ? 1 : -1`. */
  function Sign(bit: int): int
  {
    if bit == 1 then 1 else -1
  }

  /** One bit spread over a whole code row, `code.map(c => c * sign)`. */
  function Spread(bit: int, code: seq<int>): (r: seq<int>)
    ensures r == if bit == 1 then code else Negate(code)
  {
    var sign := Sign(bit);
    var r := seq(|code|, j requires 0 <= j < |code| => code[j] * sign);
    assert sign == 1 ==> forall j :: 0 <= j < |code| ==> r[j] == code[j];
    assert sign == -1 ==> forall j :: 0 <= j < |code| ==> r[j] == Negate(code)[j];
    r
  }

  /** `bits.flatMap(bit => Spread(bit, code))`: one chunk of |code| chips per bit. */
  function Encode(bits: seq<int>, code: seq<int>): (r: seq<int>)
    ensures |r| == |bits| * |code|
  {
    if |bits| == 0 then [] else Spread(bits[0], code) + Encode(bits[1..], code)
  }

  /** The signals of several stations, station s spread with codes[s]. */
  function Encodings(data: seq<seq<int>>, codes: seq<seq<int>>): (r: seq<seq<int>>)
    requires |codes| == |data|
    ensures |r| == |data|
    ensures forall s :: 0 <= s < |data| ==> |r[s]| == |data[s]| * |codes[s]|
  {
    seq(|data|, s requires 0 <= s < |data| => Encode(data[s], codes[s]))
  }

  // ---------------------------------------------------------------------
  // combineSignals (cdma.js:14-19)
  // ---------------------------------------------------------------------

  /** Reference definition: the sum signals[0][j] + signals[1][j] + ... */
  function ColumnSum(signals: seq<seq<int>>, j: nat): int
    requires forall s :: 0 <= s < |signals| ==> j < |signals[s]|
  {
    if |signals| == 0 then 0 else signals[0][j] + ColumnSum(signals[1..], j)
  }

  /** `signals.reduce((combined, signal) => AddSignal(combined, signal), acc)`. */
  function Accumulate(acc: seq<int>, signals: seq<seq<int>>): (r: seq<int>)
    requires forall s :: 0 <= s < |signals| ==> |signals[s]| == |acc|
    ensures |r| == |acc|
    ensures forall j :: 0 <= j < |acc| ==> r[j] == acc[j] + ColumnSum(signals, j)
    decreases |signals|
  {
    if |signals| == 0 then acc else Accumulate(AddSignal(acc, signals[0]), signals[1..])
  }

  /** All signals the same length: every signal has as many samples as the first. */
  predicate SameLength(signals: seq<seq<int>>)
  {
    forall s :: 0 <= s < |signals| ==> |signals[s]| == |signals[0]|
  }

  /** The shared channel: the element-wise sum of all encoded signals. */
  function Combine(signals: seq<seq<int>>): (r: seq<int>)
    requires |signals| > 0 && SameLength(signals)
    ensures |r| == |signals[0]|
    ensures forall j :: 0 <= j < |r| ==> r[j] == ColumnSum(signals, j)
  {
    Accumulate(Zeros(|signals[0]|), signals)
  }

  // ---------------------------------------------------------------------
  // decode (cdma.js:21-33)
  // ---------------------------------------------------------------------

  /** The decision rule `sum > 0 ? 1 : 0`; a tie decodes to 0. */
  function Threshold(sum: int): int
  {
    if sum > 0 then 1 else 0
  }

  /** The combined signal divides into whole chunks of |code| samples. With an
      empty code, `numChunks` is 0/0, which is NaN, and the loop runs no
      iteration only when the combined signal is empty as well. */
  predicate Aligned(combined: seq<int>, code: seq<int>)
  {
    if |code| == 0 then |combined| == 0 else |combined| % |code| == 0
  }

  /** `numChunks`, for aligned inputs. */
  function ChunkCount(combined: seq<int>, code: seq<int>): nat
  {
    if |code| == 0 then 0 else |combined| / |code|
  }

  /** Chunk k of a signal cut into pieces of length `size`. */
  function Chunk(s: seq<int>, size: nat, k: nat): seq<int>
    requires k * size + size <= |s|
  {
    s[k * size..k * size + size]
  }

  /** The bits the loop has pushed after `count` iterations. */
  function DecodeChunks(combined: seq<int>, code: seq<int>, count: nat): (r: seq<int>)
    requires count * |code| <= |combined|
    ensures |r| == count
  {
    if count == 0 then []
    else
      DecodeChunks(combined, code, count - 1)
        + [Threshold(Dot(Chunk(combined, |code|, count - 1), code))]
  }

  /** What decode(combined, code) returns. */
  function Decoded(combined: seq<int>, code: seq<int>): seq<int>
    requires Aligned(combined, code)
  {
    DecodeChunks(combined, code, ChunkCount(combined, code))
  }

  /** Chunk k of `count` chunks of length `size` ends within them. */
  lemma {:induction false} ChunkInRange(k: nat, count: nat, size: nat)
    requires k < count
    ensures k * size + size <= count * size
  {
    if k + 1 < count {
      ChunkInRange(k, count - 1, size);
      assert count * size == (count - 1) * size + size;
    } else {
      assert count * size == k * size + size;
    }
  }

  /** Bit k of the first `count` decoded bits is the threshold of chunk k. */
  lemma {:induction false} DecodeChunksAt(combined: seq<int>, code: seq<int>, count: nat, k: nat)
    requires count * |code| <= |combined|
    requires k < count
    ensures k * |code| + |code| <= |combined|
    ensures DecodeChunks(combined, code, count)[k] == Threshold(Dot(Chunk(combined, |code|, k), code))
  {
    ChunkInRange(k, count, |code|);
    if k < count - 1 {
      ChunkInRange(count - 1, count, |code|);
      DecodeChunksAt(combined, code, count - 1, k);
    }
  }

  /** Whole chunks cover an aligned combined signal exactly. */
  lemma ChunkCountExact(combined: seq<int>, code: seq<int>)
    requires Aligned(combined, code)
    ensures ChunkCount(combined, code) * |code| == |combined|
  {
    if |code| > 0 {
      var n, size := |combined|, |code|;
      assert n == size * (n / size) + n % size;
    }
  }

  /** decode emits one bit per whole chunk, and bit k is 1 exactly when chunk k
      correlates positively with the code: zero and negative sums give 0. */
  lemma DecodedBits(combined: seq<int>, code: seq<int>)
    requires Aligned(combined, code)
    ensures |Decoded(combined, code)| * |code| == |combined|
    ensures forall k :: 0 <= k < |Decoded(combined, code)| ==>
      k * |code| + |code| <= |combined| &&
      (Decoded(combined, code)[k] == 1 <==> Dot(Chunk(combined, |code|, k), code) > 0) &&
      (Decoded(combined, code)[k] == 0 <==> Dot(Chunk(combined, |code|, k), code) <= 0)
  {
    ChunkCountExact(combined, code);
    var count := ChunkCount(combined, code);
    forall k | 0 <= k < count
      ensures k * |code| + |code| <= |combined|
      ensures DecodeChunks(combined, code, count)[k] == Threshold(Dot(Chunk(combined, |code|, k), code))
    {
      DecodeChunksAt(combined, code, count, k);
    }
  }

  /** The decoder loop of cdma.js:21-33: one correlation per chunk, one bit
      pushed per chunk, in chunk order. */
  method Decode(combined: seq<int>, code: seq<int>) returns (result: seq<int>)
    requires Aligned(combined, code)
    ensures result == Decoded(combined, code)
    ensures |result| * |code| == |combined|
    ensures forall k :: 0 <= k < |result| ==>
      k * |code| + |code| <= |combined| &&
      (result[k] == 1 <==> Dot(Chunk(combined, |code|, k), code) > 0) &&
      (result[k] == 0 <==> Dot(Chunk(combined, |code|, k), code) <= 0)
  {
    var chunkSize := |code|;
    var numChunks := if chunkSize == 0 then 0 else |combined| / chunkSize;
    ChunkCountExact(combined, code);
    result := [];
    for i := 0 to numChunks
      invariant result == DecodeChunks(combined, code, i)
    {
      ChunkInRange(i, numChunks, chunkSize);
      assert (i + 1) * chunkSize == i * chunkSize + chunkSize;
      var chunk := combined[i * chunkSize..(i + 1) * chunkSize];
      assert chunk == Chunk(combined, chunkSize, i);
      var sum := Dot(chunk, code);
      result := result + [if sum > 0 then 1 else 0];
    }
    DecodedBits(combined, code);
  }
}
