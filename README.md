# CDMA simulator core in Dafny

This project models the core of a small CDMA (code-division multiple access)
simulator, and proves properties of the model.

Each station holds a string of bits. The simulator gives each station one row
of a Walsh–Hadamard matrix as its spreading code. Every bit is spread over that
code: the code itself for a 1, the negated code for a 0. The encoded signals of
all stations are summed sample by sample into one shared channel. Each station
is then decoded by correlating the channel, one bit-period at a time, with its
own code: a positive correlation reads as 1; zero or negative reads as 0.

The model has three parts:

- `cdma.dfy`, module `Cdma`, models the four operations of `cdma.js`:
  - `WalshMatrix` is the recursive doubling construction.
  - `Encode` covers one station; `Encodings` covers all stations.
  - `Combine` is the channel sum, as a left fold, `Accumulate`, from zeros.
  - `Decode` is a method with the decoder's loop. It is proved equal to the
    specification function `Decoded` and to the per-bit decision rule.
- `cdma_proofs.dfy`, module `CdmaProofs`, holds the properties:
  - the structure of the Walsh matrix;
  - the orthogonality of its rows;
  - the chunk structure of an encoding;
  - the round trip: with orthogonal codes, every station decodes to exactly
    its own bits, whatever the others send.
- `simulate.dfy`, module `Simulate`, models the simulation step of the request
  handler in `api/simulate.js`:
  - the validation of the station list: `Validation` as a function, and the
    handler's early-return loop as the method `ValidateStations`;
  - the choice of the matrix size;
  - the assignment of row i to station i, followed by encode, combine and
    decode.

  The step is a total function `Simulate` from the request's `stations` (an
  `Option`, since the field may be missing) to an error or a `Simulation`
  record. That record has the five fields of the response body. The lemmas
  `SimulateErrors`, `SimulateResult`, `SimulateEncodings`,
  `SimulateDecodings`, `SimulateCodes` and `SimulateRoundTrip` state which
  requests fail and what a successful response holds.
- `cdma_examples.dfy` and `simulate_examples.dfy` evaluate the worked examples:
  - H(2) and H(4);
  - one station "101" with the code [1];
  - stations "1" and "0" sharing the channel [0, 2];
  - the Walsh sizes for a few station counts;
  - the number reported for an invalid station.

Chips, bits and samples are unbounded integers. Strings are `seq<char>`.

## Model

| member | source | states |
|---|---|---|
| Cdma.WalshMatrix | cdma.js:2-8 | H(n) for a power of two n has n rows of n entries, each entry +1 or −1 |
| CdmaProofs.WalshBase | cdma.js:3 | H(1) is [[1]] |
| CdmaProofs.WalshDoubling | cdma.js:4-7 | for i < n/2, row i of H(n) is row i of H(n/2) written twice, and row n/2+i is that row followed by its negation |
| CdmaProofs.WalshRowHalves | cdma.js:4-7 | every row of H(n) is a row of H(n/2) followed by the same row or its negation, the negated form exactly for the bottom half |
| CdmaProofs.WalshFirstRow | cdma.js:2-8 | row 0 of H(n) is all +1 |
| CdmaProofs.WalshOrthogonal | cdma.js:2-8 | rows i and j of H(n) have correlation n when i = j and 0 otherwise |
| CdmaProofs.WalshRowsOrthogonal | cdma.js:2-8 | the first `count` rows of H(n) are codes of one length, pairwise orthogonal, each with positive self-correlation |
| Cdma.Spread | cdma.js:11 | one bit spreads to the code when it is 1 and to the negated code otherwise |
| Cdma.Encode | cdma.js:10-12 | an encoding has len(bits)·len(code) chips |
| CdmaProofs.EncodeFirst | cdma.js:10-12 | an encoding is the first bit's spread followed by the encoding of the remaining bits |
| CdmaProofs.EncodeWindow | cdma.js:10-12 | the len(code) chips at offset k·len(code) are bit k spread over the code |
| CdmaProofs.EncodeChunk | cdma.js:10-12 | chunk k of an encoding lies inside it and equals bit k spread over the code |
| CdmaProofs.EncodeChunks | cdma.js:10-12 | an encoding has len(bits)·len(code) chips, and chunk k is the code when bit k is 1 and the negated code otherwise |
| Cdma.Encodings | api/simulate.js:31-34 | one encoding per station, station s having len(data[s])·len(codes[s]) chips |
| CdmaProofs.EncodingsShape | api/simulate.js:31-34 | stations of one bit length with codes of one length give encodings of one length, len(data[0])·len(code) |
| Cdma.Accumulate | cdma.js:16-18 | folding signals into an accumulator adds each signal's column sum to each sample and keeps the length |
| Cdma.Combine | cdma.js:14-19 | the channel has the first signal's length, and sample j is the sum over all signals of their sample j |
| CdmaProofs.CombineWindowDot | cdma.js:14-19 | correlating a window of the channel equals summing the correlations of the signals' windows |
| CdmaProofs.CombinedAligned | api/simulate.js:36-40 | the encodings combine into a channel of len(data[0])·len(code) samples that divides into whole chunks of every code |
| Cdma.DecodeChunks | cdma.js:26-30 | after `count` iterations the loop has pushed `count` bits |
| Cdma.ChunkInRange | cdma.js:27 | index bound the slice needs: for k < count, the end k·size+size of slice k is at most count·size |
| Cdma.DecodeChunksAt | cdma.js:26-30 | bit k pushed is the threshold of chunk k's correlation with the code |
| Cdma.ChunkCountExact | cdma.js:22-23 | index bound the loop needs: on an aligned channel the `numChunks` slices of `chunkSize` samples end exactly at the channel's end |
| Cdma.DecodedBits | cdma.js:21-33 | decode yields len(combined)/len(code) bits; bit k is 1 iff chunk k correlates positively with the code, and 0 iff the correlation is zero or negative |
| Cdma.Decode | cdma.js:21-33 | the loop returns `Decoded(combined, code)`: one bit per whole chunk, in chunk order, 1 exactly for a positive correlation and 0 for a tie or a negative one |
| CdmaProofs.SignedBySign | cdma.js:11 | `SignedBy(bit, x)` is x times the bit's sign `bit === 1 ? 1 : -1` |
| CdmaProofs.DotSpread | cdma.js:11 | correlating a spread bit with any vector gives the code's correlation, negated for a 0 bit |
| CdmaProofs.SpreadsCorrelation | cdma.js:10-12 | with orthogonal codes, the correlations of all spread bits with code i sum to bit i's sign times code i's self-correlation |
| CdmaProofs.SpreadWindowsCorrelation | cdma.js:14-33 | when every signal's window is a spread bit, the combined window correlates with code i to bit i's sign times code i's self-correlation |
| CdmaProofs.EncodingWindows | cdma.js:10-12 | window k·len(code) of every station's encoding is that station's bit k spread over its code |
| CdmaProofs.WindowCorrelation | cdma.js:10-33 | the channel window at offset k·len(code) correlates with code i to station i's sign on bit k times the code's self-correlation |
| CdmaProofs.ChunkCorrelation | cdma.js:10-33 | chunk k of the channel correlates with code i to station i's sign on bit k times the code's self-correlation: all other stations cancel |
| CdmaProofs.RoundTrip | cdma.js:10-33 | with orthogonal codes and equal-length bit strings, decoding the channel with code i returns station i's bits exactly |
| Simulate.TrimStart | api/simulate.js:21 | `trim` drops a prefix made only of whitespace and stops at a non-whitespace character |
| Simulate.TrimEnd | api/simulate.js:21 | `trim` drops a suffix made only of whitespace and stops at a non-whitespace character |
| Simulate.FirstInvalidFrom | api/simulate.js:20-26 | returns none iff every station from `from` on is valid; otherwise it returns the first invalid one |
| Simulate.Validation | api/simulate.js:16-26 | NoStations iff the list is missing or empty; no error iff it is non-empty and every station is valid; otherwise InvalidStation(i+1) for the first invalid index i, with every earlier station valid |
| Simulate.ValidateStations | api/simulate.js:16-26 | the early-return loop returns exactly `Validation(stations)` |
| Simulate.CeilLog2 | api/simulate.js:28 | ⌈log2 k⌉: the least e with 2^e ≥ k |
| Simulate.WalshSize | api/simulate.js:28 | the matrix size is a power of two, at least the station count, and its half is below the count |
| Simulate.WalshSizeSmallest | api/simulate.js:28 | no power of two smaller than the chosen size holds all stations |
| Simulate.StationBits | api/simulate.js:32 | a validated station maps to one bit per trimmed character, 1 exactly for '1' |
| Simulate.StationData | api/simulate.js:31-32 | one bit string per station, in station order |
| Simulate.DecodeAll | api/simulate.js:38-40 | entry i is the channel decoded with code i |
| Simulate.SimulateErrors | api/simulate.js:16-26 | these conditions give these results: NoStations iff missing or empty; InvalidStation names a 1-based invalid station with all earlier ones valid; LengthMismatch iff all are valid but trimmed lengths differ; success iff non-empty, all valid and of one trimmed length |
| Simulate.SimulateOk | api/simulate.js:28-48 | a success runs the pipeline on accepted stations |
| Simulate.SimulateResult | api/simulate.js:42-48 | a success echoes the input, hands out the first len(stations) rows of the matrix of the chosen size, one entry per station in each array, and combines the encoded signals once |
| Simulate.SimulateEncodings | api/simulate.js:31-34 | station i is encoded with row i of the matrix after its trimmed characters become bits |
| Simulate.SimulateDecodings | api/simulate.js:38-40 | the channel divides into whole chunks of every code, and station i is decoded from it with its own code |
| Simulate.SimulateCodes | api/simulate.js:28-29 | the codes handed out are ±1 rows of the matrix size, pairwise orthogonal |
| Simulate.SimulateRoundTrip | api/simulate.js:28-48 | every station's decoded bits are exactly its own bits |
| CdmaExamples.WalshMatrixTwo | cdma.js:2-8 | H(2) is [[1, 1], [1, −1]] |
| CdmaExamples.WalshMatrixFour | cdma.js:2-8 | H(4) is [[1,1,1,1],[1,−1,1,−1],[1,1,−1,−1],[1,−1,−1,1]] |
| CdmaExamples.OneStationChannel | cdma.js:10-19 | station [1,0,1] with code [1] sends [1,−1,1], which is also the channel |
| CdmaExamples.OneStationDecode | cdma.js:21-33 | the channel [1,−1,1] decodes with code [1] to [1,0,1] |
| CdmaExamples.TwoStationChannel | cdma.js:10-19 | stations [1] and [0] with rows [1,1] and [1,−1] send [1,1] and [−1,1], and the channel is [0,2] |
| CdmaExamples.TwoStationDecode | cdma.js:21-33 | the channel [0,2] decodes to [1] with [1,1] and to [0] with [1,−1] |
| SimulateExamples.WalshSizes | api/simulate.js:28 | 1, 2, 3 and 5 stations get matrices of size 1, 2, 4 and 8 |
| SimulateExamples.SecondStationInvalid | api/simulate.js:20-26 | for ["1", " 2 "] the second station is reported invalid |

## Left out

- The HTTP layer of `api/simulate.js` is not modelled. This covers:
  - the 405 answer to non-POST methods;
  - status codes and JSON serialisation;
  - the `try`/`catch` that answers 500;
  - `console.error`.
- `displayWalshMatrix` is console output only. `server.js` and the browser
  code under `public/` are not part of this model.
- `Math.pow(2, Math.ceil(Math.log2(n)))` is computed in exact integers. The
  floating-point evaluation is not modelled. JavaScript numbers are modelled as
  unbounded integers: every chip, sum and length here is a small integer that
  a double holds exactly.
- Only station lists that are sequences of strings are modelled, whether
  missing (`None`) or present. The handler's behaviour on other request bodies
  is not modelled:
  - a falsy `stations` (`null`, `0`, `false`, `""`) fails `!stations` and is
    answered "No stations provided" (400), as a missing list is here;
  - a falsy entry (`null`, `0`, `false`) fails `!stations[i]` before `.trim()`
    is reached and is answered InvalidStation(i+1) (400); the empty string is
    the one falsy entry the model covers, and it gives the same error;
  - a truthy entry that is not a string (a number, an array, an object) makes
    `stations[i].trim()` throw, and the handler answers 500;
  - a string `stations` is walked one character at a time: `"12"` is answered
    "Station 2 has invalid data" (400), while `"10"` passes validation and then
    throws at `stations.map`, which answers 500;
  - an object or a number as `stations` has no `length`, so no station is
    checked, the size is `Math.pow(2, NaN)`, `generateWalshMatrix(NaN)` recurses
    until the stack overflows, and the handler answers 500.
- Simulate.Simulate: stations whose trimmed bit strings differ in length are
  rejected with `LengthMismatch`. The handler does not check this.
  `combineSignals` maps over the all-zero array of the first signal's length:
  - a shorter signal adds `undefined`, which gives NaN samples;
  - a longer signal's extra samples are ignored.

  So the handler returns NaN or truncated data instead of an error. The model
  fails fast with an explicit error instead.
- Cdma.Combine: requires a non-empty list of signals of one length. In
  `cdma.js`, an empty list throws on `encodedSignals[0]`; for unequal lengths see
  the previous item. The pipeline always passes a non-empty, equal-length list.
- Cdma.Decode: requires an aligned channel, that is, a length that is a
  multiple of a non-empty code (or an empty channel with an empty code, where
  0/0 is NaN and the loop never runs). `cdma.js` does not check this:
  - a length that is not a multiple makes `numChunks` fractional, and the loop
    then decodes a final, shorter chunk;
  - an empty code with a non-empty channel makes `numChunks` infinite and the
    loop never ends.

  The pipeline always passes aligned channels (`CombinedAligned`).
- Cdma.WalshMatrix: requires a power of two. For other sizes the JavaScript
  recursion halves to non-integers that are never 1, and it overflows the stack.
  The handler only asks for powers of two.
