/** A model of the simulation step of api/simulate.js: validate the stations,
    choose the Walsh matrix size, give row i to station i, encode every
    station, combine the signals once and decode every station with its own
    row. The HTTP layer around it (method check, status codes, the catch-all
    error) is not modelled; the step becomes a function from the request's
    `stations` to an error or a result. */
module Simulate {
  import opened Cdma
  import opened CdmaProofs

  datatype Option<T> = None | Some(value: T)

  datatype Result<T, E> = Ok(value: T) | Err(error: E)

  /** Why a request is rejected. */
  datatype SimError =
    | NoStations                   // "No stations provided"
    | InvalidStation(station: nat) // "Station <station> has invalid data": station is 1-based
    | LengthMismatch               // stations of different lengths (see README, "Left out")

  /** The response body of a successful simulation, every array in station order. */
  datatype Simulation = Simulation(
    originalData: seq<string>,
    walshCodes: seq<seq<int>>,
    encodedSignals: seq<seq<int>>,
    combined: seq<int>,
    decoded: seq<seq<int>>)

  // ---------------------------------------------------------------------
  // Input validation (api/simulate.js:16-26)
  // ---------------------------------------------------------------------

  /** The characters `String.prototype.trim` removes: the ECMAScript WhiteSpace
      (tab, vertical tab, form feed, space, no-break space, byte order mark and
      the Unicode space separators) and LineTerminator code points. */
  predicate IsWhitespace(c: char)
  {
    c == '\t' || c == '\U{000B}' || c == '\U{000C}' || c == ' ' || c == '\U{00A0}'
    || c == '\U{FEFF}' || c == '\U{1680}' || ('\U{2000}' <= c <= '\U{200A}')
    || c == '\U{202F}' || c == '\U{205F}' || c == '\U{3000}'
    || c == '\n' || c == '\r' || c == '\U{2028}' || c == '\U{2029}'
  }

  /** Drops leading whitespace. */
  function TrimStart(s: string): (r: string)
    ensures |r| <= |s| && r == s[|s| - |r|..]
    ensures forall k :: 0 <= k < |s| - |r| ==> IsWhitespace(s[k])
    ensures r == [] || !IsWhitespace(r[0])
  {
    if |s| > 0 && IsWhitespace(s[0]) then TrimStart(s[1..]) else s
  }

  /** Drops trailing whitespace. */
  function TrimEnd(s: string): (r: string)
    ensures |r| <= |s| && r == s[..|r|]
    ensures forall k :: |r| <= k < |s| ==> IsWhitespace(s[k])
    ensures r == [] || !IsWhitespace(r[|r| - 1])
  {
    if |s| > 0 && IsWhitespace(s[|s| - 1]) then TrimEnd(s[..|s| - 1]) else s
  }

  /** `s.trim()`. */
  function Trim(s: string): string
  {
    TrimEnd(TrimStart(s))
  }

  /** The regular expression /^[01]+$/: one or more characters, each '0' or '1'. */
  predicate IsBinaryString(s: string)
  {
    |s| > 0 && forall k :: 0 <= k < |s| ==> s[k] == '0' || s[k] == '1'
  }

  /** The station passes `!stations[i] || !/^[01]+$/.test(stations[i].trim())` unrejected. */
  predicate ValidStation(s: string)
  {
    |s| > 0 && IsBinaryString(Trim(s))
  }

  /** The first station from index `from` on that fails validation, if any. */
  function FirstInvalidFrom(stations: seq<string>, from: nat): (r: Option<nat>)
    ensures r.None? <==> forall k :: from <= k < |stations| ==> ValidStation(stations[k])
    ensures r.Some? ==>
      from <= r.value < |stations| && !ValidStation(stations[r.value]) &&
      forall k :: from <= k < r.value ==> ValidStation(stations[k])
    decreases |stations| - from
  {
    if from >= |stations| then None
    else if !ValidStation(stations[from]) then Some(from)
    else FirstInvalidFrom(stations, from + 1)
  }

  /** The rejection, if any, of lines 16-26: no stations at all, or the first
      invalid station, named by its 1-based number. */
  function Validation(stations: Option<seq<string>>): (r: Option<SimError>)
    ensures r == Some(NoStations) <==> stations.None? || |stations.value| == 0
    ensures r.None? <==>
      stations.Some? && |stations.value| > 0 &&
      forall k :: 0 <= k < |stations.value| ==> ValidStation(stations.value[k])
    ensures r.Some? && r.value.InvalidStation? ==>
      stations.Some? && 1 <= r.value.station <= |stations.value| &&
      !ValidStation(stations.value[r.value.station - 1]) &&
      forall k :: 0 <= k < r.value.station - 1 ==> ValidStation(stations.value[k])
    ensures r != Some(LengthMismatch)
  {
    if stations.None? || |stations.value| == 0 then Some(NoStations)
    else
      match FirstInvalidFrom(stations.value, 0)
      case Some(i) => Some(InvalidStation(i + 1))
      case None => None
  }

  /** The validation loop as the handler runs it, returning at the first
      rejection. */
  method ValidateStations(stations: Option<seq<string>>) returns (err: Option<SimError>)
    ensures err == Validation(stations)
  {
    if stations.None? || |stations.value| == 0 {
      return Some(NoStations);
    }
    var list := stations.value;
    for i := 0 to |list|
      invariant FirstInvalidFrom(list, i) == FirstInvalidFrom(list, 0)
    {
      if !ValidStation(list[i]) {
        return Some(InvalidStation(i + 1));
      }
    }
    return None;
  }

  // ---------------------------------------------------------------------
  // The Walsh size (api/simulate.js:28)
  // ---------------------------------------------------------------------

  /** 2^e, `Math.pow(2, e)`. */
  function Pow2(e: nat): (r: nat)
    ensures r >= 1
  {
    if e == 0 then 1 else 2 * Pow2(e - 1)
  }

  /** ⌈log2 k⌉ for k ≥ 1: the least e with 2^e ≥ k. */
  function CeilLog2(k: nat): (e: nat)
    ensures Pow2(e) >= k
    ensures e == 0 || Pow2(e - 1) < k
  {
    if k <= 1 then 0 else 1 + CeilLog2((k + 1) / 2)
  }

  lemma {:induction false} Pow2IsPowerOfTwo(e: nat)
    ensures IsPowerOfTwo(Pow2(e))
  {
    if e > 0 {
      Pow2IsPowerOfTwo(e - 1);
    }
  }

  /** `Math.pow(2, Math.ceil(Math.log2(count)))`, in integers: a power of two,
      at least `count`, and with half of it below `count`. */
  function WalshSize(count: nat): (n: nat)
    requires count >= 1
    ensures IsPowerOfTwo(n) && count <= n
    ensures n == 1 || n / 2 < count
  {
    Pow2IsPowerOfTwo(CeilLog2(count));
    Pow2(CeilLog2(count))
  }

  /** A power of two below another is at most its half. */
  lemma {:induction false} PowerOfTwoBelow(p: nat, n: nat)
    requires IsPowerOfTwo(p) && IsPowerOfTwo(n) && p < n
    ensures p <= n / 2
  {
    if p > 1 {
      PowerOfTwoBelow(p / 2, n / 2);
    }
  }

  /** No smaller power of two holds `count` rows. */
  lemma WalshSizeSmallest(count: nat, p: nat)
    requires count >= 1
    requires IsPowerOfTwo(p) && count <= p
    ensures WalshSize(count) <= p
  {
    var n := WalshSize(count);
    if p < n {
      PowerOfTwoBelow(p, n);
    }
  }

  // ---------------------------------------------------------------------
  // The pipeline (api/simulate.js:28-48)
  // ---------------------------------------------------------------------

  /** `bits.trim().split("").map(Number)` on a validated station. */
  function StationBits(s: string): (bits: seq<int>)
    requires ValidStation(s)
    ensures |bits| == |Trim(s)| && IsBits(bits)
    ensures forall k :: 0 <= k < |bits| ==> (bits[k] == 1 <==> Trim(s)[k] == '1')
  {
    var t := Trim(s);
    seq(|t|, k requires 0 <= k < |t| => if t[k] == '1' then 1 else 0)
  }

  /** Every station's bits, in station order. */
  function StationData(list: seq<string>): (data: seq<seq<int>>)
    requires forall k :: 0 <= k < |list| ==> ValidStation(list[k])
    ensures |data| == |list|
    ensures forall k :: 0 <= k < |list| ==> data[k] == StationBits(list[k])
  {
    seq(|list|, idx requires 0 <= idx < |list| => StationBits(list[idx]))
  }

  /** `codes.map(code => decode(combined, code))`. */
  function DecodeAll(combined: seq<int>, codes: seq<seq<int>>): (decoded: seq<seq<int>>)
    requires forall i :: 0 <= i < |codes| ==> Aligned(combined, codes[i])
    ensures |decoded| == |codes|
    ensures forall i :: 0 <= i < |codes| ==> decoded[i] == Decoded(combined, codes[i])
  {
    seq(|codes|, i requires 0 <= i < |codes| => Decoded(combined, codes[i]))
  }

  /** Stations the pipeline accepts: all valid, all of one length. */
  predicate Runnable(list: seq<string>)
  {
    |list| > 0 && (forall k :: 0 <= k < |list| ==> ValidStation(list[k])) &&
    SameLength(StationData(list))
  }

  /** Lines 28-48 on validated stations: size, matrix, encode, combine, decode. */
  function Pipeline(list: seq<string>): Simulation
    requires Runnable(list)
  {
    var data := StationData(list);
    var size := WalshSize(|list|);
    var walshMatrix := WalshMatrix(size);
    var codes := walshMatrix[..|list|];
    CombinedAligned(data, codes);
    var encodedSignals := Encodings(data, codes);
    var combined := Combine(encodedSignals);
    var decoded := DecodeAll(combined, codes);
    Simulation(list, codes, encodedSignals, combined, decoded)
  }

  /** The simulation step of the handler. */
  function Simulate(stations: Option<seq<string>>): Result<Simulation, SimError>
  {
    match Validation(stations)
    case Some(e) => Err(e)
    case None =>
      if !SameLength(StationData(stations.value)) then Err(LengthMismatch)
      else Ok(Pipeline(stations.value))
  }

  // ---------------------------------------------------------------------
  // Properties of the simulation step
  // ---------------------------------------------------------------------

  /** Which requests fail, and with which error: a missing or empty station list
      first, then the first invalid station, then differing lengths. */
  lemma SimulateErrors(stations: Option<seq<string>>)
    ensures Simulate(stations) == Err(NoStations) <==> stations.None? || |stations.value| == 0
    ensures Simulate(stations).Err? && Simulate(stations).error.InvalidStation? ==>
      stations.Some? && 1 <= Simulate(stations).error.station <= |stations.value| &&
      !ValidStation(stations.value[Simulate(stations).error.station - 1]) &&
      forall k :: 0 <= k < Simulate(stations).error.station - 1 ==> ValidStation(stations.value[k])
    ensures Simulate(stations) == Err(LengthMismatch) <==>
      Validation(stations).None? &&
      exists k :: 0 <= k < |stations.value| && |Trim(stations.value[k])| != |Trim(stations.value[0])|
    ensures Simulate(stations).Ok? <==>
      stations.Some? && |stations.value| > 0 &&
      (forall k :: 0 <= k < |stations.value| ==> ValidStation(stations.value[k])) &&
      (forall k :: 0 <= k < |stations.value| ==> |Trim(stations.value[k])| == |Trim(stations.value[0])|)
  {
    if Validation(stations).None? {
      var list := stations.value;
      var data := StationData(list);
      forall k | 0 <= k < |list|
        ensures |data[k]| == |Trim(list[k])|
      {
      }
      assert SameLength(data) <==>
        forall k :: 0 <= k < |list| ==> |Trim(list[k])| == |Trim(list[0])|;
    }
  }

  /** A successful simulation ran the pipeline on accepted stations. */
  lemma SimulateOk(stations: Option<seq<string>>)
    requires Simulate(stations).Ok?
    ensures stations.Some? && Runnable(stations.value)
    ensures Simulate(stations) == Ok(Pipeline(stations.value))
  {
  }

  /** A successful result echoes the input, hands out the first rows of the
      Walsh matrix of the chosen size, and combines the encoded signals once. */
  lemma SimulateResult(stations: Option<seq<string>>)
    requires Simulate(stations).Ok?
    ensures var list, sim := stations.value, Simulate(stations).value;
      var size := WalshSize(|list|);
      sim.originalData == list &&
      |sim.walshCodes| == |sim.encodedSignals| == |sim.decoded| == |list| &&
      sim.walshCodes == WalshMatrix(size)[..|list|] &&
      SameLength(sim.encodedSignals) &&
      sim.combined == Combine(sim.encodedSignals)
  {
    SimulateOk(stations);
  }

  /** Station i is validated and encoded, after its characters are mapped to
      bits, with row i of the Walsh matrix. */
  lemma SimulateEncodings(stations: Option<seq<string>>)
    requires Simulate(stations).Ok?
    ensures var list, sim := stations.value, Simulate(stations).value;
      var size := WalshSize(|list|);
      |sim.encodedSignals| == |list| &&
      (forall i :: 0 <= i < |list| ==> ValidStation(list[i])) &&
      (forall i :: 0 <= i < |list| ==>
        sim.encodedSignals[i] == Encode(StationBits(list[i]), WalshMatrix(size)[i]))
  {
    SimulateOk(stations);
  }

  /** Station i is decoded from the combined signal with its own code. */
  lemma SimulateDecodings(stations: Option<seq<string>>)
    requires Simulate(stations).Ok?
    ensures var list, sim := stations.value, Simulate(stations).value;
      |sim.walshCodes| == |sim.decoded| == |list| &&
      (forall i :: 0 <= i < |list| ==>
        Aligned(sim.combined, sim.walshCodes[i]) &&
        sim.decoded[i] == Decoded(sim.combined, sim.walshCodes[i]))
  {
    SimulateOk(stations);
    var list := stations.value;
    CombinedAligned(StationData(list), WalshMatrix(WalshSize(|list|))[..|list|]);
  }

  /** The codes handed out are distinct rows of one Walsh matrix: ±1 chips,
      all of the matrix size, pairwise orthogonal. */
  lemma SimulateCodes(stations: Option<seq<string>>)
    requires Simulate(stations).Ok?
    ensures var list, sim := stations.value, Simulate(stations).value;
      var size := WalshSize(|list|);
      |list| <= size && Orthogonal(sim.walshCodes) &&
      forall i, j :: 0 <= i < |list| && 0 <= j < size ==>
        |sim.walshCodes[i]| == size && IsChip(sim.walshCodes[i][j])
  {
    SimulateOk(stations);
    var list := stations.value;
    WalshRowsOrthogonal(WalshSize(|list|), |list|);
  }

  /** Every station decodes to exactly its own bits. */
  lemma SimulateRoundTrip(stations: Option<seq<string>>)
    requires Simulate(stations).Ok?
    ensures var list, sim := stations.value, Simulate(stations).value;
      forall i :: 0 <= i < |list| ==> sim.decoded[i] == StationBits(list[i])
  {
    SimulateOk(stations);
    var list, sim := stations.value, Simulate(stations).value;
    var size := WalshSize(|list|);
    var data := StationData(list);
    var codes := WalshMatrix(size)[..|list|];
    WalshRowsOrthogonal(size, |list|);
    forall i | 0 <= i < |list|
      ensures sim.decoded[i] == data[i]
    {
      RoundTrip(data, codes, i);
    }
  }
}
