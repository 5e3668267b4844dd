/** The worked examples of the CDMA core: H(2), H(4), one station alone and
    two one-bit stations, evaluated through the model. */
module CdmaExamples {
  import opened Cdma

  /** H(2) = [[1, 1], [1, −1]]. */
  lemma WalshMatrixTwo()
    ensures WalshMatrix(2) == [[1, 1], [1, -1]]
  {
    var p := WalshMatrix(1);
    assert p == [[1]];
    assert Negate([1]) == [-1];
    assert [1] + [1] == [1, 1];
    assert [1] + [-1] == [1, -1];
    var top, bottom := TopHalf(p), BottomHalf(p);
    assert top[0] == [1, 1];
    assert bottom[0] == [1, -1];
    assert top == [[1, 1]];
    assert bottom == [[1, -1]];
    assert WalshMatrix(2) == top + bottom;
  }

  /** H(4), the four-row matrix the doubling construction produces. */
  lemma WalshMatrixFour()
    ensures WalshMatrix(4) == [[1, 1, 1, 1], [1, -1, 1, -1], [1, 1, -1, -1], [1, -1, -1, 1]]
  {
    var p := WalshMatrix(2);
    WalshMatrixTwo();
    assert Negate([1, 1]) == [-1, -1];
    assert Negate([1, -1]) == [-1, 1];
    assert [1, 1] + [1, 1] == [1, 1, 1, 1];
    assert [1, -1] + [1, -1] == [1, -1, 1, -1];
    assert [1, 1] + [-1, -1] == [1, 1, -1, -1];
    assert [1, -1] + [-1, 1] == [1, -1, -1, 1];
    var top, bottom := TopHalf(p), BottomHalf(p);
    assert top[0] == [1, 1, 1, 1] && top[1] == [1, -1, 1, -1];
    assert bottom[0] == [1, 1, -1, -1] && bottom[1] == [1, -1, -1, 1];
    assert top == [[1, 1, 1, 1], [1, -1, 1, -1]];
    assert bottom == [[1, 1, -1, -1], [1, -1, -1, 1]];
    assert WalshMatrix(4) == top + bottom;
  }

  /** Two one-bit stations "1" and "0" with rows [1, 1] and [1, −1] send
      [1, 1] and [−1, 1]; the channel carries [0, 2]. */
  lemma TwoStationChannel()
    ensures Encodings([[1], [0]], [[1, 1], [1, -1]]) == [[1, 1], [-1, 1]]
    ensures Combine([[1, 1], [-1, 1]]) == [0, 2]
  {
    assert Negate([1, -1]) == [-1, 1];
    assert Encode([1], [1, 1]) == [1, 1];
    assert Encode([0], [1, -1]) == [-1, 1];
  }

  /** [0, 2] correlates to 2 with [1, 1] and to −2 with [1, −1]: the first
      station reads 1, the second 0. */
  lemma TwoStationDecode()
    ensures Decoded([0, 2], [1, 1]) == [1]
    ensures Decoded([0, 2], [1, -1]) == [0]
  {
    assert Chunk([0, 2], 2, 0) == [0, 2];
    assert Dot([0, 2], [1, 1]) == 2;
    assert Dot([0, 2], [1, -1]) == -2;
  }
  /** One station "101" alone with the 1×1 code [1]: it sends [1, −1, 1],
      which is also the channel. */
  lemma OneStationChannel()
    ensures Encode([1, 0, 1], [1]) == [1, -1, 1]
    ensures Combine([[1, -1, 1]]) == [1, -1, 1]
  {
    assert Negate([1]) == [-1];
    assert Encode([1], [1]) == [1];
    assert Encode([0, 1], [1]) == [-1] + [1];
  }

  /** The channel [1, −1, 1] of station "101" decodes with the code [1] back to [1, 0, 1]. */
  lemma OneStationDecode()
    ensures Decoded([1, -1, 1], [1]) == [1, 0, 1]
  {
    var c := [1, -1, 1];
    assert ChunkCount(c, [1]) == 3;
    assert Chunk(c, 1, 0) == [1] && Chunk(c, 1, 1) == [-1] && Chunk(c, 1, 2) == [1];
    assert Dot([1], [1]) == 1 && Dot([-1], [1]) == -1;
    assert DecodeChunks(c, [1], 2) == [1, 0];
  }
}
