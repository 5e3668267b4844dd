/** Worked examples of the request checks: Walsh sizes for a few station
    counts, and the number reported for an invalid station. */
module SimulateExamples {
  import opened Cdma
  import opened Simulate

  /** Three stations need a 4×4 matrix, five an 8×8 one. */
  lemma WalshSizes()
    ensures WalshSize(1) == 1 && WalshSize(2) == 2 && WalshSize(3) == 4 && WalshSize(5) == 8
  {
    assert CeilLog2(2) == 1;
    assert CeilLog2(3) == 2;
    assert CeilLog2(5) == 3;
  }

  /** "1" passes; " 2 " fails, as the second station. */
  lemma SecondStationInvalid()
    ensures Validation(Some(["1", " 2 "])) == Some(InvalidStation(2))
  {
    var list := ["1", " 2 "];
    assert !IsWhitespace('1');
    assert TrimStart("1") == "1" && TrimEnd("1") == "1";
    assert ValidStation(list[0]);
    assert IsWhitespace(' ') && !IsWhitespace('2');
    assert TrimStart(" 2 ") == "2 ";
    assert TrimEnd("2 ") == "2";
    assert !ValidStation(list[1]);
  }
}
