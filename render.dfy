/**
 * The text a Solution prints: the decimal rendering of std::to_string and
 * the two layouts of to_string (a flat list of weights, or the weights
 * grouped by bin).
 */
module Render {
  import opened Packing

  function DigitChar(d: int): char
    requires 0 <= d < 10
  {
    ('0' as int + d) as char
  }

  predicate IsDigit(c: char)
  {
    '0' as int <= c as int <= '9' as int
  }

  /** Decimal digits of a natural number, most significant first, no leading zero. */
  function NatString(n: nat): (s: string)
    ensures s != []
    ensures forall i :: 0 <= i < |s| ==> IsDigit(s[i])
    ensures (n == 0) == (s[0] == '0')
  {
    if n < 10 then [DigitChar(n)] else NatString(n / 10) + [DigitChar(n % 10)]
  }

  /** std::to_string of an int: a minus sign for negative values, then the digits. */
  function IntString(n: int): string
  {
    if n < 0 then "-" + NatString(-n) else NatString(n)
  }

  /** Reads a string of decimal digits back as a number. */
  function ParseNat(s: string): nat
    requires forall i :: 0 <= i < |s| ==> IsDigit(s[i])
  {
    if s == [] then 0
    else
      assert IsDigit(s[|s| - 1]);
      ParseNat(s[..|s| - 1]) * 10 + (s[|s| - 1] as int - '0' as int)
  }

  /** Reads an optional minus sign followed by decimal digits. */
  function ParseInt(s: string): int
    requires s != [] && s[0] != '-' ==> forall i :: 0 <= i < |s| ==> IsDigit(s[i])
    requires s != [] && s[0] == '-' ==> forall i :: 1 <= i < |s| ==> IsDigit(s[i])
  {
    if s != [] && s[0] == '-' then -(ParseNat(s[1..]) as int) else ParseNat(s)
  }

  /** The decimal rendering of a natural number reads back as that number. */
  lemma {:induction false} NatStringRoundTrip(n: nat)
    ensures ParseNat(NatString(n)) == n
  {
    if n >= 10 {
      NatStringRoundTrip(n / 10);
      var s := NatString(n);
      assert s[..|s| - 1] == NatString(n / 10);
    } else {
      var s := NatString(n);
      assert s[..0] == [];
    }
  }

  /** The rendering of an int reads back as that int. */
  lemma IntStringRoundTrip(n: int)
    ensures var s := IntString(n); s != [] && ParseInt(s) == n
  {
    if n < 0 {
      NatStringRoundTrip(-n);
      assert IntString(n)[1..] == NatString(-n);
    } else {
      NatStringRoundTrip(n);
    }
  }

  /** Weights separated by ", ", in sequence order. */
  function JoinWeights(ws: seq<int>): string
  {
    if ws == [] then ""
    else if |ws| == 1 then IntString(ws[0])
    else JoinWeights(ws[..|ws| - 1]) + ", " + IntString(ws[|ws| - 1])
  }

  /** Bins separated by " | ", each bin's weights separated by ", ". */
  function JoinBins(bins: seq<seq<int>>): string
  {
    if bins == [] then ""
    else if |bins| == 1 then JoinWeights(bins[0])
    else JoinBins(bins[..|bins| - 1]) + " | " + JoinWeights(bins[|bins| - 1])
  }

  lemma JoinWeightsPrefix(ws: seq<int>, i: int)
    requires 0 <= i < |ws|
    ensures JoinWeights(ws[..i + 1]) ==
      if i == 0 then IntString(ws[i]) else JoinWeights(ws[..i]) + ", " + IntString(ws[i])
  {
    assert ws[..i + 1][..i] == ws[..i];
  }

  lemma JoinBinsPrefix(bins: seq<seq<int>>, k: int)
    requires 0 <= k < |bins|
    ensures JoinBins(bins[..k + 1]) ==
      if k == 0 then JoinWeights(bins[k]) else JoinBins(bins[..k]) + " | " + JoinWeights(bins[k])
  {
    assert bins[..k + 1][..k] == bins[..k];
  }

  const Opening: string := "Solution(filled bins: "
  const Middle: string := "; garbage bags: "
  const Closing: string := ")"

  /** to_string of Solution.h: the filled-bin count, then every weight in order. */
  function FlatString(bags: seq<int>, limit: int): string
  {
    Opening + IntString(Count(bags, limit)) + Middle + JoinWeights(bags) + Closing
  }

  /** to_string of Solution.cpp: the number of bins, then the weights grouped by bin. */
  function BinnedString(bags: seq<int>, limit: int): string
  {
    var bins := Bins(bags, limit);
    Opening + IntString(|bins|) + Middle + JoinBins(bins) + Closing
  }

  /**
   * The two layouts print the same count, and they coincide whenever all the
   * bags share a single bin.
   */
  lemma {:induction false} LayoutsAgreeOnOneBin(bags: seq<int>, limit: int)
    ensures IntString(|Bins(bags, limit)|) == IntString(Count(bags, limit))
    ensures |Bins(bags, limit)| == 1 ==> BinnedString(bags, limit) == FlatString(bags, limit)
  {
    CountIsNumberOfBins(bags, limit);
    var bins := Bins(bags, limit);
    if |bins| == 1 {
      BinsFlattenToBags(bags, limit);
      assert bins[..|bins| - 1] == [];
      assert Flatten(bins) == Flatten([]) + bins[0];
      assert bins[0] == bags;
      assert JoinBins(bins) == JoinWeights(bags);
    }
  }
}
