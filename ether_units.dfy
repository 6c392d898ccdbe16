/** Ether amounts as 18-decimal fixed-point strings: the conversions
    `ethers.formatEther` (wei to text) and `ethers.parseEther` (text to wei)
    that the wallet service applies to balances, amounts and fees. */
module EtherUnits {
  import opened Results
  import opened Decimal

  /** One ether is 10^18 wei. */
  const DECIMALS: nat := 18
  const WEI_PER_ETHER: nat := 1_000_000_000_000_000_000

  lemma WeiPerEther()
    ensures Pow10(DECIMALS) == WEI_PER_ETHER
  {
    assert Pow10(3) == 1000;
    assert Pow10(6) == 1000 * Pow10(3);
    assert Pow10(9) == 1000 * Pow10(6);
    assert Pow10(12) == 1000 * Pow10(9);
    assert Pow10(15) == 1000 * Pow10(12);
    assert Pow10(18) == 1000 * Pow10(15);
  }

  /** The digits of `s` widened to `width` with leading zeros. */
  function PadLeft(s: string, width: nat): (p: string)
    ensures |p| == if |s| < width then width else |s|
  {
    if |s| < width then Zeros(width - |s|) + s else s
  }

  /** Drops trailing '0' digits but keeps at least one digit. */
  function TrimFraction(s: string): (t: string)
    requires |s| >= 1
    ensures 1 <= |t| <= |s| && t == s[..|t|]
    ensures forall i :: |t| <= i < |s| ==> s[i] == '0'
    ensures |t| > 1 ==> t[|t| - 1] != '0'
    decreases |s|
  {
    if |s| > 1 && s[|s| - 1] == '0' then TrimFraction(s[..|s| - 1]) else s
  }

  /** `formatEther(wei)`: the whole ethers without leading zeros, a point,
      and the 18-digit fraction with its trailing zeros removed (at least one
      digit stays, so zero prints as "0.0"). */
  function FormatEther(wei: nat): (s: string)
    ensures '.' in s
  {
    var whole := Show(wei / WEI_PER_ETHER);
    var fraction := PadLeft(Show(wei % WEI_PER_ETHER), DECIMALS);
    assert |fraction| >= 1;
    var text := whole + "." + TrimFraction(fraction);
    assert text[|whole|] == '.';
    text
  }

  /** Position of the first '.' in `s`, or |s| when there is none. */
  function DotIndex(s: string): (k: nat)
    ensures k <= |s|
    ensures k < |s| ==> s[k] == '.'
    ensures forall i :: 0 <= i < k ==> s[i] != '.'
    decreases |s|
  {
    if s == [] then 0
    else if s[0] == '.' then 0
    else 1 + DotIndex(s[1..])
  }

  /** `parseEther(text)`: an optional '-', then the unsigned amount. Negative
      zero ("-0", "-.0", ...) is zero; a negative non-zero amount has no
      `nat` value and is None here (the program's send and gas estimate fail
      on it all the same). None is the library's throw. */
  function ParseEther(s: string): (r: Option<nat>)
    ensures r.Some? ==> |s| >= 1
    ensures s != [] && s[0] == '-' ==> r.None? || r == Some(0)
    ensures s != [] && s[0] == '-' && ParseUnsigned(s[1..]) == Some(0) ==> r == Some(0)
  {
    if s != [] && s[0] == '-' then
      if ParseUnsigned(s[1..]) == Some(0) then Some(0) else None
    else ParseUnsigned(s)
  }

  /** Negative zero is zero; a negative non-zero amount is refused. */
  lemma NegativeZero()
    ensures ParseEther("-0") == Some(0)
    ensures ParseEther("-1") == None
  {
    assert DotIndex("0") == 1;
    assert Value("0") == 0;
    assert DotIndex("1") == 1;
    assert Value("1") == 1;
  }

  /** The unsigned amounts: optional whole digits, an optional point and
      optional fraction digits, with at least one digit in all; fraction
      digits beyond the 18th must be zeros. */
  function ParseUnsigned(s: string): (r: Option<nat>)
    ensures r.Some? ==> |s| >= 1
  {
    var k := DotIndex(s);
    var whole := s[..k];
    var fraction := if k < |s| then s[k + 1..] else "";
    if !AllDigits(whole) || !AllDigits(fraction) || |whole| + |fraction| == 0 then None
    else if |fraction| > DECIMALS && !AllZeroDigits(fraction[DECIMALS..]) then None
    else
      var kept := if |fraction| > DECIMALS then fraction[..DECIMALS] else fraction;
      Some(Value(whole) * WEI_PER_ETHER + Value(kept) * Pow10(DECIMALS - |kept|))
  }

  predicate AllZeroDigits(s: string) {
    forall i :: 0 <= i < |s| ==> s[i] == '0'
  }

  /** The 18-digit fraction of a wei amount below one ether denotes it. */
  lemma FractionDigits(r: nat)
    requires r < WEI_PER_ETHER
    ensures |PadLeft(Show(r), DECIMALS)| == DECIMALS
    ensures AllDigits(PadLeft(Show(r), DECIMALS))
    ensures Value(PadLeft(Show(r), DECIMALS)) == r
  {
    WeiPerEther();
    ShowLength(r, DECIMALS);
    ValueWithLeadingZeros(DECIMALS - |Show(r)|, Show(r));
    ValueOfShow(r);
  }

  /** Splitting "whole.fraction" at its first point. */
  lemma SplitAtPoint(whole: string, fraction: string)
    requires AllDigits(whole)
    ensures DotIndex(whole + "." + fraction) == |whole|
    ensures (whole + "." + fraction)[..|whole|] == whole
    ensures (whole + "." + fraction)[|whole| + 1..] == fraction
  {
    var s := whole + "." + fraction;
    assert forall i :: 0 <= i < |whole| ==> s[i] == whole[i];
    assert s[|whole|] == '.';
  }

  /** Parsing what `FormatEther` printed gives back exactly the same number
      of wei: the formatting loses nothing. */
  lemma ParseFormatEther(wei: nat)
    ensures ParseEther(FormatEther(wei)) == Some(wei)
  {
    FormatEtherUnsigned(wei);
    ParseUnsignedFormatEther(wei);
  }

  /** The printed text starts with a digit, not a sign. */
  lemma FormatEtherUnsigned(wei: nat)
    ensures FormatEther(wei) != [] && IsDigit(FormatEther(wei)[0])
  {
    var whole := Show(wei / WEI_PER_ETHER);
    assert FormatEther(wei)[0] == whole[0];
  }

  /** Read as an unsigned amount, the printed text denotes `wei`. */
  lemma ParseUnsignedFormatEther(wei: nat)
    ensures ParseUnsigned(FormatEther(wei)) == Some(wei)
  {
    var q, r := wei / WEI_PER_ETHER, wei % WEI_PER_ETHER;
    var whole := Show(q);
    var fraction := PadLeft(Show(r), DECIMALS);
    FractionDigits(r);
    var kept := TrimFraction(fraction);
    assert AllDigits(kept);
    SplitAtPoint(whole, kept);
    var dropped := DECIMALS - |kept|;
    assert fraction == kept + Zeros(dropped);
    ValueWithTrailingZeros(kept, dropped);
    ValueOfShow(q);
    assert Value(kept) * Pow10(dropped) == r;
    assert FormatEther(wei) == whole + "." + kept;
  }
}
