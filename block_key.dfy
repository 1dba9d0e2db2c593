/**
 * The key a block is stored under in the world's map: the template string
 * `${posX}-${posY}`, where each coordinate prints as a JavaScript integer
 * does (decimal, no leading zeros, a leading '-' when negative). A parser
 * reads a key back; it is the partner that shows the format loses nothing.
 */
module BlockKey {

  datatype Option<T> = None | Some(value: T)

  function DigitChar(d: nat): (c: char)
    requires d < 10
    ensures '0' <= c <= '9'
  {
    (48 + d) as char
  }

  function DigitValue(c: char): (d: nat)
    requires '0' <= c <= '9'
    ensures d < 10
  {
    c as int - 48
  }

  predicate IsDigits(s: string) {
    forall i :: 0 <= i < |s| ==> '0' <= s[i] <= '9'
  }

  /** The decimal numeral of n: digits only, and no leading zero unless n is 0. */
  function NatToDecimal(n: nat): (s: string)
    ensures |s| >= 1 && IsDigits(s)
    ensures |s| > 1 ==> s[0] != '0'
  {
    if n < 10 then [DigitChar(n)] else NatToDecimal(n / 10) + [DigitChar(n % 10)]
  }

  /** How an integer-valued number prints: its numeral, after a '-' when negative. */
  function IntToDecimal(i: int): (s: string)
    ensures |s| >= 1
    ensures s[0] == '-' <==> i < 0
    ensures forall j :: 1 <= j < |s| ==> s[j] != '-'
  {
    if i < 0 then "-" + NatToDecimal(-i) else NatToDecimal(i)
  }

  /** The id `generate` gives the block at (posX, posY). */
  function BlockId(posX: int, posY: int): (key: string)
    ensures |key| >= 3
  {
    IntToDecimal(posX) + "-" + IntToDecimal(posY)
  }

  /** The value of a non-empty run of decimal digits; nothing for any other string. */
  function ParseNat(s: string): (r: Option<nat>)
    ensures r.Some? <==> |s| >= 1 && IsDigits(s)
  {
    if s == [] || !('0' <= s[|s| - 1] <= '9') then None
    else if |s| == 1 then Some(DigitValue(s[0]))
    else
      match ParseNat(s[..|s| - 1])
      case None => None
      case Some(n) => Some(n * 10 + DigitValue(s[|s| - 1]))
  }

  /** A numeral with an optional leading '-'. */
  function ParseInt(s: string): (r: Option<int>)
    ensures r.Some? ==> |s| >= 1
  {
    if |s| >= 1 && s[0] == '-' then
      match ParseNat(s[1..])
      case None => None
      case Some(n) => Some(-(n as int))
    else ParseNat(s)
  }

  /** The first '-' at or after index i, or |s| when there is none. */
  function NextDash(s: string, i: nat): (k: nat)
    requires i <= |s|
    ensures i <= k <= |s|
    ensures k < |s| ==> s[k] == '-'
    ensures forall j :: i <= j < k ==> s[j] != '-'
    decreases |s| - i
  {
    if i == |s| || s[i] == '-' then i else NextDash(s, i + 1)
  }

  /**
   * Reads a key back into a position: the separator is the first '-' after
   * the first character (a '-' in first place is the sign of posX).
   */
  function ParseBlockId(key: string): (r: Option<(int, int)>)
  {
    if |key| == 0 then None
    else
      var k := NextDash(key, 1);
      if k == |key| then None
      else
        match (ParseInt(key[..k]), ParseInt(key[k + 1..]))
        case (Some(x), Some(y)) => Some((x, y))
        case _ => None
  }

  lemma {:induction false} NatRoundTrip(n: nat)
    ensures ParseNat(NatToDecimal(n)) == Some(n)
  {
    if n >= 10 {
      var s := NatToDecimal(n);
      assert s[..|s| - 1] == NatToDecimal(n / 10);
      NatRoundTrip(n / 10);
    }
  }

  lemma IntRoundTrip(i: int)
    ensures ParseInt(IntToDecimal(i)) == Some(i)
  {
    if i < 0 {
      assert IntToDecimal(i)[1..] == NatToDecimal(-i);
      NatRoundTrip(-i);
    } else {
      NatRoundTrip(i);
    }
  }

  /** Reading a block's id gives back the position it was made for. */
  lemma BlockIdRoundTrip(posX: int, posY: int)
    ensures ParseBlockId(BlockId(posX, posY)) == Some((posX, posY))
  {
    var a, b := IntToDecimal(posX), IntToDecimal(posY);
    var key := BlockId(posX, posY);
    assert key[|a|] == '-';
    var k := NextDash(key, 1);
    assert k == |a|;
    assert key[..k] == a;
    assert key[k + 1..] == b;
    IntRoundTrip(posX);
    IntRoundTrip(posY);
  }

  /** Distinct positions never share a key, so they never share a block. */
  lemma BlockIdInjective(x: int, y: int, x': int, y': int)
    ensures BlockId(x, y) == BlockId(x', y') <==> x == x' && y == y'
  {
    BlockIdRoundTrip(x, y);
    BlockIdRoundTrip(x', y');
  }
}
