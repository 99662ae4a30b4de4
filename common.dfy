/** Value helpers shared by every module: optional values, acceptance reports,
    the host language's integer division and rounding, and decimal strings. */
module Common {

  datatype Option<T> = None | Some(value: T) {
    function GetOr(default: T): T {
      match this
      case Some(v) => v
      case None => default
    }
  }

  /** The elements of a list the configuration may leave out (a null list);
      a missing list reads as empty. */
  function OrEmpty<T>(l: Option<seq<T>>): seq<T> {
    l.GetOr([])
  }

  /** What host code that can raise an exception does: it returns a value,
      or it throws the named exception. */
  datatype Outcome<T> = Returns(value: T) | Throws(exception: string)

  /** A translated message key with its arguments; translation is not modelled. */
  datatype Reason = Reason(key: string, args: seq<string>)

  /** An acceptance report: accepted or not, with an optional reason. The
      default value of the host's report is "not accepted, no reason". */
  datatype Report = Report(accepted: bool, reason: Option<Reason>)

  const Accept: Report := Report(true, None)
  const DefaultReport: Report := Report(false, None)

  function Reject(r: Reason): Report {
    Report(false, Some(r))
  }

  function Abs(x: int): nat {
    if x < 0 then -x else x
  }

  /** Integer division as the host language does it: truncated toward zero. */
  function TruncDiv(a: int, b: int): (q: int)
    requires b != 0
    ensures a >= 0 && b > 0 ==> q == a / b
    ensures a < 0 && b > 0 ==> q == -((-a) / b)
  {
    var q0 := Abs(a) / Abs(b);
    if (a < 0) == (b < 0) then q0 else -q0
  }

  /** Remainder as the host language does it: it takes the sign of the dividend. */
  function TruncMod(a: int, b: int): (r: int)
    requires b != 0
    ensures a == b * TruncDiv(a, b) + r
    ensures a >= 0 && b > 0 ==> r == a % b
  {
    a - b * TruncDiv(a, b)
  }

  /** Round to the nearest integer, halves to the even neighbour (the host's
      float-to-int rounding, here over exact reals). */
  function RoundToInt(x: real): (r: int)
    ensures x - 0.5 <= r as real <= x + 0.5
  {
    var f := x.Floor;
    var frac := x - f as real;
    if frac < 0.5 then f
    else if frac > 0.5 then f + 1
    else if f % 2 == 0 then f else f + 1
  }

  /** Scaling a tick count or amount by a multiplier and rounding, as the
      settings multipliers are applied. */
  function Scale(n: int, multiplier: real): int {
    RoundToInt(n as real * multiplier)
  }

  // ---------------------------------------------------------------------
  // Decimal strings: the host's int.ToString and int parsing.

  function DigitChar(d: int): char
    requires 0 <= d < 10
  {
    "0123456789"[d]
  }

  function CharDigit(c: char): Option<int> {
    if '0' <= c <= '9' then Some(c as int - '0' as int) else None
  }

  function NatToString(n: nat): (s: string)
    ensures |s| > 0
    decreases n
  {
    if n < 10 then [DigitChar(n)] else NatToString(n / 10) + [DigitChar(n % 10)]
  }

  function IntToString(i: int): (s: string)
    ensures |s| > 0
  {
    if i < 0 then "-" + NatToString(-i) else NatToString(i)
  }

  /** A non-empty run of decimal digits, read most significant first. */
  function ParseNat(s: string): Option<nat>
    decreases |s|
  {
    if |s| == 0 then None
    else
      var last := CharDigit(s[|s| - 1]);
      if last.None? then None
      else if |s| == 1 then Some(last.value)
      else
        var prefix := ParseNat(s[..|s| - 1]);
        if prefix.None? then None else Some(prefix.value * 10 + last.value)
  }

  function ParseInt(s: string): Option<int> {
    if |s| > 0 && s[0] == '-' then
      var n := ParseNat(s[1..]);
      if n.None? then None else Some(0 - n.value as int)
    else
      var n := ParseNat(s);
      if n.None? then None else Some(n.value)
  }

  lemma {:induction false} ParseNatToString(n: nat)
    ensures ParseNat(NatToString(n)) == Some(n)
    ensures NatToString(n)[0] != '-'
    decreases n
  {
    var s := NatToString(n);
    if n >= 10 {
      ParseNatToString(n / 10);
      assert s[..|s| - 1] == NatToString(n / 10);
      assert s[|s| - 1] == DigitChar(n % 10);
    }
  }

  /** Every integer's decimal string parses back to that integer. */
  lemma {:induction false} ParseIntToString(i: int)
    ensures ParseInt(IntToString(i)) == Some(i)
  {
    if i < 0 {
      ParseNatToString(-i);
      assert IntToString(i)[1..] == NatToString(-i);
    } else {
      ParseNatToString(i);
    }
  }

  /** A decimal string never contains the letter 'x'. */
  lemma {:induction false} NatToStringDigits(n: nat)
    ensures forall k :: 0 <= k < |NatToString(n)| ==> '0' <= NatToString(n)[k] <= '9'
    decreases n
  {
    if n >= 10 {
      NatToStringDigits(n / 10);
    }
  }
}
