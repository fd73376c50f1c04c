/**
  Account addresses as the wallet validates them: parsed from hexadecimal digits the way the Flow SDK
  does it, checked against the configured chain, and formatted.
 */
module Addresses {
  import opened Prelude

  const PREFIX := "0x"
  const DIGITS := "0123456789abcdef"

  function TrimPrefix(s: string, prefix: string): string {
    if prefix <= s then s[|prefix|..] else s
  }

  predicate IsHex(c: char) {
    '0' <= c <= '9' || 'a' <= c <= 'f' || 'A' <= c <= 'F'
  }

  function DigitOf(c: char): (d: nat)
    requires IsHex(c)
    ensures d < 16
  {
    if '0' <= c <= '9' then c as int - '0' as int
    else if 'a' <= c <= 'f' then c as int - 'a' as int + 10
    else c as int - 'A' as int + 10
  }

  /** The pairs of digits before the first that is none; the rest is ignored. */
  function Decodable(s: string): (digits: string)
    ensures forall i :: 0 <= i < |digits| ==> IsHex(digits[i])
  {
    if |s| >= 2 && IsHex(s[0]) && IsHex(s[1]) then s[..2] + Decodable(s[2..]) else ""
  }

  function HexValue(digits: string): nat
    requires forall i :: 0 <= i < |digits| ==> IsHex(digits[i])
  {
    if digits == "" then 0 else 16 * HexValue(digits[..|digits| - 1]) + DigitOf(digits[|digits| - 1])
  }

  /** An address is the last eight bytes, as a number. */
  function ToAddress(s: string): (address: nat)
    ensures address < TWO_TO_THE_64
  {
    var trimmed := TrimPrefix(s, PREFIX);
    HexValue(Decodable(if |trimmed| % 2 == 1 then "0" + trimmed else trimmed)) % TWO_TO_THE_64
  }

  function HexDigits(n: nat, count: nat): (digits: string)
    ensures |digits| == count && forall i :: 0 <= i < count ==> digits[i] in DIGITS
  {
    if count == 0 then "" else HexDigits(n / 16, count - 1) + [DIGITS[n % 16]]
  }

  function Format(address: nat): string {
    PREFIX + HexDigits(address, 16)
  }

  /** The formatted address, if it is valid on the configured chain. */
  function Validate(isValid: nat -> bool, s: string): Option<string> {
    if isValid(ToAddress(s)) then Some(Format(ToAddress(s))) else None
  }

  // Parsing what was formatted

  function Power16(k: nat): nat {
    if k == 0 then 1 else 16 * Power16(k - 1)
  }

  lemma DigitRoundTrip(d: nat)
    requires d < 16
    ensures IsHex(DIGITS[d]) && DigitOf(DIGITS[d]) == d
  {
  }

  lemma DigitIsHex(c: char)
    requires c in DIGITS
    ensures IsHex(c)
  {
  }

  lemma DigitsAreHex(s: string)
    requires forall i :: 0 <= i < |s| ==> s[i] in DIGITS
    ensures forall i :: 0 <= i < |s| ==> IsHex(s[i])
  {
    forall i | 0 <= i < |s|
      ensures IsHex(s[i])
    {
      DigitIsHex(s[i]);
    }
  }

  lemma {:induction false} DigitsRoundTrip(n: nat, count: nat)
    requires n < Power16(count)
    ensures forall i :: 0 <= i < count ==> IsHex(HexDigits(n, count)[i])
    ensures HexValue(HexDigits(n, count)) == n
    decreases count
  {
    DigitsAreHex(HexDigits(n, count));
    if count > 0 {
      DigitsRoundTrip(n / 16, count - 1);
      DigitRoundTrip(n % 16);
      assert HexDigits(n, count)[..count - 1] == HexDigits(n / 16, count - 1);
    }
  }

  lemma {:induction false} DecodableAll(s: string)
    requires |s| % 2 == 0 && forall i :: 0 <= i < |s| ==> IsHex(s[i])
    ensures Decodable(s) == s
  {
    if s != "" {
      DecodableAll(s[2..]);
      assert s[..2] + s[2..] == s;
    }
  }

  lemma Power16Of16()
    ensures Power16(16) == TWO_TO_THE_64
  {
    assert Power16(4) == 0x1_0000;
    assert Power16(8) == 0x1_0000_0000;
    assert Power16(12) == 0x1_0000_0000_0000;
  }

  lemma DigitsToAddress(digits: string)
    requires |digits| % 2 == 0 && forall i :: 0 <= i < |digits| ==> IsHex(digits[i])
    ensures ToAddress(PREFIX + digits) == HexValue(digits) % TWO_TO_THE_64
  {
    assert TrimPrefix(PREFIX + digits, PREFIX) == digits;
    DecodableAll(digits);
  }

  lemma Below(n: nat)
    requires n < TWO_TO_THE_64
    ensures n % TWO_TO_THE_64 == n
  {
  }

  /** A formatted address parses back to itself. */
  lemma FormatRoundTrip(address: nat)
    requires address < TWO_TO_THE_64
    ensures ToAddress(Format(address)) == address
  {
    Power16Of16();
    DigitsRoundTrip(address, 16);
    DigitsToAddress(HexDigits(address, 16));
    Below(address);
  }

  /** Valid addresses are formatted alike exactly when they are one. */
  lemma ValidateExactly(isValid: nat -> bool, s: string, u: string)
    requires isValid(ToAddress(s)) && isValid(ToAddress(u))
    ensures Validate(isValid, s) == Validate(isValid, u) <==> ToAddress(s) == ToAddress(u)
  {
    FormatRoundTrip(ToAddress(s));
    FormatRoundTrip(ToAddress(u));
  }

  /** The prefix does not matter, unless there are two. */
  predicate SinglePrefix(s: string) {
    !(PREFIX <= TrimPrefix(s, PREFIX))
  }

  lemma TrimmedAddress(s: string)
    requires SinglePrefix(s)
    ensures ToAddress(TrimPrefix(s, PREFIX)) == ToAddress(s)
  {
  }

  /** A formatted address has one prefix and no dot. */
  lemma FormatShape(address: nat)
    ensures SinglePrefix(Format(address)) && '.' !in Format(address)
  {
    var digits := HexDigits(address, 16);
    assert TrimPrefix(Format(address), PREFIX) == digits;
    assert digits[1] in DIGITS && 'x' !in DIGITS;
    forall i | 0 <= i < 16
      ensures digits[i] != '.'
    {
      assert '.' !in DIGITS;
    }
  }
}
