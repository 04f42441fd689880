/**
  Window addresses as Hyprland spells them: lower-case hexadecimal without a prefix, of a 64-bit value.
 */
module WindowIds {
  import opened Wrappers

  const TWO_TO_THE_64: nat := 0x1_0000_0000_0000_0000
  const TWO_TO_THE_32: nat := 0x1_0000_0000

  function Digit(d: nat): char
    requires d < 16
  {
    "0123456789abcdef"[d]
  }

  function DigitValue(c: char): Option<nat> {
    if '0' <= c <= '9' then Some((c - '0') as nat)
    else if 'a' <= c <= 'f' then Some((c - 'a') as nat + 10)
    else if 'A' <= c <= 'F' then Some((c - 'A') as nat + 10)
    else None
  }

  function FmtAddress(address: nat): (s: string)
    ensures s != ""
  {
    if address < 16 then [Digit(address)] else FmtAddress(address / 16) + [Digit(address % 16)]
  }

  predicate AllHex(s: string) {
    forall i :: 0 <= i < |s| ==> DigitValue(s[i]).Some?
  }

  function HexValue(s: string): nat
    requires AllHex(s)
  {
    if s == "" then 0 else 16 * HexValue(s[..|s| - 1]) + DigitValue(s[|s| - 1]).value
  }

  /** Length of the longest run of hexadecimal digits at the front. */
  function HexRun(s: string): (n: nat)
    ensures n <= |s| && AllHex(s[..n])
    ensures n < |s| ==> DigitValue(s[n]).None?
  {
    if s == "" || DigitValue(s[0]).None? then 0
    else
      var n := HexRun(s[1..]);
      assert forall i :: 0 <= i < n ==> s[1..][i] == s[i + 1] && s[1..][..n][i] == s[i + 1];
      1 + n
  }

  /** `std::from_chars` in base 16 for an unsigned 64-bit result: the value and how much was read. */
  function FromChars(s: string): (Option<nat>, nat) {
    var n := HexRun(s);
    if n == 0 || HexValue(s[..n]) >= TWO_TO_THE_64 then (None, n) else (Some(HexValue(s[..n])), n)
  }

  function ParseHexAddress(raw: string): Option<nat> {
    if raw == "" then None
    else
      var trimmed := if |raw| >= 2 && raw[0] == '0' && (raw[1] == 'x' || raw[1] == 'X') then raw[2..] else raw;
      if trimmed == "" then None
      else
        var (value, end) := FromChars(trimmed);
        if value.None? || end != |trimmed| then None else value
  }

  function CanonicalWindowId(raw: string): string {
    match ParseHexAddress(raw)
    case None => ""
    case Some(address) => FmtAddress(address)
  }

  predicate IdMatch(a: string, b: string) {
    CanonicalWindowId(a) != "" && CanonicalWindowId(a) == CanonicalWindowId(b)
  }

  // ------------------------------------------------------------------ lemmas

  lemma DigitRoundTrip(d: nat)
    requires d < 16
    ensures DigitValue(Digit(d)) == Some(d)
  {
  }

  lemma {:induction false} FmtThenValue(address: nat)
    ensures AllHex(FmtAddress(address)) && HexValue(FmtAddress(address)) == address
  {
    hide Digit, DigitValue;
    DigitRoundTrip(address % 16);
    if address >= 16 {
      var front := FmtAddress(address / 16);
      FmtThenValue(address / 16);
      assert FmtAddress(address)[..|front|] == front;
    } else {
      assert FmtAddress(address)[..0] == "";
    }
  }

  /** Printing and parsing are inverse on every 64-bit address. */
  lemma ParseFmt(address: nat)
    requires address < TWO_TO_THE_64
    ensures ParseHexAddress(FmtAddress(address)) == Some(address)
  {
    hide FmtAddress, HexValue;
    var s := FmtAddress(address);
    FmtThenValue(address);
    assert |s| >= 2 ==> DigitValue(s[1]).Some?;
    assert HexRun(s) == |s|;
    assert s[..|s|] == s;
  }

  lemma FmtIsInjective(a: nat, b: nat)
    requires FmtAddress(a) == FmtAddress(b)
    ensures a == b
  {
    FmtThenValue(a);
    FmtThenValue(b);
  }

  /** Two spellings match exactly when both are addresses, and the same one: prefixes, upper case and
      leading zeros make no difference. */
  lemma MatchIsSameAddress(a: string, b: string)
    ensures IdMatch(a, b) <==> ParseHexAddress(a).Some? && ParseHexAddress(a) == ParseHexAddress(b)
  {
    if IdMatch(a, b) {
      FmtIsInjective(ParseHexAddress(a).value, ParseHexAddress(b).value);
    }
  }

  lemma CanonicalIsStable(raw: string)
    ensures CanonicalWindowId(CanonicalWindowId(raw)) == CanonicalWindowId(raw)
  {
    if ParseHexAddress(raw).Some? {
      ParseFmt(ParseHexAddress(raw).value);
    }
  }

  // ---------------------------------------------------- the two 32-bit halves

  /** The listener receives the address as two 32-bit halves. */
  function CoalesceAddress(hi: nat, lo: nat): (address: nat)
    requires hi < TWO_TO_THE_32 && lo < TWO_TO_THE_32
    ensures address < TWO_TO_THE_64
    ensures address / TWO_TO_THE_32 == hi && address % TWO_TO_THE_32 == lo
  {
    hi * TWO_TO_THE_32 + lo
  }
}
