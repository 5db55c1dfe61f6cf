/** Storage addresses and the text `std::ostream` writes for an object pointer
    (`const void*`): "0x" followed by lower-case hexadecimal digits. */
module Address {

  /** The address of an object or function; never null. */
  type Addr = a: nat | a != 0 witness 1

  predicate IsHexDigit(c: char)
  {
    '0' <= c <= '9' || 'a' <= c <= 'f'
  }

  /** The lower-case hexadecimal digit for d. */
  function HexChar(d: nat): (c: char)
    requires d < 16
    ensures IsHexDigit(c)
  {
    if d < 10 then ('0' as int + d) as char else ('a' as int + d - 10) as char
  }

  /** The value of a hexadecimal digit. */
  function DigitValue(c: char): (d: nat)
    requires IsHexDigit(c)
    ensures d < 16
    ensures HexChar(d) == c
  {
    if c <= '9' then c as int - '0' as int else c as int - 'a' as int + 10
  }

  /** n in base 16, most significant digit first, without leading zeros. */
  function HexDigits(n: nat): (s: string)
    ensures |s| > 0
    ensures forall i :: 0 <= i < |s| ==> IsHexDigit(s[i])
    decreases n
  {
    if n < 16 then [HexChar(n)] else HexDigits(n / 16) + [HexChar(n % 16)]
  }

  /** Reads a string of hexadecimal digits back as a number. */
  function ParseHex(s: string): nat
    requires forall i :: 0 <= i < |s| ==> IsHexDigit(s[i])
  {
    if |s| == 0 then 0 else 16 * ParseHex(s[..|s| - 1]) + DigitValue(s[|s| - 1])
  }

  lemma {:induction false} HexRoundTrip(n: nat)
    ensures ParseHex(HexDigits(n)) == n
    decreases n
  {
    var s := HexDigits(n);
    if n < 16 {
      assert s[..|s| - 1] == [];
    } else {
      assert s[..|s| - 1] == HexDigits(n / 16);
      HexRoundTrip(n / 16);
    }
  }

  /** What `out << p` writes for a non-null object pointer p: a text that
      reads back as the address. */
  function AddressText(a: Addr): (s: string)
    ensures IsAddressText(s)
    ensures ParseAddress(s) == a
  {
    HexRoundTrip(a);
    assert ("0x" + HexDigits(a))[2..] == HexDigits(a);
    "0x" + HexDigits(a)
  }

  /** A string shaped like an address: the "0x" prefix and at least one hexadecimal digit. */
  predicate IsAddressText(s: string)
  {
    |s| > 2 && s[0] == '0' && s[1] == 'x' && forall i :: 2 <= i < |s| ==> IsHexDigit(s[i])
  }

  /** Reads an address back from its text. */
  function ParseAddress(s: string): nat
    requires IsAddressText(s)
  {
    ParseHex(s[2..])
  }

  /** Every address text is well-shaped, contains no '>' and reads back as the address. */
  lemma AddressRoundTrip(a: Addr)
    ensures IsAddressText(AddressText(a))
    ensures '>' !in AddressText(a)
    ensures ParseAddress(AddressText(a)) == a
  {
    var s := AddressText(a);
    assert s[2..] == HexDigits(a);
    HexRoundTrip(a);
  }

  /** Distinct addresses are written differently. */
  lemma AddressTextInjective(a: Addr, b: Addr)
    ensures AddressText(a) == AddressText(b) <==> a == b
  {
    AddressRoundTrip(a);
    AddressRoundTrip(b);
  }
}
