/** Bytes, and the decimal rendering of non-negative offsets that the range
    negotiation puts on the wire (Go's strconv.FormatInt(x, 10) for x >= 0). */
module Text {

  /** One byte on the wire. */
  type byte = x: int | 0 <= x < 256

  function Min(a: int, b: int): int { if a <= b then a else b }

  predicate IsDigit(b: byte) { 0x30 <= b <= 0x39 }

  function Pow10(k: nat): nat { if k == 0 then 1 else 10 * Pow10(k - 1) }

  /** The ASCII decimal digits of n, most significant first. */
  function Decimal(n: nat): (r: seq<byte>)
    ensures 0 < |r|
    ensures forall i | 0 <= i < |r| :: IsDigit(r[i])
    // no leading zeros: only 0 itself starts with '0'
    ensures r[0] == 0x30 ==> n == 0
    decreases n
  {
    if n < 10 then [0x30 + n] else Decimal(n / 10) + [0x30 + n % 10]
  }

  /** The number a sequence of decimal digits denotes (the inverse of Decimal). */
  function DecimalValue(s: seq<byte>): nat
    requires forall i | 0 <= i < |s| :: IsDigit(s[i])
  {
    if s == [] then 0
    else
      assert IsDigit(s[|s| - 1]);
      DecimalValue(s[..|s| - 1]) * 10 + (s[|s| - 1] - 0x30)
  }

  lemma {:induction false} DecimalRoundTrip(n: nat)
    ensures DecimalValue(Decimal(n)) == n
    decreases n
  {
    if n >= 10 {
      var d := Decimal(n);
      assert d[..|d| - 1] == Decimal(n / 10);
      DecimalRoundTrip(n / 10);
    }
  }

  /** Different offsets are rendered differently. */
  lemma DecimalInjective(a: nat, b: nat)
    requires Decimal(a) == Decimal(b)
    ensures a == b
  {
    DecimalRoundTrip(a);
    DecimalRoundTrip(b);
  }

  /** A number below 10^k has at most k digits. */
  lemma {:induction false} DecimalLength(n: nat, k: nat)
    requires 1 <= k && n < Pow10(k)
    ensures |Decimal(n)| <= k
    decreases k
  {
    if n >= 10 {
      assert Pow10(1) == 10;
      assert n / 10 < Pow10(k - 1);
      DecimalLength(n / 10, k - 1);
    }
  }

  /** The bytes of s before the first occurrence of c (all of s if c does not occur). */
  function Before(s: seq<byte>, c: byte): seq<byte>
  {
    if s == [] || s[0] == c then [] else [s[0]] + Before(s[1..], c)
  }

  lemma {:induction false} BeforeSeparator(a: seq<byte>, c: byte, t: seq<byte>)
    requires c !in a
    ensures Before(a + [c] + t, c) == a
  {
    var s := a + [c] + t;
    if a == [] {
      assert s[0] == c;
    } else {
      assert s[0] == a[0];
      assert s[1..] == a[1..] + [c] + t;
      BeforeSeparator(a[1..], c, t);
    }
  }
}
