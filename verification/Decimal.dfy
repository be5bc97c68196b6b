/** strconv.FormatUint in base 10, the form version numbers take inside a key. */
module Decimal {
  import opened Bytes
  import opened KeyEnc

  function Format(n: nat): (r: Bytes)
    ensures |r| >= 1
  {
    if n < 10 then [0x30 + n] else Format(n / 10) + [0x30 + n % 10]
  }

  function Parse(s: Bytes): int {
    if s == [] then 0 else 10 * Parse(s[..|s| - 1]) + (s[|s| - 1] as int) - 0x30
  }

  lemma {:induction false} ParseFormat(n: nat)
    ensures Parse(Format(n)) == n
    ensures AllKept(Format(n))
  {
    if n < 10 {
      assert Format(n)[..0] == [];
    } else {
      ParseFormat(n / 10);
      var r := Format(n);
      assert r[..|r| - 1] == Format(n / 10);
    }
  }

  lemma {:induction false} FormatInjective(m: nat, n: nat)
    requires Format(m) == Format(n)
    ensures m == n
  {
    ParseFormat(m);
    ParseFormat(n);
  }
}
