/** Go's strconv.Atoi on a 64-bit machine. */
module Numbers {
  import opened Wrappers

  const MAX_INT64 := 0x7fff_ffff_ffff_ffff
  const MIN_INT64 := -0x8000_0000_0000_0000

  predicate IsDigit(c: char) {
    '0' <= c <= '9'
  }

  predicate AllDigits(s: string) {
    forall i :: 0 <= i < |s| ==> IsDigit(s[i])
  }

  function Decimal(digits: string): (n: int)
    requires AllDigits(digits)
    ensures n >= 0
  {
    if digits == "" then 0
    else 10 * Decimal(digits[..|digits| - 1]) + (digits[|digits| - 1] as int - '0' as int)
  }

  /** A number in decimal, without leading zeros. */
  function Digits(n: nat): (s: string)
    ensures s != "" && AllDigits(s)
  {
    (if n < 10 then "" else Digits(n / 10)) + [(n % 10 + '0' as int) as char]
  }

  lemma {:induction false} DecimalOfDigits(n: nat)
    ensures Decimal(Digits(n)) == n
    ensures |Digits(n)| > 1 ==> Digits(n)[0] != '0'
    decreases n
  {
    var s := Digits(n);
    if n < 10 {
      assert s[..|s| - 1] == "";
    } else {
      assert s[..|s| - 1] == Digits(n / 10);
      DecimalOfDigits(n / 10);
      if n / 10 < 10 {
        assert Digits(n / 10) == [(n / 10 + '0' as int) as char];
      }
    }
  }

  /** Reading back a printed number fails exactly when it does not fit. */
  lemma AtoiOfDigits(n: nat)
    ensures Atoi(Digits(n)) == if n <= MAX_INT64 then Some(n) else None
    ensures 0 < n <= MAX_INT64 ==> Atoi("-" + Digits(n)).Some? && Atoi("-" + Digits(n)).value + n == 0
  {
    DecimalOfDigits(n);
    assert ("-" + Digits(n))[1..] == Digits(n);
    assert IsDigit(Digits(n)[0]);
  }

  /** An optional sign, then at least one digit, and a value that fits 64 bits. */
  function Atoi(s: string): Option<int> {
    var signed := s != "" && (s[0] == '-' || s[0] == '+');
    var digits := if signed then s[1..] else s;
    if digits == "" || !AllDigits(digits) then None
    else
      var n: int := if signed && s[0] == '-' then -Decimal(digits) else Decimal(digits);
      if MIN_INT64 <= n <= MAX_INT64 then Some(n) else None
  }

  /** A 64-bit difference wraps around. */
  function Wrap64(n: int): (r: int)
    ensures MIN_INT64 <= r <= MAX_INT64
    ensures MIN_INT64 <= n <= MAX_INT64 ==> r == n
  {
    (n - MIN_INT64) % 0x1_0000_0000_0000_0000 + MIN_INT64
  }
}
