/** pkg/config.go: how many parallel workers a transfer uses. The CPU count
    (`runtime.NumCPU`) and the value of the `TINYS3_JOBS` environment
    variable are parameters. */
module Config {
  import opened Types

  const MinWorkerCount: int := 1

  /** The range of Go's `int` on a 64-bit platform, which bounds what
      `strconv.Atoi` accepts. */
  const MinInt64: int := -0x8000_0000_0000_0000
  const MaxInt64: int := 0x7FFF_FFFF_FFFF_FFFF

  /** The two format strings `ValidateWorkerCount` hands back as warnings. */
  const BelowMinimumWarning: string := "Worker count %d is below minimum %d, clamping to %d"
  const ExceedsMaximumWarning: string := "Worker count %d exceeds maximum %d, clamping to %d"

  /** `GetDefaultWorkerCount`: twice the CPU count, or 4 when the count is not positive. */
  function DefaultWorkerCount(cpu: int): (n: int)
    ensures n >= 2
  {
    if cpu <= 0 then 4 else cpu * 2
  }

  /** `GetMaxWorkerCount`: ten times the CPU count, or 40 when the count is not positive. */
  function MaxWorkerCount(cpu: int): (n: int)
    ensures n >= 10
  {
    if cpu <= 0 then 40 else cpu * 10
  }

  /** The default never exceeds the maximum, and both are at least the minimum. */
  lemma DefaultWithinMax(cpu: int)
    ensures MinWorkerCount <= DefaultWorkerCount(cpu) <= MaxWorkerCount(cpu)
  {
  }

  // ---------------------------------------------------------------------
  // Decimal integers, as `strconv.Atoi` and `strconv.Itoa` read and write them

  predicate IsDigit(c: char) {
    '0' <= c <= '9'
  }

  predicate AllDigits(s: string) {
    forall i :: 0 <= i < |s| ==> IsDigit(s[i])
  }

  function DigitOf(c: char): nat
    requires IsDigit(c)
  {
    c as int - '0' as int
  }

  function DigitChar(d: nat): (c: char)
    requires d < 10
    ensures IsDigit(c) && DigitOf(c) == d
  {
    ('0' as int + d) as char
  }

  /** The value of a string of decimal digits, most significant first. */
  function DigitsValue(s: string): nat
    requires AllDigits(s)
    decreases |s|
  {
    if s == [] then 0 else DigitsValue(s[..|s| - 1]) * 10 + DigitOf(s[|s| - 1])
  }

  /** The shortest decimal digits of `n`. */
  function NatDigits(n: nat): string
    decreases n
  {
    if n < 10 then [DigitChar(n)] else NatDigits(n / 10) + [DigitChar(n % 10)]
  }

  /** `strconv.Itoa`. */
  function Itoa(n: int): string {
    if n < 0 then "-" + NatDigits(-n) else NatDigits(n)
  }

  /** `strconv.Atoi`: an optional sign, then one or more decimal digits,
      whose value must fit in a 64-bit `int`; anything else is an error
      (`None`). */
  function Atoi(s: string): (r: Option<int>)
    ensures r.Some? ==> MinInt64 <= r.value <= MaxInt64
  {
    var signed := |s| > 0 && (s[0] == '+' || s[0] == '-');
    var body := if signed then s[1..] else s;
    if body == "" || !AllDigits(body) then None
    else
      var v: int := if signed && s[0] == '-' then -(DigitsValue(body) as int) else DigitsValue(body);
      if MinInt64 <= v <= MaxInt64 then Some(v) else None
  }

  lemma {:induction false} NatDigitsSpec(n: nat)
    ensures NatDigits(n) != [] && AllDigits(NatDigits(n))
    ensures DigitsValue(NatDigits(n)) == n
    decreases n
  {
    if n >= 10 {
      NatDigitsSpec(n / 10);
      var s := NatDigits(n / 10) + [DigitChar(n % 10)];
      assert s[..|s| - 1] == NatDigits(n / 10);
    }
  }

  /** `Atoi` reads back what `Itoa` writes, for every 64-bit value. */
  lemma AtoiItoa(n: int)
    requires MinInt64 <= n <= MaxInt64
    ensures Atoi(Itoa(n)) == Some(n)
  {
    if n < 0 {
      NatDigitsSpec(-n);
      assert ("-" + NatDigits(-n))[1..] == NatDigits(-n);
    } else {
      NatDigitsSpec(n);
      assert IsDigit(NatDigits(n)[0]);
    }
  }

  /** A character that is neither a digit nor a leading sign makes `Atoi` fail. */
  lemma AtoiRejectsNonDigit(s: string, i: nat)
    requires i < |s| && !IsDigit(s[i])
    requires i > 0 || (s[0] != '+' && s[0] != '-')
    ensures Atoi(s) == None
  {
    var signed := |s| > 0 && (s[0] == '+' || s[0] == '-');
    if signed {
      assert s[1..][i - 1] == s[i];
    }
  }

  /** A lone sign is not a number. */
  lemma AtoiRejectsBareSign()
    ensures Atoi("+") == None && Atoi("-") == None
  {
    assert "+"[1..] == "" && "-"[1..] == "";
  }

  // ---------------------------------------------------------------------
  // The policy

  /** `GetWorkerCountFromEnv` on the variable's value: 0 when it is empty or
      not a number, otherwise the number, which may be zero or negative. */
  function WorkerCountFromEnv(val: string): (n: int)
    ensures n != 0 ==> Atoi(val) == Some(n)
    ensures Atoi(val).None? ==> n == 0
    ensures val != "" && Atoi(val).Some? ==> n == Atoi(val).value
  {
    if val == "" then 0
    else match Atoi(val)
      case None => 0
      case Some(v) => v
  }

  /** Every 64-bit count written in the environment is read back as such. */
  lemma EnvReadsCount(n: int)
    requires MinInt64 <= n <= MaxInt64
    ensures WorkerCountFromEnv(Itoa(n)) == n
  {
    AtoiItoa(n);
  }

  /** `ValidateWorkerCount`: the count clamped to [1, max] and, when it had
      to be clamped, the warning saying which bound applied. */
  function ValidateWorkerCount(cpu: int, n: int): (r: (int, string))
    ensures MinWorkerCount <= r.0 <= MaxWorkerCount(cpu)
    ensures r.1 == "" <==> r.0 == n
    ensures n < MinWorkerCount ==> r == (MinWorkerCount, BelowMinimumWarning)
    ensures n > MaxWorkerCount(cpu) ==> r == (MaxWorkerCount(cpu), ExceedsMaximumWarning)
    ensures MinWorkerCount <= n <= MaxWorkerCount(cpu) ==> r == (n, "")
  {
    var maxCount := MaxWorkerCount(cpu);
    if n < MinWorkerCount then (MinWorkerCount, BelowMinimumWarning)
    else if n > maxCount then (maxCount, ExceedsMaximumWarning)
    else (n, "")
  }

  /** Clamping a clamped count changes nothing and warns about nothing. */
  lemma ValidateIdempotent(cpu: int, n: int)
    ensures ValidateWorkerCount(cpu, ValidateWorkerCount(cpu, n).0) == (ValidateWorkerCount(cpu, n).0, "")
  {
  }
}
