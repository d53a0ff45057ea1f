/**
 * The two settings `main` derives from the environment: the remote folder
 * (`ONEDRIVE_DESTINATION_FOLDER`, default "backups") and the retention cap
 * (`MAX_BACKUPS`, default 5 when it does not parse or is not positive).
 *
 * `strconv.Atoi` is modelled on a 64-bit platform: an optional `+` or `-`,
 * then one or more ASCII digits, with a value in the range of `int64`.
 */
module Config {
  import opened Wrappers
  import opened Int64

  const DefaultFolder: string := "backups"
  const DefaultMaxBackups: int := 5


  /** The destination folder: the environment value, or "backups" when it is empty. */
  function DestinationFolder(env: string): (folder: string)
    ensures folder != []
    ensures env != [] ==> folder == env
    ensures env == [] ==> folder == DefaultFolder
  {
    if env == [] then DefaultFolder else env
  }

  predicate IsDigit(c: char)
  {
    '0' <= c <= '9'
  }

  predicate AllDigits(s: string)
  {
    forall i | 0 <= i < |s| :: IsDigit(s[i])
  }

  /** The value of a decimal digit string, most significant digit first. */
  function DigitsValue(s: string): nat
    requires AllDigits(s)
  {
    if |s| == 0 then 0
    else DigitsValue(s[..|s| - 1]) * 10 + (s[|s| - 1] - '0') as int
  }

  /** `strconv.Atoi`: `None` for every input it returns an error for. */
  function Atoi(s: string): (r: Option<int>)
    ensures r.Some? ==> MinInt <= r.value <= MaxInt
  {
    if |s| == 0 then None
    else
      var digits := if s[0] == '+' || s[0] == '-' then s[1..] else s;
      if |digits| == 0 || !AllDigits(digits) then None
      else
        var magnitude: int := DigitsValue(digits);
        var v := if s[0] == '-' then -magnitude else magnitude;
        if MinInt <= v <= MaxInt then Some(v) else None
  }

  /** An unset (or empty) `MAX_BACKUPS` does not parse, so the cap is 5. */
  lemma MaxBackupsOfUnset()
    ensures Atoi("") == None
    ensures MaxBackups("") == DefaultMaxBackups
  {
  }

  /** A sign with no digits after it does not parse. */
  lemma AtoiOfBareSign(sign: string)
    requires sign == "+" || sign == "-"
    ensures Atoi(sign) == None
  {
  }

  /** An optional sign followed by one or more digits parses to the signed
      value of the digits (leading zeros allowed), when that value is in range. */
  lemma AtoiOfSignedDigits(sign: string, digits: string)
    requires sign == "" || sign == "+" || sign == "-"
    requires |digits| > 0 && AllDigits(digits)
    ensures var magnitude: int := DigitsValue(digits);
      var v := if sign == "-" then -magnitude else magnitude;
      Atoi(sign + digits) == if InRange(v) then Some(v) else None
  {
    var s := sign + digits;
    if sign == "" {
      assert s == digits;
      assert IsDigit(s[0]);
    } else {
      assert s[0] == sign[0];
      assert s[1..] == digits;
    }
  }

  /** A leading zero does not change the value of a digit string. */
  lemma {:induction false} DigitsValueLeadingZero(digits: string)
    requires AllDigits(digits)
    ensures DigitsValue("0" + digits) == DigitsValue(digits)
    decreases |digits|
  {
    if |digits| > 0 {
      var s := "0" + digits;
      assert s[..|s| - 1] == "0" + digits[..|digits| - 1];
      DigitsValueLeadingZero(digits[..|digits| - 1]);
    }
  }

  /** `Atoi` accepts numerals that are not canonical: leading zeros, a plus
      sign, a negative zero. */
  lemma AtoiAcceptsNonCanonical()
    ensures Atoi("007") == Some(7)
    ensures Atoi("+5") == Some(5)
    ensures Atoi("-0") == Some(0)
  {
    AtoiOfSignedDigits("", "007");
    AtoiOfSignedDigits("+", "5");
    AtoiOfSignedDigits("-", "0");
  }

  /** Any character that is neither a digit nor a leading sign makes `Atoi` fail. */
  lemma AtoiRejectsNonDigit(s: string, i: nat)
    requires i < |s| && !IsDigit(s[i])
    requires i > 0 || (s[0] != '+' && s[0] != '-')
    ensures Atoi(s).None?
  {
  }

  /** The retention cap `main` uses for a `MAX_BACKUPS` value. */
  function MaxBackups(env: string): (cap: int)
    ensures cap >= 1
    ensures Atoi(env).Some? && Atoi(env).value > 0 ==> cap == Atoi(env).value
    ensures Atoi(env).None? || Atoi(env).value <= 0 ==> cap == DefaultMaxBackups
  {
    match Atoi(env)
    case Some(n) => if n <= 0 then DefaultMaxBackups else n
    case None => DefaultMaxBackups
  }

  /** The decimal digits of a natural number, without leading zeros. */
  function Digits(n: nat): (s: string)
    ensures |s| > 0 && AllDigits(s)
  {
    if n < 10 then [('0' as int + n) as char]
    else Digits(n / 10) + [('0' as int + n % 10) as char]
  }

  /** The canonical decimal text of an integer, with a `-` for negatives. */
  function Decimal(n: int): string
  {
    if n < 0 then "-" + Digits(-n) else Digits(n)
  }

  lemma {:induction false} DigitsRoundTrip(n: nat)
    ensures DigitsValue(Digits(n)) == n
  {
    if n >= 10 {
      var s := Digits(n);
      assert s[..|s| - 1] == Digits(n / 10);
      DigitsRoundTrip(n / 10);
    }
  }

  /** `Atoi` reads back every `int64` written in decimal. */
  lemma AtoiOfDecimal(n: int)
    requires MinInt <= n <= MaxInt
    ensures Atoi(Decimal(n)) == Some(n)
  {
    var s := Decimal(n);
    if n < 0 {
      assert s[1..] == Digits(-n);
      DigitsRoundTrip(-n);
    } else {
      assert IsDigit(s[0]);
      DigitsRoundTrip(n);
    }
  }

  /** A positive `MAX_BACKUPS` written in decimal is taken as the cap. */
  lemma MaxBackupsOfDecimal(n: int)
    requires 1 <= n <= MaxInt
    ensures MaxBackups(Decimal(n)) == n
  {
    AtoiOfDecimal(n);
  }

  /** Zero, a negative number, or a value outside `int64`, written in decimal,
      all fall back to the default cap. */
  lemma MaxBackupsOfNonPositiveOrOutOfRange(n: int)
    requires n <= 0 || MaxInt < n
    ensures MaxBackups(Decimal(n)) == DefaultMaxBackups
  {
    var s := Decimal(n);
    if n < 0 {
      assert s[1..] == Digits(-n);
      DigitsRoundTrip(-n);
    } else {
      assert IsDigit(s[0]);
      DigitsRoundTrip(n);
    }
  }
}
