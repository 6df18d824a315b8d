/**
 * What the exchange validated, and the checks a swap transaction must pass
 * (src/swap/handle_swap_sign_transaction.c).
 */
module Swap {
  import opened Arith
  import opened Schema
  import opened Wide
  import opened Radix
  import opened Decimal
  import opened Amount

  const SUN_DIG: nat := 6
  const MAX_SWAP_TOKEN_LENGTH: nat := 15
  const MAX_SWAP_FEE_LIMIT: nat := 100_000_000
  const ADDRESS_LENGTH: nat := 34

  /** G_swap_validated. */
  datatype Validated = Validated(initialized: bool, decimals: nat, ticker: string, amount: u256, recipient: string)

  /** The size of a buffer. */
  type size = n: nat | n > 0 witness 1

  // swap_copy_transaction_parameters

  /** The parameters of the exchange; None is a null pointer. A parsed configuration gives a ticker and decimals. */
  datatype Parameters = Parameters(
    extraId: Option<string>,
    destination: Option<string>,
    amount: Option<seq<byte>>,
    config: Option<Option<(string, nat)>>)

  /** What is committed to the globals, or None when the parameters are refused. */
  function CopyParameters(p: Parameters): (r: Option<Validated>)
    requires p.amount.Some? ==> |p.amount.value| <= 32
    ensures r.Some? <==>
              && p.extraId == Some("") && p.destination.Some? && |p.destination.value| == ADDRESS_LENGTH
              && p.amount.Some? && (p.config.Some? ==> p.config.value.Some?)
    ensures r.Some? ==>
              && r.value.initialized && r.value.recipient == p.destination.value
              && r.value.amount == BigEndian(p.amount.value) < TWO256
              && (r.value.ticker, r.value.decimals) == if p.config.None? then ("TRX", SUN_DIG) else p.config.value.value
  {
    if p.extraId != Some("") || p.destination.None? || p.amount.None? then None
    else if p.config.Some? && p.config.value.None? then None
    else if |p.destination.value| != ADDRESS_LENGTH then None
    else
      var (ticker, decimals) := if p.config.None? then ("TRX", SUN_DIG) else p.config.value.value;
      BigEndianBound(p.amount.value);
      Some(Validated(true, decimals, ticker, BigEndian(p.amount.value), p.destination.value))
  }

  lemma {:induction false} BigEndianBound(s: seq<byte>)
    requires |s| <= 32
    ensures BigEndian(s) < TWO256
  {
    BigEndianPow(s);
    PowMonotone(256, |s|, 32);
    Pow256Is();
  }

  lemma {:induction false} BigEndianPow(s: seq<byte>)
    ensures BigEndian(s) < Pow(256, |s|)
  {
    if s == [] {
    } else {
      BigEndianPow(s[..|s| - 1]);
    }
  }

  lemma {:induction false} Pow256Is()
    ensures Pow(256, 32) == TWO256
  {
    assert Pow(256, 8) == TWO64;
    PowAdd(256, 8, 8);
    PowAdd(256, 16, 16);
  }

  // String comparison

  function Least(a: nat, b: nat): nat {
    if a < b then a else b
  }

  /** strncmp(a, b, n) == 0. */
  predicate SameText(a: string, b: string, n: nat) {
    a[..Least(|a|, n)] == b[..Least(|b|, n)]
  }

  /** Comparing up to the size of the buffer that holds one of two strings compares them completely. */
  lemma {:induction false} SameTextExact(a: string, b: string, n: nat)
    requires |b| < n
    ensures SameText(a, b, n) <==> a == b
  {
    if SameText(a, b, n) {
      assert b[..Least(|b|, n)] == b;
      assert |a| == |b|;
    }
  }

  // check_swap_amount

  /** The validated amount, as it is rendered at its decimals in a buffer of `printable` characters. */
  function ValidatedText(v: Validated, printable: nat): Option<string> {
    var digits := Numeral(v.amount, 10);
    if |digits| < printable && Room(digits, v.decimals) <= printable then Some(Adjusted(digits, v.decimals)) else None
  }

  predicate AmountMatches(v: Validated, amount: string, printable: nat) {
    ValidatedText(v, printable).Some? && SameText(amount, ValidatedText(v, printable).value, printable)
  }

  /** The digits that strnlen finds in a buffer: up to the terminator, or all of it. */
  method BoundedString(buffer: array<char>, n: nat) returns (s: string)
    requires n <= buffer.Length
    ensures |s| <= n && s == buffer[..|s|] && '\0' !in s && (|s| < n ==> buffer[|s|] == '\0')
  {
    var i := 0;
    while i < n && buffer[i] != '\0'
      invariant i <= n && '\0' !in buffer[..i]
    {
      i := i + 1;
    }
    s := buffer[..i];
  }

  lemma {:induction false} HeldDigits(buffer: seq<char>, t: string, s: string, n: nat)
    requires n < |buffer| && |t| <= n && buffer[..|t|] == t && buffer[|t|] == '\0' && '\0' !in t
    requires |s| <= n && s == buffer[..|s|] && '\0' !in s && (|s| < n ==> buffer[|s|] == '\0')
    ensures s == t
  {
    assert forall i :: 0 <= i < |t| ==> buffer[i] == t[i] != '\0';
    assert forall i :: 0 <= i < |s| ==> buffer[i] == s[i] != '\0';
  }

  /** The buffer is one longer than printable: tostring256 may put its terminator behind the last digit. */
  method CheckSwapAmount(number: U256, v: Validated, amount: string, printable: size) returns (ok: bool)
    requires number.Value() == v.amount
    ensures ok <==> AmountMatches(v, amount, printable)
  {
    ghost var digits := Numeral(v.amount, 10);
    NumeralCanonical(v.amount, 10);
    NoPoint(digits);
    NumeralLength(v.amount, 10, printable);
    var raw := new char[printable + 1](_ => '\0');
    var fits := ToString256(number, 10, raw, printable);
    var src := BoundedString(raw, printable);
    if fits {
      HeldDigits(raw[..], digits, src, printable);
    }
    var rendered := new char[printable](_ => '\0');
    ok := AdjustDecimals(src, rendered, printable, v.decimals);
    if !ok {
      return false;
    }
    AdjustedClean(src, v.decimals);
    var text := ReadString(rendered, Adjusted(src, v.decimals));
    ok := SameText(amount, text, printable);
  }

  // swap_check_validity

  predicate Valid(v: Validated, printable: nat, amount: string, tokenName: string, action: string, to: string) {
    && v.initialized
    && AmountMatches(v, amount, printable)
    && SameText(tokenName, v.ticker, MAX_SWAP_TOKEN_LENGTH)
    && SameText(action, "To", 3)
    && SameText(v.recipient, to, ADDRESS_LENGTH + 1)
  }

  function Half(n: nat): U128
    requires n < TWO128
  {
    U128(n / TWO64, n % TWO64)
  }

  /** The validated amount as a 256-bit number. */
  method Load(amount: u256) returns (number: U256)
    ensures fresh(number) && number.Value() == amount
  {
    number := new U256();
    number.upper, number.lower := Half(amount / TWO128), Half(amount % TWO128);
  }

  /** swap_check_validity: initialization, amount, ticker, action and recipient in turn. */
  method CheckValidity(v: Validated, printable: size, amount: string, tokenName: string, action: string, to: string)
    returns (ok: bool)
    ensures ok <==> Valid(v, printable, amount, tokenName, action, to)
  {
    if !v.initialized {
      return false;
    }
    var number := Load(v.amount);
    ok := CheckSwapAmount(number, v, amount, printable);
    if !ok {
      return false;
    }
    if !SameText(tokenName, v.ticker, MAX_SWAP_TOKEN_LENGTH) {
      return false;
    }
    if !SameText(action, "To", 3) {
      return false;
    }
    ok := SameText(v.recipient, to, ADDRESS_LENGTH + 1);
  }

  /** A text that passed the amount check denotes the validated amount, so any other reading of it is that rational. */
  lemma {:induction false} MatchingAmount(v: Validated, text: string, printable: nat, a: nat, d: nat)
    requires AmountMatches(v, text, printable)
    requires |Fraction(text)| <= d && Scaled(text, d) == a
    ensures a * Pow(10, v.decimals) == v.amount * Pow(10, d)
  {
    var digits := Numeral(v.amount, 10);
    NumeralCanonical(v.amount, 10);
    NumeralDenotes(v.amount, 10);
    AdjustedKeepsValue(digits, v.decimals);
    AdjustedRoom(digits, v.decimals);
    SameTextExact(text, Adjusted(digits, v.decimals), printable);
    SameTextSameRational(text, d, v.decimals);
  }

  /** What is rendered fits the buffer that was asked for, terminator included. */
  lemma {:induction false} AdjustedRoom(s: string, d: nat)
    ensures |Adjusted(s, d)| < Room(s, d)
  {}

  /** At equal decimals equal rationals are equal integers. */
  lemma {:induction false} EqualDecimals(a: nat, b: nat, d: nat)
    requires a * Pow(10, d) == b * Pow(10, d)
    ensures a == b
  {
    PowPositive(10, d);
    Cancel(a, b, Pow(10, d));
  }

  /** A rendered number passes the amount check exactly when it is the validated rational. */
  lemma {:induction false} RenderedMatchesIff(v: Validated, printable: nat, a: nat, d: nat)
    requires ValidatedText(v, printable).Some?
    ensures AmountMatches(v, Adjusted(Numeral(a, 10), d), printable) <==>
            a * Pow(10, v.decimals) == v.amount * Pow(10, d)
  {
    var text := Adjusted(Numeral(a, 10), d);
    if AmountMatches(v, text, printable) {
      NumeralCanonical(a, 10);
      NumeralDenotes(a, 10);
      AdjustedKeepsValue(Numeral(a, 10), d);
      MatchingAmount(v, text, printable, a, d);
    }
    if a * Pow(10, v.decimals) == v.amount * Pow(10, d) {
      SameRationalSameText(a, d, v.amount, v.decimals);
    }
  }
}
