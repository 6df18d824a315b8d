/** The amounts shown to the user: print_amount and the TRC20 amount line (src/parse.c, src/handlers/sign.c). */
module Amount {
  import opened Arith
  import opened Wide
  import opened Radix
  import opened Decimal

  // print_amount

  const TMP_DIGITS: nat := 19
  const TMP2_SIZE: nat := 25

  /** The text print_amount leaves in a buffer of size `outlen`; an exception for twenty digits or more. */
  datatype Printed = Thrown | Text(text: string)

  function PlainDigits(amount: nat): string {
    if amount == 0 then "" else Numeral(amount, 10)
  }

  function PrintSpec(amount: nat, outlen: nat, sun: nat): Printed {
    if |PlainDigits(amount)| > TMP_DIGITS then Thrown
    else if Room(PlainDigits(amount), sun) > TMP2_SIZE then Text("")
    else if |Adjusted(PlainDigits(amount), sun)| + 1 < outlen then Text(Adjusted(PlainDigits(amount), sun))
    else Text("")
  }

  lemma {:induction false} PowDigits(v: nat, n: nat)
    requires v > 0 && Pow(10, n) <= v < Pow(10, n + 1)
    ensures |Numeral(v, 10)| == n + 1
  {
    NumeralLength(v, 10, n + 1);
    if n > 0 {
      NumeralLength(v, 10, n);
    }
  }

  /** The decimal digit of weight 10^e. */
  function DigitAt(v: nat, e: nat): (d: nat)
    ensures d < 10
  {
    PowPositive(10, e);
    v / Pow(10, e) % 10
  }

  /** A numeral lists its digits by falling weight. */
  lemma {:induction false} NumeralDigit(v: nat, e: nat)
    requires e < |Numeral(v, 10)|
    ensures Numeral(v, 10)[|Numeral(v, 10)| - 1 - e] == HEXDIGITS[DigitAt(v, e)]
  {
    if e == 0 {
      LastDigit(v);
    } else {
      NumeralDigit(v / 10, e - 1);
      ShorterQuotient(v, e);
    }
  }

  lemma {:induction false} LastDigit(v: nat)
    ensures DigitAt(v, 0) == v % 10
  {
    assert Pow(10, 0) == 1;
  }

  lemma {:induction false} ShorterQuotient(v: nat, e: nat)
    requires e > 0
    ensures Pow(10, e - 1) > 0 && Pow(10, e) > 0 && v / 10 / Pow(10, e - 1) == v / Pow(10, e)
  {
    PowPositive(10, e - 1);
    DivDiv(v, 10, Pow(10, e - 1));
  }

  lemma {:induction false} DigitChar(d: nat)
    requires d < 10
    ensures '0' + d as char == HEXDIGITS[d]
  {
    DigitOf(d);
  }

  /** How many digits an amount has, and the weight of the first. */
  method CountDigits(amount: u64) returns (numDigits: nat, base: nat)
    ensures numDigits == |PlainDigits(amount)|
    ensures numDigits > 0 ==> base == Pow(10, numDigits - 1)
  {
    numDigits, base := 0, 1;
    if amount > 0 {
      while base <= amount / 10
        invariant base == Pow(10, numDigits) <= amount
      {
        base := base * 10;
        numDigits := numDigits + 1;
      }
      PowDigits(amount, numDigits);
      numDigits := numDigits + 1;
    }
  }

  /** The digit that the printing loop writes at place `i`, and the weight it goes on with. */
  lemma {:induction false} NextDigit(amount: nat, i: nat, base: nat)
    requires i < |PlainDigits(amount)| && base == Pow(10, |PlainDigits(amount)| - 1 - i)
    ensures base > 0 && '0' + (amount / base % 10) as char == PlainDigits(amount)[i]
    ensures i + 1 < |PlainDigits(amount)| ==> base / 10 == Pow(10, |PlainDigits(amount)| - 2 - i)
  {
    PowPositive(10, |PlainDigits(amount)| - 1 - i);
    NumeralDigit(amount, |PlainDigits(amount)| - 1 - i);
    DigitChar(DigitAt(amount, |PlainDigits(amount)| - 1 - i));
  }

  method WriteDigits(amount: u64, numDigits: nat, weight: nat) returns (digits: string)
    requires numDigits == |PlainDigits(amount)|
    requires numDigits > 0 ==> weight == Pow(10, numDigits - 1)
    ensures digits == PlainDigits(amount)
  {
    var tmp := new char[numDigits](_ => '0');
    var base := weight;
    for i := 0 to numDigits
      invariant i < numDigits ==> base == Pow(10, numDigits - 1 - i)
      invariant tmp[..i] == PlainDigits(amount)[..i]
    {
      NextDigit(amount, i, base);
      tmp[i] := '0' + (amount / base % 10) as char;
      base := base / 10;
    }
    assert tmp[..] == tmp[..numDigits];
    digits := tmp[..];
  }

  method PrintAmount(amount: u64, out: array<char>, outlen: nat, sun: nat) returns (thrown: bool, length: nat)
    requires 1 <= outlen <= out.Length
    modifies out
    ensures
      match PrintSpec(amount, outlen, sun)
      case Thrown => thrown
      case Text(t) => !thrown && Holds(out, t) && length == |t|
  {
    var numDigits, base := CountDigits(amount);
    if numDigits > TMP_DIGITS {
      return true, 0;
    }
    var digits := WriteDigits(amount, numDigits, base);
    var tmp2 := new char[TMP2_SIZE](_ => '\0');
    PlainDigitsClean(amount);
    var ok := AdjustDecimals(digits, tmp2, TMP2_SIZE, sun);
    if !ok {
      out[0] := '\0';
      return false, 0;
    }
    AdjustedClean(digits, sun);
    var text := ReadString(tmp2, Adjusted(digits, sun));
    length := CopyIfFits(text, out, outlen);
    return false, length;
  }

  /** Copies a text that leaves a spare character, and empties the buffer otherwise. */
  method CopyIfFits(text: string, out: array<char>, outlen: nat) returns (length: nat)
    requires 1 <= outlen <= out.Length
    modifies out
    ensures Holds(out, if |text| + 1 < outlen then text else "")
    ensures length == if |text| + 1 < outlen then |text| else 0
  {
    if |text| < outlen - 1 {
      var end := Put(text, out, 0);
      out[end] := '\0';
      assert out[..end] == text;
      length := end;
    } else {
      out[0] := '\0';
      length := 0;
    }
  }

  lemma {:induction false} AdjustedClean(s: string, d: nat)
    requires '\0' !in s
    ensures '\0' !in Adjusted(s, d)
  {
    var t := Pointed(s, d);
    assert '\0' !in t;
    assert s != "0" ==> forall c :: c in Adjusted(s, d) ==> c in t;
  }

  lemma {:induction false} PlainDigitsClean(amount: nat)
    ensures '\0' !in PlainDigits(amount) && '.' !in PlainDigits(amount)
  {
    if amount > 0 {
      NumeralCanonical(amount, 10);
      NoPoint(Numeral(amount, 10));
    }
  }

  /** The C string at the start of a buffer: everything before the first terminator. */
  method ReadString(buffer: array<char>, ghost expected: string) returns (s: string)
    requires Holds(buffer, expected) && '\0' !in expected
    ensures s == expected
  {
    var n := 0;
    while buffer[n] != '\0'
      invariant n <= |expected|
      invariant '\0' !in buffer[..n]
      decreases |expected| - n
    {
      assert n < |expected| by {
        assert buffer[|expected|] == '\0';
      }
      n := n + 1;
    }
    assert forall i :: 0 <= i < |expected| ==> buffer[i] == expected[i] != '\0';
    s := buffer[..n];
  }

  /** What the empty digit string of a zero amount turns into. */
  lemma {:induction false} PaddedZero(sun: nat)
    ensures Adjusted("", sun) == "0." + Zeros(sun)
    ensures |Fraction(Adjusted("", sun))| == sun && Scaled(Adjusted("", sun), sun) == 0
  {
    assert Pointed("", sun) == "0." + Zeros(sun);
    PointUnique("0", Zeros(sun));
    assert "0" + "." + Zeros(sun) == "0." + Zeros(sun);
    assert "0" + Zeros(sun) == Zeros(sun + 1);
    ZerosDenoteZero(sun + 1);
  }

  /** Whatever print_amount shows denotes the amount; zero shows as a padded, untidy zero. */
  lemma {:induction false} PrintDenotes(amount: nat, outlen: nat, sun: nat)
    requires PrintSpec(amount, outlen, sun).Text? && PrintSpec(amount, outlen, sun).text != ""
    ensures
      var t := PrintSpec(amount, outlen, sun).text;
      |Fraction(t)| <= sun && Scaled(t, sun) == amount && (amount > 0 ==> Tidy(t))
  {
    if amount == 0 {
      PaddedZero(sun);
    } else {
      NumeralCanonical(amount, 10);
      NumeralDenotes(amount, 10);
      AdjustedKeepsValue(Numeral(amount, 10), sun);
    }
  }

  /**
   * print_amount and the 256-bit path (numeral, then adjustDecimals) show the same text for every
   * positive amount below 10^19 that fits the buffers.
   */
  lemma {:induction false} PrintMatchesNumeral(amount: nat, outlen: nat, sun: nat)
    requires amount > 0
    ensures PrintSpec(amount, outlen, sun).Thrown? <==> amount >= Pow(10, 19)
    ensures amount < Pow(10, 19) && sun <= 22 && |Adjusted(Numeral(amount, 10), sun)| + 1 < outlen ==>
              PrintSpec(amount, outlen, sun) == Text(Adjusted(Numeral(amount, 10), sun))
  {
    NumeralLength(amount, 10, 19);
  }

  /** The two paths show the same text exactly for positive amounts below 10^19 that fit the buffers. */
  lemma {:induction false} PrintMatchesIff(amount: nat, outlen: nat, sun: nat)
    ensures PrintSpec(amount, outlen, sun) == Text(Adjusted(Numeral(amount, 10), sun)) <==>
            0 < amount < Pow(10, 19) && sun <= 22 && |Adjusted(Numeral(amount, 10), sun)| + 1 < outlen
  {
    NumeralCanonical(amount, 10);
    AdjustedKeepsValue(Numeral(amount, 10), sun);
    if amount == 0 {
      PaddedZero(sun);
      DigitOf(0);
    } else {
      PrintMatchesNumeral(amount, outlen, sun);
      NumeralLength(amount, 10, 19);
    }
  }

  /** A failing input: zero, at any number of decimals that fits the buffers. */
  lemma {:induction false} PrintZeroDiffers(outlen: nat, sun: nat)
    requires sun <= 22 && outlen > sun + 3
    ensures PrintSpec(0, outlen, sun) == Text("0." + Zeros(sun))
    ensures PrintSpec(0, outlen, sun) != Text(Adjusted(Numeral(0, 10), sun))
  {
    PaddedZero(sun);
    DigitOf(0);
    assert Numeral(0, 10) == "0";
    assert ("0." + Zeros(sun))[1] == '.';
  }

  // The amount line of a TRC20 call

  const LINE: nat := 100

  lemma {:induction false} Pow78()
    ensures Pow(10, 78) > TWO256
  {
    assert Pow(10, 13) == 10_000_000_000_000;
    PowAdd(10, 13, 13);
    PowAdd(10, 26, 13);
    PowAdd(10, 39, 39);
  }

  lemma {:induction false} Fits78(v: nat)
    requires v < TWO256
    ensures |Numeral(v, 10)| <= 78 && v < Pow(10, LINE)
  {
    Pow78();
    NumeralLength(v, 10, 78);
    PowMonotone(10, 78, LINE);
  }

  /**
   * The amount line of a known-token transfer or approve: converting the 32-byte argument,
   * printing it and placing the point never fails up to 97 decimals, and the line denotes
   * exactly the argument divided by 10^decimals.
   */
  method TokenAmountLine(argument: seq<byte>, decimals: nat, line: array<char>) returns (ok: bool, ghost text: string)
    requires |argument| == 32 && line.Length >= LINE
    modifies line
    ensures ok <==> decimals <= 97 || BigEndian(argument) == 0
    ensures ok ==> text == Adjusted(Numeral(BigEndian(argument), 10), decimals) && Holds(line, text)
    ensures ok ==> |Fraction(text)| <= decimals && Scaled(text, decimals) == BigEndian(argument) && Tidy(text)
  {
    ghost var v := BigEndian(argument);
    var number := new U256();
    ConvertUint256BE(argument, number);
    Fits78(v);
    var raw := new char[LINE + 1](_ => '\0');
    var printed := ToString256(number, 10, raw, LINE);
    NumeralCanonical(v, 10);
    NoPoint(Numeral(v, 10));
    var digits := ReadString(raw, Numeral(v, 10));
    RoomFor(v, decimals);
    ok := AdjustDecimals(digits, line, LINE, decimals);
    text := Adjusted(digits, decimals);
    AdjustedKeepsValue(digits, decimals);
    NumeralDenotes(v, 10);
  }

  lemma {:induction false} RoomFor(v: nat, decimals: nat)
    requires v < TWO256
    ensures Room(Numeral(v, 10), decimals) <= LINE <==> decimals <= 97 || v == 0
  {
    Fits78(v);
    NumeralCanonical(v, 10);
    DigitOf(0);
  }
}
