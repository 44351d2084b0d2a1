/** Decimal numerals: the digit strings that the parsers read and itoa writes. */
module Decimal {
  import opened Words

  predicate IsDigit(c: char) { '0' <= c <= '9' }

  predicate AllDigits(s: string) { forall i :: 0 <= i < |s| ==> IsDigit(s[i]) }

  function DigitValue(c: char): nat
    requires IsDigit(c)
  {
    c as int - '0' as int
  }

  function DigitChar(d: nat): (c: char)
    requires d < 10
    ensures IsDigit(c) && DigitValue(c) == d
  {
    ('0' as int + d) as char
  }

  function Digits(n: nat): string {
    if n < 10 then [DigitChar(n)] else Digits(n / 10) + [DigitChar(n % 10)]
  }

  /** The number a digit string denotes; zero for the empty string. */
  function Value(s: string): nat
    requires AllDigits(s)
  {
    if s == [] then 0 else 10 * Value(s[..|s| - 1]) + DigitValue(s[|s| - 1])
  }

  lemma {:induction false} DigitsDenote(n: nat)
    ensures |Digits(n)| >= 1 && AllDigits(Digits(n)) && Value(Digits(n)) == n
  {
    if n < 10 {
      assert Digits(n)[..0] == [];
    } else {
      DigitsDenote(n / 10);
      assert Digits(n)[..|Digits(n)| - 1] == Digits(n / 10);
    }
  }

  function Pow10(k: nat): (r: nat)
    ensures r >= 1
  {
    if k == 0 then 1 else 10 * Pow10(k - 1)
  }

  lemma {:induction false} DigitsLength(n: nat, k: nat)
    requires k >= 1 && n < Pow10(k)
    ensures |Digits(n)| <= k
    decreases k
  {
    if n >= 10 {
      assert k > 1;
      DigitsLength(n / 10, k - 1);
    }
  }

  // ----- strconv.ParseUint(s, 10, 64) -----

  datatype Parsed = Number(n: u64) | BadSyntax | OutOfRange

  function ScanUint(s: string, acc: u64): Parsed {
    if s == [] then Number(acc)
    else if !IsDigit(s[0]) then BadSyntax
    else
      var next := 10 * acc + DigitValue(s[0]);
      if next >= POW64 then OutOfRange else ScanUint(s[1..], next)
  }

  function ParseUint(s: string): Parsed {
    if s == "" then BadSyntax else ScanUint(s, 0)
  }

  /** The value strconv returns beside its error, which the header line keeps. */
  function UintOrClamp(p: Parsed): u64 {
    match p
    case Number(n) => n
    case BadSyntax => 0
    case OutOfRange => POW64 - 1
  }

  lemma Horner(acc: nat, d: nat, p: nat)
    ensures (10 * acc + d) * p == acc * (10 * p) + d * p
  {
  }

  lemma Shifted(d: nat, p: nat, v: nat, l: nat)
    ensures 10 * (d * p + v) + l == d * (10 * p) + (10 * v + l)
  {
  }

  lemma {:induction false} ValueFront(s: string, c: char)
    requires AllDigits(s) && IsDigit(c)
    ensures AllDigits([c] + s) && Value([c] + s) == DigitValue(c) * Pow10(|s|) + Value(s)
    decreases |s|
  {
    var t := [c] + s;
    if s == [] {
      assert t[..0] == [];
    } else {
      var front, last := s[..|s| - 1], s[|s| - 1];
      assert t[..|t| - 1] == [c] + front && t[|t| - 1] == last;
      ValueFront(front, c);
      assert Value(s) == 10 * Value(front) + DigitValue(last);
      assert Value(t) == 10 * Value([c] + front) + DigitValue(last);
      assert Pow10(|s|) == 10 * Pow10(|front|);
      hide AllDigits, Value, Pow10, DigitValue;
      Shifted(DigitValue(c), Pow10(|front|), Value(front), DigitValue(last));
    }
  }

  lemma Grows(x: nat, p: nat)
    requires p >= 1
    ensures x * p >= x
  {
    Monotone(x, 1, p);
  }

  /** Scanning on from acc: the digits are appended to it, unless the number grows too large. */
  lemma {:induction false} ScanIs(s: string, acc: u64)
    ensures ScanUint(s, acc).Number? <==> AllDigits(s) && acc * Pow10(|s|) + Value(s) < POW64
    ensures ScanUint(s, acc).Number? ==> ScanUint(s, acc).n == acc * Pow10(|s|) + Value(s)
    decreases |s|
  {
    if s != [] {
      var c, rest := s[0], s[1..];
      assert s == [c] + rest;
      if IsDigit(c) {
        var next := 10 * acc + DigitValue(c);
        if AllDigits(rest) {
          ValueFront(rest, c);
          Horner(acc, DigitValue(c), Pow10(|rest|));
        }
        assert AllDigits(s) <==> AllDigits(rest) by {
          assert forall i :: 0 <= i < |rest| ==> rest[i] == s[i + 1];
        }
        if next >= POW64 {
          Grows(next, Pow10(|rest|));
        } else {
          ScanIs(rest, next);
        }
      }
    }
  }

  lemma {:induction false} DigitsNeverMisread(s: string, acc: u64)
    requires AllDigits(s)
    ensures !ScanUint(s, acc).BadSyntax?
    decreases |s|
  {
    if s != [] && 10 * acc + DigitValue(s[0]) < POW64 {
      DigitsNeverMisread(s[1..], 10 * acc + DigitValue(s[0]));
    }
  }

  /** Exactly the nonempty digit strings below 2^64 are read, each as the number it denotes. */
  lemma ParseUintIs(s: string)
    ensures ParseUint(s).Number? <==> s != "" && AllDigits(s) && Value(s) < POW64
    ensures ParseUint(s).Number? ==> ParseUint(s).n == Value(s)
  {
    ScanIs(s, 0);
  }

  lemma {:induction false} ScanAppend(s: string, c: char, acc: u64)
    requires ScanUint(s, acc).Number?
    ensures ScanUint(s + [c], acc) == ScanUint([c], ScanUint(s, acc).n)
    decreases |s|
  {
    if s == [] {
      assert s + [c] == [c];
    } else {
      ScanAppend(s[1..], c, 10 * acc + DigitValue(s[0]));
      assert (s + [c])[1..] == s[1..] + [c];
    }
  }

  lemma ScanOne(c: char, acc: u64)
    requires IsDigit(c) && 10 * acc + DigitValue(c) < POW64
    ensures ScanUint([c], acc) == Number(10 * acc + DigitValue(c))
  {
  }

  lemma {:induction false} ScanPrinted(n: u64)
    ensures ScanUint(Digits(n), 0) == Number(n)
  {
    if n >= 10 {
      ScanPrinted(n / 10);
      ScanAppend(Digits(n / 10), DigitChar(n % 10), 0);
      ScanOne(DigitChar(n % 10), n / 10);
    } else {
      ScanOne(DigitChar(n), 0);
    }
  }

  /** Reading back a printed number. */
  lemma {:induction false} ParsePrinted(n: u64)
    ensures ParseUint(Digits(n)) == Number(n)
  {
    DigitsDenote(n);
    ScanPrinted(n);
  }
}
