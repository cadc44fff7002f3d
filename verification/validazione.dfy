/** The Italian fiscal-identifier checks of `src/lib/services/fatture.ts`:
    the Partita IVA (VAT number) with its check digit, the shape of a Codice
    Fiscale (tax code) and the 7-character Codice Destinatario (electronic
    invoicing recipient code). Characters are Unicode code points; only the
    ASCII letters are case-mapped. */
module Validazione {
  import opened Strings
  import Seqs

  // ---------------------------------------------------------------------------
  // Partita IVA

  /** What the digit at 0-based position `i` contributes to the check sum:
      digits at odd positions are doubled, and a double above 9 is replaced by
      the sum of its two digits. */
  function Weight(i: nat, d: nat): (w: nat)
    requires d < 10
    ensures w < 10
  {
    if i % 2 == 0 then d
    else if d < 5 then 2 * d
    else 2 * d - 9
  }

  /** The check sum of the first `n` digits of `s`. */
  function LuhnSum(s: string, n: nat): nat
    requires n <= |s| && AllDigits(s)
  {
    if n == 0 then 0 else LuhnSum(s, n - 1) + Weight(n - 1, DigitValue(s[n - 1]))
  }

  /** The digit the eleventh position must hold: `(10 - sum % 10) % 10`. */
  function CheckDigit(s: string): (c: nat)
    requires |s| >= 10 && AllDigits(s)
    ensures c < 10
    ensures (LuhnSum(s, 10) + c) % 10 == 0
  {
    ModComplement(LuhnSum(s, 10));
    (10 - LuhnSum(s, 10) % 10) % 10
  }

  /** Adding `(10 - n % 10) % 10` to `n` reaches the next multiple of ten. */
  lemma ModComplement(n: int)
    ensures (n + (10 - n % 10) % 10) % 10 == 0
  {
    var m := n % 10;
    assert n == 10 * (n / 10) + m;
    if m == 0 {
      assert (10 - m) % 10 == 0;
    } else {
      assert (10 - m) % 10 == 10 - m;
      assert n + (10 - m) == 10 * (n / 10 + 1);
    }
  }

  /** A Partita IVA: eleven ASCII digits whose last is the check digit of the
      first ten. */
  predicate IsValidPartitaIva(s: string) {
    |s| == 11 && AllDigits(s) && DigitValue(s[10]) == CheckDigit(s)
  }

  /** `validatePartitaIva(s)`: the length test, the digit filter and the
      check-digit loop. */
  method ValidatePartitaIva(s: string) returns (ok: bool)
    ensures ok ==> |s| == 11 && AllDigits(s)
    ensures ok <==> IsValidPartitaIva(s)
  {
    if |s| == 0 || |s| != 11 {
      return false;
    }
    var cleaned := KeepDigits(s);
    if |cleaned| != 11 {
      return false;
    }
    Seqs.FilterAllIsIdentity(s, IsDigit);
    assert cleaned == s;
    var sum := 0;
    var i := 0;
    while i < 10
      invariant 0 <= i <= 10
      invariant sum == LuhnSum(cleaned, i)
    {
      var digit := DigitValue(cleaned[i]);
      if i % 2 == 1 {
        digit := digit * 2;
        if digit > 9 {
          digit := digit / 10 + digit % 10;
        }
      }
      sum := sum + digit;
      i := i + 1;
    }
    var checkDigit := (10 - sum % 10) % 10;
    ok := checkDigit == DigitValue(cleaned[10]);
  }

  /** The check sum reads only the digits it covers. */
  lemma {:induction false} LuhnSumOfPrefix(s: string, t: string, n: nat)
    requires n <= |s| && n <= |t| && AllDigits(s) && AllDigits(t)
    requires s[..n] == t[..n]
    ensures LuhnSum(s, n) == LuhnSum(t, n)
    decreases n
  {
    if n > 0 {
      assert s[n - 1] == s[..n][n - 1] == t[..n][n - 1] == t[n - 1];
      assert s[..n - 1] == s[..n][..n - 1];
      assert t[..n - 1] == t[..n][..n - 1];
      LuhnSumOfPrefix(s, t, n - 1);
    }
  }

  /** Every ten-digit prefix has exactly one final digit that makes a valid
      Partita IVA. */
  lemma UniqueCheckDigit(p: string)
    requires |p| == 10 && AllDigits(p)
    ensures IsDigit(DigitChar(CheckDigit(p))) && IsValidPartitaIva(p + [DigitChar(CheckDigit(p))])
    ensures forall c :: IsDigit(c) && IsValidPartitaIva(p + [c]) ==> c == DigitChar(CheckDigit(p))
  {
    forall c | IsDigit(c)
      ensures AllDigits(p + [c]) && CheckDigit(p + [c]) == CheckDigit(p)
    {
      assert (p + [c])[..10] == p[..10];
      LuhnSumOfPrefix(p + [c], p, 10);
    }
  }

  /** Changing the digit at one position changes the check sum by the change
      in that position's weight. */
  lemma {:induction false} LuhnSumChange(s: string, t: string, i: nat, n: nat)
    requires |s| == |t| && n <= |s| && AllDigits(s) && AllDigits(t) && i < |s|
    requires forall j :: 0 <= j < |s| && j != i ==> s[j] == t[j]
    ensures LuhnSum(t, n) + (if i < n then Weight(i, DigitValue(s[i])) else 0) ==
            LuhnSum(s, n) + (if i < n then Weight(i, DigitValue(t[i])) else 0)
    decreases n
  {
    if n > 0 {
      LuhnSumChange(s, t, i, n - 1);
    }
  }

  /** Different digits at one position carry different weights. */
  lemma WeightsDiffer(i: nat, a: nat, b: nat)
    requires a < 10 && b < 10 && a != b
    ensures Weight(i, a) != Weight(i, b)
  {
  }

  /** Two sums that both complete to a multiple of 10 with the same digit and
      differ by less than 10 are equal. */
  lemma SameCheckDigitSameSum(x: nat, y: nat, c: nat, wx: nat, wy: nat)
    requires (x + c) % 10 == 0 && (y + c) % 10 == 0
    requires x + wx == y + wy && wx < 10 && wy < 10
    ensures wx == wy
  {
    var kx, ky := (x + c) / 10, (y + c) / 10;
    assert x + c == 10 * kx && y + c == 10 * ky;
    assert wy - wx == 10 * (kx - ky);
  }

  /** A single mistyped digit is always caught: changing exactly one digit of
      a valid Partita IVA gives an invalid one. */
  lemma SingleDigitErrorDetected(s: string, t: string, i: nat)
    requires IsValidPartitaIva(s)
    requires |t| == 11 && AllDigits(t) && i < 11 && t[i] != s[i]
    requires forall j :: 0 <= j < 11 && j != i ==> s[j] == t[j]
    ensures !IsValidPartitaIva(t)
  {
    LuhnSumChange(s, t, i, 10);
    if i < 10 && IsValidPartitaIva(t) {
      var c := DigitValue(s[10]);
      assert t[10] == s[10];
      WeightsDiffer(i, DigitValue(s[i]), DigitValue(t[i]));
      SameCheckDigitSameSum(LuhnSum(t, 10), LuhnSum(s, 10), c, Weight(i, DigitValue(s[i])), Weight(i, DigitValue(t[i])));
    } else if i == 10 {
      assert DigitValue(s[10]) != DigitValue(t[10]);
    }
  }

  // ---------------------------------------------------------------------------
  // Codice Fiscale and Codice Destinatario

  /** `s.replace(/\s/g, '').toUpperCase()`. */
  function CleanCode(s: string): (r: string)
    ensures forall i :: 0 <= i < |r| ==> !IsWhitespace(r[i]) && !IsLower(r[i])
  {
    ToUpper(RemoveWhitespace(s))
  }

  /** Cleaning ignores letter case. */
  lemma CleanCodeIgnoresCase(s: string)
    ensures CleanCode(ToLower(s)) == CleanCode(s)
    ensures CleanCode(ToUpper(s)) == CleanCode(s)
  {
    CleanCodeOfLower(s);
    CleanCodeOfUpper(s);
  }

  lemma CleanCodeOfLower(s: string)
    ensures CleanCode(ToLower(s)) == CleanCode(s)
  {
    assert forall c :: NotWhitespace(LowerChar(c)) == NotWhitespace(c);
    Seqs.FilterMapCommute(s, LowerChar, NotWhitespace);
    var kept := RemoveWhitespace(s);
    assert RemoveWhitespace(ToLower(s)) == ToLower(kept);
    forall i | 0 <= i < |kept|
      ensures UpperChar(LowerChar(kept[i])) == UpperChar(kept[i])
    {
      UpperOfLower(kept[i]);
    }
  }

  lemma CleanCodeOfUpper(s: string)
    ensures CleanCode(ToUpper(s)) == CleanCode(s)
  {
    assert forall c :: NotWhitespace(UpperChar(c)) == NotWhitespace(c);
    Seqs.FilterMapCommute(s, UpperChar, NotWhitespace);
    var kept := RemoveWhitespace(s);
    assert RemoveWhitespace(ToUpper(s)) == ToUpper(kept);
  }

  /** Cleaning ignores any whitespace character wherever it stands. */
  lemma CleanCodeIgnoresWhitespace(a: string, w: char, b: string)
    requires IsWhitespace(w)
    ensures CleanCode(a + [w] + b) == CleanCode(a + b)
  {
    Seqs.FilterAppend(a + [w], b, NotWhitespace);
    Seqs.FilterAppend(a, [w], NotWhitespace);
    Seqs.FilterAppend(a, b, NotWhitespace);
    assert Seqs.Filter([w], NotWhitespace) == [] by {
      assert [w][..0] == [];
    }
    assert Seqs.Filter(a, NotWhitespace) + [] == Seqs.Filter(a, NotWhitespace);
  }

  /** Text with no whitespace and no lower-case letter is already clean. */
  lemma CleanCodeOfClean(s: string)
    requires forall i :: 0 <= i < |s| ==> !IsWhitespace(s[i]) && !IsLower(s[i])
    ensures CleanCode(s) == s
  {
    Seqs.FilterAllIsIdentity(s, NotWhitespace);
  }

  /** The class a Codice Fiscale admits at position `i`: six letters, two
      digits, a letter, two digits, a letter, three letters or digits. */
  predicate CodiceFiscaleCharOk(i: nat, c: char) {
    if i < 6 then IsUpper(c)
    else if i < 8 then IsDigit(c)
    else if i == 8 then IsUpper(c)
    else if i < 11 then IsDigit(c)
    else if i == 11 then IsUpper(c)
    else IsUpperAlnum(c)
  }

  /** `/^[A-Z]{6}[0-9]{2}[A-Z][0-9]{2}[A-Z][0-9A-Z]{3}$/`. */
  predicate IsCodiceFiscaleShape(c: string) {
    |c| == 16 && forall i :: 0 <= i < 16 ==> CodiceFiscaleCharOk(i, c[i])
  }

  /** `validateCodiceFiscale(s)`. */
  function ValidateCodiceFiscale(s: string): (r: bool)
    ensures r ==> |s| >= 16
    ensures r <==> IsCodiceFiscaleShape(CleanCode(s))
  {
    if |s| == 0 then false
    else
      var cleaned := CleanCode(s);
      assert |cleaned| <= |s|;
      if |cleaned| != 16 then false
      else IsCodiceFiscaleShape(cleaned)
  }

  /** A Codice Fiscale is accepted regardless of letter case and of any
      whitespace inside it. */
  lemma CodiceFiscaleIgnoresCaseAndSpaces(s: string, a: string, w: char, b: string)
    requires IsWhitespace(w)
    ensures ValidateCodiceFiscale(ToLower(s)) == ValidateCodiceFiscale(s)
    ensures ValidateCodiceFiscale(a + [w] + b) == ValidateCodiceFiscale(a + b)
  {
    CleanCodeIgnoresCase(s);
    CleanCodeIgnoresWhitespace(a, w, b);
  }

  /** A code written in the canonical shape is accepted, also in lower case. */
  lemma CodiceFiscaleShapeAccepted(c: string)
    requires IsCodiceFiscaleShape(c)
    ensures ValidateCodiceFiscale(c) && ValidateCodiceFiscale(ToLower(c))
  {
    assert forall i :: 0 <= i < |c| ==> CodiceFiscaleCharOk(i, c[i]);
    CleanCodeOfClean(c);
    CleanCodeIgnoresCase(c);
  }

  /** `validateCodiceDestinatario(s)`: seven upper-case letters or digits once
      whitespace is removed and letters are upper-cased. */
  function ValidateCodiceDestinatario(s: string): (r: bool)
    ensures r <==> |CleanCode(s)| == 7 && forall i :: 0 <= i < 7 ==> IsUpperAlnum(CleanCode(s)[i])
  {
    if |s| == 0 then false
    else
      var cleaned := CleanCode(s);
      |cleaned| == 7 && forall i :: 0 <= i < 7 ==> IsUpperAlnum(cleaned[i])
  }

  /** The all-zero code (recipient reached by certified e-mail) is accepted,
      and so is any code regardless of case and whitespace. */
  lemma CodiceDestinatarioExamples(s: string, a: string, w: char, b: string)
    requires IsWhitespace(w)
    ensures ValidateCodiceDestinatario("0000000")
    ensures ValidateCodiceDestinatario(ToLower(s)) == ValidateCodiceDestinatario(s)
    ensures ValidateCodiceDestinatario(a + [w] + b) == ValidateCodiceDestinatario(a + b)
  {
    CleanCodeOfClean("0000000");
    CleanCodeIgnoresCase(s);
    CleanCodeIgnoresWhitespace(a, w, b);
  }
}
