/**
 * The string formatting the application relies on: the decimal rendering of
 * an id, the zero-padded `{n:03d}` field of an inventory number, and the
 * `strip()` / `lower()` normalisation applied to form values. `strip()`
 * removes every character Python's `str.isspace` accepts; `lower()` is
 * modelled on the ASCII and Latin-1 letters.
 */
module Texte {

  function Chiffre(d: nat): (c: char)
    requires d < 10
    ensures '0' <= c <= '9' && c as int - '0' as int == d
  {
    (d + '0' as int) as char
  }

  predicate EstChiffre(c: char) { '0' <= c <= '9' }

  function ValeurChiffre(c: char): nat
    requires EstChiffre(c)
  {
    c as int - '0' as int
  }

  /** `str(n)` for a natural number: its decimal digits, without leading zeros. */
  function Decimal(n: nat): (s: string)
    ensures |s| >= 1
    ensures forall i :: 0 <= i < |s| ==> EstChiffre(s[i])
    ensures s[0] == '0' <==> n == 0
    ensures n < 10 ==> |s| == 1
    ensures n < 100 ==> |s| <= 2
    ensures n < 1000 ==> |s| <= 3
    ensures n >= 10 ==> |s| >= 2
    ensures n >= 100 ==> |s| >= 3
    ensures n >= 1000 ==> |s| > 3
  {
    if n < 10 then [Chiffre(n)] else Decimal(n / 10) + [Chiffre(n % 10)]
  }

  /** The value of a string of decimal digits, read the way `int(...)` reads it. */
  function Valeur(s: string): nat
    requires forall i :: 0 <= i < |s| ==> EstChiffre(s[i])
  {
    if |s| == 0 then 0 else 10 * Valeur(s[..|s| - 1]) + ValeurChiffre(s[|s| - 1])
  }

  function Zeros(k: nat): (z: string)
    ensures |z| == k && forall i :: 0 <= i < k ==> z[i] == '0'
  {
    if k == 0 then [] else Zeros(k - 1) + ['0']
  }

  /** `f"{n:03d}"`: the decimal digits of `n`, left-padded with zeros to at least three characters. */
  function Pad3(n: nat): (s: string)
    ensures |s| >= 3 && forall i :: 0 <= i < |s| ==> EstChiffre(s[i])
    ensures n < 1000 ==> |s| == 3
    ensures |s| > 3 ==> s[0] != '0'
  {
    var d := Decimal(n);
    if |d| < 3 then Zeros(3 - |d|) + d else d
  }

  /** Reading back the decimal rendering gives the number. */
  lemma {:induction false} ValeurDecimal(n: nat)
    ensures Valeur(Decimal(n)) == n
  {
    if n >= 10 {
      var d := Decimal(n);
      ValeurDecimal(n / 10);
      assert d[..|d| - 1] == Decimal(n / 10);
    }
  }

  /** Leading zeros do not change the value read. */
  lemma {:induction false} ValeurZeros(k: nat, s: string)
    requires forall i :: 0 <= i < |s| ==> EstChiffre(s[i])
    ensures Valeur(Zeros(k) + s) == Valeur(s)
  {
    if |s| == 0 {
      assert Zeros(k) + s == Zeros(k);
      if k > 0 {
        assert Zeros(k)[..k - 1] == Zeros(k - 1);
        ValeurZeros(k - 1, s);
        assert Zeros(k - 1) + s == Zeros(k - 1);
      }
    } else {
      var n := |s| - 1;
      assert (Zeros(k) + s)[..|Zeros(k) + s| - 1] == Zeros(k) + s[..n];
      ValeurZeros(k, s[..n]);
    }
  }

  /** The three-digit field reads back as the number it was made from. */
  lemma Pad3Valeur(n: nat)
    ensures Valeur(Pad3(n)) == n
  {
    var d := Decimal(n);
    ValeurDecimal(n);
    if |d| < 3 {
      ValeurZeros(3 - |d|, d);
    }
  }

  /** Distinct numbers give distinct three-digit fields. */
  lemma Pad3Injectif(m: nat, n: nat)
    requires m != n
    ensures Pad3(m) != Pad3(n)
  {
    Pad3Valeur(m);
    Pad3Valeur(n);
  }

  /**
   * The characters Python's `str.strip()` removes (those `str.isspace`
   * accepts): the ASCII controls 9-13 and 28-31, the space, and the Unicode
   * separators and spaces.
   */
  predicate EstEspace(c: char)
  {
    || ('\t' <= c <= '\r') || ('\U{1C}' <= c <= '\U{1F}') || c == ' '
    || c == '\U{85}' || c == '\U{A0}' || c == '\U{1680}' || ('\U{2000}' <= c <= '\U{200A}')
    || c == '\U{2028}' || c == '\U{2029}' || c == '\U{202F}' || c == '\U{205F}' || c == '\U{3000}'
  }

  function SansEspaceDebut(s: string): (r: string)
    ensures |r| <= |s| && r == s[|s| - |r|..]
    ensures |r| > 0 ==> !EstEspace(r[0])
    ensures forall i :: 0 <= i < |s| - |r| ==> EstEspace(s[i])
  {
    if |s| > 0 && EstEspace(s[0]) then SansEspaceDebut(s[1..]) else s
  }

  function SansEspaceFin(s: string): (r: string)
    ensures |r| <= |s| && r == s[..|r|]
    ensures |r| > 0 ==> !EstEspace(r[|r| - 1])
    ensures forall i :: |r| <= i < |s| ==> EstEspace(s[i])
  {
    if |s| > 0 && EstEspace(s[|s| - 1]) then SansEspaceFin(s[..|s| - 1]) else s
  }

  /** `s.strip()`: the longest middle part of `s` that neither starts nor ends with whitespace. */
  function Strip(s: string): (r: string)
    ensures |r| > 0 ==> !EstEspace(r[0]) && !EstEspace(r[|r| - 1])
  {
    SansEspaceFin(SansEspaceDebut(s))
  }

  /**
   * A capital letter that `str.lower()` maps 32 code points up: the ASCII
   * capitals and the Latin-1 capitals U+00C0-U+00DE, except the
   * multiplication sign U+00D7.
   */
  predicate Majuscule(c: char)
  {
    ('A' <= c <= 'Z') || ('\U{C0}' <= c <= '\U{DE}' && c != '\U{D7}')
  }

  /** `s.lower()` on the ASCII and Latin-1 letters; every other character is left alone. */
  function Lower(s: string): (r: string)
    ensures |r| == |s|
    ensures forall i :: 0 <= i < |s| ==> !Majuscule(r[i])
    ensures forall i :: 0 <= i < |s| && !Majuscule(s[i]) ==> r[i] == s[i]
    ensures forall i :: 0 <= i < |s| && Majuscule(s[i]) ==> r[i] == (s[i] as int + 32) as char
  {
    seq(|s|, i requires 0 <= i < |s| =>
      if Majuscule(s[i]) then (s[i] as int + 32) as char else s[i])
  }

  /** `s.strip().lower()`, the normalisation applied to e-mail addresses and to the identity check. */
  function Normaliser(s: string): (r: string)
    ensures |r| == |Strip(s)|
    ensures |r| > 0 ==> !EstEspace(r[0]) && !EstEspace(r[|r| - 1])
    ensures forall i :: 0 <= i < |r| ==> !Majuscule(r[i])
  {
    var t := Strip(s);
    if |t| == 0 then Lower(t)
    else
      LowerEspace(t, 0);
      LowerEspace(t, |t| - 1);
      Lower(t)
  }

  /** Lower-casing neither creates nor removes whitespace. */
  lemma LowerEspace(s: string, i: nat)
    requires i < |s|
    ensures EstEspace(Lower(s)[i]) == EstEspace(s[i])
  {
    if Majuscule(s[i]) {
      assert 'a' <= Lower(s)[i] <= 'z' || '\U{E0}' <= Lower(s)[i] <= '\U{FE}';
    }
  }

  /** Normalising twice is normalising once, so a stored normalised value compares equal to itself. */
  lemma NormaliserIdempotent(s: string)
    ensures Normaliser(Normaliser(s)) == Normaliser(s)
  {
    var t := Strip(s);
    var l := Lower(t);
    if |l| > 0 {
      LowerEspace(t, 0);
      LowerEspace(t, |t| - 1);
    }
    assert SansEspaceDebut(l) == l;
    assert SansEspaceFin(l) == l;
    assert Lower(l) == l;
  }
}
