/** Calendar dates as Python's `datetime.date`, and their ISO text `f'{fecha}'`
    (`YYYY-MM-DD`, zero-padded). */
module Dates {
  import opened Text
  import opened Ordering

  datatype Fecha = Fecha(anio: int, mes: int, dia: int) {
    /** The range `datetime.date` accepts: years 1 to 9999 and real calendar days. */
    predicate Valida() {
      1 <= anio <= 9999 && 1 <= mes <= 12 && 1 <= dia <= DiasDelMes(anio, mes)
    }
  }

  /** A value of Python's `date` type. */
  type FechaValida = f: Fecha | f.Valida() witness Fecha(1970, 1, 1)

  predicate Bisiesto(anio: int) {
    anio % 4 == 0 && (anio % 100 != 0 || anio % 400 == 0)
  }

  function DiasDelMes(anio: int, mes: int): int {
    if mes == 2 then (if Bisiesto(anio) then 29 else 28)
    else if mes == 4 || mes == 6 || mes == 9 || mes == 11 then 30
    else 31
  }

  /** Chronological order of dates (Python's `f <= g` on `date`). */
  predicate FechaLeq(f: Fecha, g: Fecha) {
    f.anio < g.anio || (f.anio == g.anio && (f.mes < g.mes || (f.mes == g.mes && f.dia <= g.dia)))
  }

  function Pow10(n: nat): (p: nat)
    ensures p >= 1
  {
    if n == 0 then 1 else 10 * Pow10(n - 1)
  }

  /** The last `width` decimal digits of `n`, most significant first (`'%0*d' % (width, n)`
      when `n` has at most `width` digits). */
  function Digits(n: nat, width: nat): (s: string)
    ensures |s| == width
  {
    if width == 0 then ""
    else [DigitChar((n / Pow10(width - 1)) % 10)] + Digits(n % Pow10(width - 1), width - 1)
  }

  lemma QuotientBound(n: nat, p: nat)
    requires p >= 1 && n < 10 * p
    ensures n / p < 10 && n == (n / p) * p + n % p
  {
  }

  /** The leading digit and the remaining digits of a number that fits in `width`. */
  lemma SplitDigits(n: nat, width: nat) returns (d: nat, r: nat)
    requires width > 0 && n < Pow10(width)
    ensures d < 10 && r < Pow10(width - 1)
    ensures n == d * Pow10(width - 1) + r
    ensures Digits(n, width) == [DigitChar(d)] + Digits(r, width - 1)
  {
    var p := Pow10(width - 1);
    assert Pow10(width) == 10 * p;
    QuotientBound(n, p);
    d, r := n / p, n % p;
    assert d % 10 == d;
    assert Digits(n, width) == [DigitChar(d % 10)] + Digits(r, width - 1);
  }

  /** Comparing `d * p + r` numbers with `r < p` by their leading part first. */
  lemma CompareSplit(dn: nat, rn: nat, dm: nat, rm: nat, p: nat)
    requires rn < p && rm < p
    ensures dn < dm ==> dn * p + rn < dm * p + rm
    ensures dn == dm ==> (dn * p + rn <= dm * p + rm <==> rn <= rm)
  {
    if dn < dm {
      assert (dn + 1) * p <= dm * p;
    }
  }

  lemma LexLeqCons(c: char, s: string, d: char, t: string)
    ensures LexLeq([c] + s, [d] + t) <==> c < d || (c == d && LexLeq(s, t))
  {
    assert ([c] + s)[1..] == s && ([d] + t)[1..] == t;
  }

  /** Fixed-width digit strings compare as the numbers they spell. */
  lemma {:induction false} DigitsOrder(n: nat, m: nat, width: nat)
    requires n < Pow10(width) && m < Pow10(width)
    ensures LexLeq(Digits(n, width), Digits(m, width)) <==> n <= m
  {
    if width > 0 {
      var dn, rn := SplitDigits(n, width);
      var dm, rm := SplitDigits(m, width);
      CompareSplit(dn, rn, dm, rm, Pow10(width - 1));
      CompareSplit(dm, rm, dn, rn, Pow10(width - 1));
      LexLeqCons(DigitChar(dn), Digits(rn, width - 1), DigitChar(dm), Digits(rm, width - 1));
      DigitsOrder(rn, rm, width - 1);
    }
  }

  /** `Digits` is injective on the numbers that fit in the width. */
  lemma DigitsInjective(n: nat, m: nat, width: nat)
    requires n < Pow10(width) && m < Pow10(width)
    requires Digits(n, width) == Digits(m, width)
    ensures n == m
  {
    LexLeqRefl(Digits(n, width));
    DigitsOrder(n, m, width);
    DigitsOrder(m, n, width);
  }

  /** `str(fecha)`: `YYYY-MM-DD`. */
  function IsoFormat(f: Fecha): (s: string)
    requires f.Valida()
    ensures |s| == 10
  {
    Digits(f.anio, 4) + ("-" + (Digits(f.mes, 2) + ("-" + Digits(f.dia, 2))))
  }

  /** One fixed-width field followed by the rest of the text. */
  lemma FieldStep(x: nat, y: nat, width: nat, s: string, t: string)
    requires x < Pow10(width) && y < Pow10(width)
    ensures LexLeq(Digits(x, width) + s, Digits(y, width) + t) <==> x < y || (x == y && LexLeq(s, t))
  {
    LexLeqConcat(Digits(x, width), s, Digits(y, width), t);
    DigitsOrder(x, y, width);
    if Digits(x, width) == Digits(y, width) {
      DigitsInjective(x, y, width);
    }
  }

  lemma DashStep(s: string, t: string)
    ensures LexLeq("-" + s, "-" + t) <==> LexLeq(s, t)
  {
    LexLeqConcat("-", s, "-", t);
  }

  /** Text carrying the ISO date first, followed by the same suffix, sorts in date order:
      sorting report names by text sorts them chronologically. */
  lemma IsoOrder(f: Fecha, g: Fecha, suffix: string)
    requires f.Valida() && g.Valida()
    ensures LexLeq(IsoFormat(f) + suffix, IsoFormat(g) + suffix) <==> FechaLeq(f, g)
  {
    var df, dg := Digits(f.dia, 2) + suffix, Digits(g.dia, 2) + suffix;
    var mf, mg := Digits(f.mes, 2) + ("-" + df), Digits(g.mes, 2) + ("-" + dg);
    assert IsoFormat(f) + suffix == Digits(f.anio, 4) + ("-" + mf);
    assert IsoFormat(g) + suffix == Digits(g.anio, 4) + ("-" + mg);
    LexLeqRefl(suffix);
    FieldStep(f.dia, g.dia, 2, suffix, suffix);
    DashStep(df, dg);
    FieldStep(f.mes, g.mes, 2, "-" + df, "-" + dg);
    DashStep(mf, mg);
    FieldStep(f.anio, g.anio, 4, "-" + mf, "-" + mg);
  }

  /** Distinct dates have distinct ISO texts. */
  lemma IsoFormatInjective(f: Fecha, g: Fecha)
    requires f.Valida() && g.Valida()
    ensures IsoFormat(f) == IsoFormat(g) ==> f == g
  {
    if IsoFormat(f) == IsoFormat(g) {
      LexLeqRefl(IsoFormat(f) + "");
      IsoOrder(f, g, "");
      IsoOrder(g, f, "");
    }
  }
}
