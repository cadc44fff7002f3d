/** The invoice arithmetic of `src/lib/services/fatture.ts`: line and VAT
    totals rounded to cents, the per-year "highest number + 1" numbering, the
    statistics of the current year and the list of (year, month) periods that
    have invoices. Amounts are exact reals; `Math.round(x * 100) / 100` is
    `Floor(100 x + 1/2) / 100`. */
module Fatture {
  import opened Basics
  import Seqs
  import Dates

  // ---------------------------------------------------------------------------
  // Line and VAT totals

  /** The VAT codes offered for a line and their rates in percent. */
  datatype CodiceIva = V22 | V10 | V4 | N1 | N2_1 | N3_1 | N6_9

  function Aliquota(c: CodiceIva): (rate: real)
    ensures 0.0 <= rate <= 22.0
  {
    match c
    case V22 => 22.0
    case V10 => 10.0
    case V4 => 4.0
    case N1 => 0.0
    case N2_1 => 0.0
    case N3_1 => 0.0
    case N6_9 => 0.0
  }

  /** The fields of an invoice line the totals read. */
  datatype Riga = Riga(
    quantita: real,
    prezzoUnitario: real,
    scontoPercentuale: Option<real>,
    aliquotaIva: real)

  /** `quantita * prezzo_unitario * (1 - (sconto_percentuale || 0) / 100)`. */
  function LineTotal(r: Riga): (t: real)
    ensures r.scontoPercentuale.GetOr(0.0) == 0.0 ==> t == r.quantita * r.prezzoUnitario
    ensures r.quantita >= 0.0 && r.prezzoUnitario >= 0.0 && 0.0 <= r.scontoPercentuale.GetOr(0.0) <= 100.0 ==>
      0.0 <= t <= r.quantita * r.prezzoUnitario
  {
    var gross := r.quantita * r.prezzoUnitario;
    var factor := 1.0 - r.scontoPercentuale.GetOr(0.0) / 100.0;
    assert r.quantita >= 0.0 && r.prezzoUnitario >= 0.0 && 0.0 <= factor <= 1.0 ==> 0.0 <= gross * factor <= gross by {
      if r.quantita >= 0.0 && r.prezzoUnitario >= 0.0 && 0.0 <= factor <= 1.0 {
        assert gross >= 0.0;
        assert gross * factor <= gross * 1.0;
      }
    }
    gross * factor
  }

  /** The VAT of one line, from its unrounded total. */
  function LineVat(r: Riga): (v: real)
    ensures r.aliquotaIva == 0.0 ==> v == 0.0
    ensures LineTotal(r) >= 0.0 && 0.0 <= r.aliquotaIva <= 22.0 ==> 0.0 <= v <= LineTotal(r) * 0.22
  {
    var t := LineTotal(r);
    assert t >= 0.0 && 0.0 <= r.aliquotaIva <= 22.0 ==> 0.0 <= t * (r.aliquotaIva / 100.0) <= t * 0.22 by {
      if t >= 0.0 && 0.0 <= r.aliquotaIva <= 22.0 {
        assert 0.0 <= r.aliquotaIva / 100.0 <= 0.22;
      }
    }
    t * (r.aliquotaIva / 100.0)
  }

  /** `Math.round(x * 100)`: the nearest whole number of cents, halves upward. */
  function Cents(x: real): (k: int)
    ensures x * 100.0 - 0.5 < k as real <= x * 100.0 + 0.5
  {
    (x * 100.0 + 0.5).Floor
  }

  /** `Math.round(x * 100) / 100`. */
  function RoundCents(x: real): (r: real)
    ensures x - 0.005 < r <= x + 0.005
  {
    Cents(x) as real / 100.0
  }

  datatype Totali = Totali(subtotale: real, iva: real, totale: real)

  /** The totals as sums of the unrounded line figures, each rounded once. */
  function TotaliOf(righe: seq<Riga>): (t: Totali)
    ensures var sub := Seqs.SumOf(righe, LineTotal); sub - 0.005 < t.subtotale <= sub + 0.005
    ensures var iva := Seqs.SumOf(righe, LineVat); iva - 0.005 < t.iva <= iva + 0.005
    ensures var all := Seqs.SumOf(righe, LineTotal) + Seqs.SumOf(righe, LineVat);
      all - 0.005 < t.totale <= all + 0.005
  {
    var subtotale := Seqs.SumOf(righe, LineTotal);
    var iva := Seqs.SumOf(righe, LineVat);
    Totali(RoundCents(subtotale), RoundCents(iva), RoundCents(subtotale + iva))
  }

  /** `calcolaTotaliFattura(righe)`: one pass accumulating the unrounded
      subtotal and VAT, rounding only when the result is returned. */
  method CalcolaTotaliFattura(righe: seq<Riga>) returns (t: Totali)
    ensures t == TotaliOf(righe)
    ensures t.totale == RoundCents(Seqs.SumOf(righe, LineTotal) + Seqs.SumOf(righe, LineVat))
  {
    var subtotale := 0.0;
    var iva := 0.0;
    var i := 0;
    while i < |righe|
      invariant 0 <= i <= |righe|
      invariant subtotale == Seqs.SumOf(righe[..i], LineTotal)
      invariant iva == Seqs.SumOf(righe[..i], LineVat)
    {
      assert righe[..i + 1][..i] == righe[..i];
      var totaleRiga := LineTotal(righe[i]);
      subtotale := subtotale + totaleRiga;
      iva := iva + totaleRiga * (righe[i].aliquotaIva / 100.0);
      i := i + 1;
    }
    assert righe[..|righe|] == righe;
    t := Totali(RoundCents(subtotale), RoundCents(iva), RoundCents(subtotale + iva));
  }

  /** No lines, all totals 0. */
  lemma TotaliOfNoLines()
    ensures TotaliOf([]) == Totali(0.0, 0.0, 0.0)
  {
    assert Cents(0.0) == 0;
  }

  /** Rounding the sum and rounding the parts disagree by at most one cent. */
  lemma CentsOfSum(x: real, y: real)
    ensures -1 <= Cents(x + y) - Cents(x) - Cents(y) <= 1
  {
  }

  /** The invoice total is within one cent of the rounded subtotal plus the
      rounded VAT. */
  lemma TotaleWithinACent(righe: seq<Riga>)
    ensures var t := TotaliOf(righe);
      -0.01 <= t.totale - (t.subtotale + t.iva) <= 0.01
  {
    CentsOfSum(Seqs.SumOf(righe, LineTotal), Seqs.SumOf(righe, LineVat));
  }

  /** The cent can be there: one line of 0.025 at 22% VAT gives subtotal
      0.03 and VAT 0.01, but total 0.03. */
  lemma TotaleCanDifferFromParts()
    ensures var t := TotaliOf([Riga(1.0, 0.025, None, 22.0)]);
      t == Totali(0.03, 0.01, 0.03) && t.totale != t.subtotale + t.iva
  {
    var righe := [Riga(1.0, 0.025, None, 22.0)];
    assert righe[..0] == [];
    assert Seqs.SumOf(righe, LineTotal) == 0.025;
    assert Seqs.SumOf(righe, LineVat) == 0.0055;
    assert Cents(0.025) == 3;
    assert Cents(0.0055) == 1;
    assert Cents(0.0305) == 3;
  }

  /** When every line carries the same rate, the VAT is that rate applied to
      the unrounded subtotal. */
  lemma {:induction false} UniformRateVat(righe: seq<Riga>, rate: real)
    requires forall i :: 0 <= i < |righe| ==> righe[i].aliquotaIva == rate
    ensures Seqs.SumOf(righe, LineVat) == Seqs.SumOf(righe, LineTotal) * (rate / 100.0)
    decreases |righe|
  {
    if righe != [] {
      UniformRateVat(righe[..|righe| - 1], rate);
    }
  }

  /** With non-negative line totals and rates from the VAT table, the VAT lies
      between 0 and 22% of the subtotal. */
  lemma {:induction false} VatWithinTableRates(righe: seq<Riga>)
    requires forall i :: 0 <= i < |righe| ==> LineTotal(righe[i]) >= 0.0
    requires forall i :: 0 <= i < |righe| ==> exists c :: Aliquota(c) == righe[i].aliquotaIva
    ensures 0.0 <= Seqs.SumOf(righe, LineVat) <= Seqs.SumOf(righe, LineTotal) * 0.22
    decreases |righe|
  {
    if righe != [] {
      var last := righe[|righe| - 1];
      VatWithinTableRates(righe[..|righe| - 1]);
      var c :| Aliquota(c) == last.aliquotaIva;
      assert 0.0 <= LineVat(last) <= LineTotal(last) * 0.22;
    }
  }

  // ---------------------------------------------------------------------------
  // Numbering

  datatype Stato = Bozza | Emessa | Inviata | Pagata | Annullata

  /** The fields of an invoice the numbering and the statistics read. */
  datatype Fattura = Fattura(
    numeroFattura: int,
    annoFattura: int,
    dataFattura: Dates.Date,
    totale: real,
    stato: Stato)

  /** The highest invoice number of a year, if the year has invoices. */
  function MaxNumero(fatture: seq<Fattura>, anno: int): (r: Option<int>)
    ensures r.None? <==> forall f :: f in fatture ==> f.annoFattura != anno
    ensures r.Some? ==> exists f :: f in fatture && f.annoFattura == anno && f.numeroFattura == r.value
    ensures r.Some? ==> forall f :: f in fatture && f.annoFattura == anno ==> f.numeroFattura <= r.value
  {
    if fatture == [] then None
    else
      var last := fatture[|fatture| - 1];
      var rest := fatture[..|fatture| - 1];
      assert fatture == rest + [last];
      var m := MaxNumero(rest, anno);
      if last.annoFattura != anno then m
      else if m.Some? && m.value >= last.numeroFattura then m
      else Some(last.numeroFattura)
  }

  /** `getNextNumeroFattura(anno)`: the year's highest number plus one, or 1
      for a year without invoices. */
  function NextNumero(fatture: seq<Fattura>, anno: int): (r: int)
    ensures forall f :: f in fatture && f.annoFattura == anno ==> f.numeroFattura < r
    ensures (forall f :: f in fatture ==> f.annoFattura != anno) ==> r == 1
    ensures (exists f :: f in fatture && f.annoFattura == anno) ==>
      exists f :: f in fatture && f.annoFattura == anno && r == f.numeroFattura + 1
  {
    match MaxNumero(fatture, anno)
    case Some(m) => m + 1
    case None => 1
  }

  /** Invoices of other years do not move a year's next number. */
  lemma NextNumeroIgnoresOtherYears(fatture: seq<Fattura>, f: Fattura, anno: int)
    requires f.annoFattura != anno
    ensures NextNumero(fatture + [f], anno) == NextNumero(fatture, anno)
  {
    assert (fatture + [f])[..|fatture + [f]| - 1] == fatture;
  }

  /** No two invoices of one year share a number. */
  predicate UniqueNumbers(fatture: seq<Fattura>) {
    forall i, j :: 0 <= i < j < |fatture| && fatture[i].annoFattura == fatture[j].annoFattura ==>
      fatture[i].numeroFattura != fatture[j].numeroFattura
  }

  /** The numbering step of `createFattura`: the draft gets its year's next
      number and is appended. */
  function CreaFattura(fatture: seq<Fattura>, draft: Fattura): (r: seq<Fattura>)
    ensures |r| == |fatture| + 1 && r[..|fatture|] == fatture
    ensures r[|fatture|] == draft.(numeroFattura := NextNumero(fatture, draft.annoFattura))
  {
    fatture + [draft.(numeroFattura := NextNumero(fatture, draft.annoFattura))]
  }

  /** Creating an invoice keeps the numbers of every year distinct. */
  lemma CreaFatturaKeepsNumbersUnique(fatture: seq<Fattura>, draft: Fattura)
    requires UniqueNumbers(fatture)
    ensures UniqueNumbers(CreaFattura(fatture, draft))
  {
    var r := CreaFattura(fatture, draft);
    forall i, j | 0 <= i < j < |r| && r[i].annoFattura == r[j].annoFattura
      ensures r[i].numeroFattura != r[j].numeroFattura
    {
      if j == |fatture| {
        assert r[i] == fatture[i] && fatture[i] in fatture;
      }
    }
  }

  /** Numbers 1..n in use for a year (n present), the next one is n + 1: a
      year numbered from 1 without gaps stays so. */
  lemma NextNumeroProgressive(fatture: seq<Fattura>, anno: int, n: nat)
    requires forall f :: f in fatture && f.annoFattura == anno ==> 1 <= f.numeroFattura <= n
    requires n >= 1 ==> exists f :: f in fatture && f.annoFattura == anno && f.numeroFattura == n
    ensures NextNumero(fatture, anno) == n + 1
  {
  }

  // ---------------------------------------------------------------------------
  // Statistics of the current year

  datatype FattureStats = FattureStats(
    totaleFatture: nat,
    totaleFatturato: real,
    fatturePagate: nat,
    fattureDaPagare: nat,
    importoDaPagare: real,
    fattureMeseCorrente: nat,
    fatturatoMeseCorrente: real)

  function Totale(f: Fattura): real { f.totale }

  function OfYear(anno: int): Fattura -> bool {
    (f: Fattura) => f.annoFattura == anno
  }

  function WithStato(s: Stato): Fattura -> bool {
    (f: Fattura) => f.stato == s
  }

  /** `new Date(data_fattura).getMonth() + 1 === mese`. */
  function InMonth(mese: int): Fattura -> bool {
    (f: Fattura) => f.dataFattura.month == mese
  }

  /** `getFattureStats()`, with the current year and month as parameters:
      paid counts `pagata`, to be paid counts `emessa`, the amount to be paid
      sums the `emessa` totals. */
  function Stats(fatture: seq<Fattura>, currentYear: int, currentMonth: int): (r: FattureStats)
    ensures r.totaleFatture <= |fatture|
    ensures r.fattureMeseCorrente <= r.totaleFatture
  {
    var year := Seqs.Filter(fatture, OfYear(currentYear));
    var emesse := Seqs.Filter(year, WithStato(Emessa));
    var mese := Seqs.Filter(year, InMonth(currentMonth));
    FattureStats(
      |year|,
      Seqs.SumOf(year, Totale),
      |Seqs.Filter(year, WithStato(Pagata))|,
      |emesse|,
      Seqs.SumOf(emesse, Totale),
      |mese|,
      Seqs.SumOf(mese, Totale))
  }

  /** Every invoice has exactly one state: the five state counts add up. */
  lemma {:induction false} StatiPartition(s: seq<Fattura>)
    ensures |Seqs.Filter(s, WithStato(Bozza))| + |Seqs.Filter(s, WithStato(Emessa))|
          + |Seqs.Filter(s, WithStato(Inviata))| + |Seqs.Filter(s, WithStato(Pagata))|
          + |Seqs.Filter(s, WithStato(Annullata))| == |s|
    decreases |s|
  {
    if s != [] {
      StatiPartition(s[..|s| - 1]);
    }
  }

  /** Paid plus to-be-paid invoices never exceed the year's invoices; the
      difference is the drafts, the sent and the cancelled ones. */
  lemma PagateDaPagareBounded(fatture: seq<Fattura>, currentYear: int, currentMonth: int)
    ensures var r := Stats(fatture, currentYear, currentMonth);
      r.fatturePagate + r.fattureDaPagare <= r.totaleFatture
  {
    StatiPartition(Seqs.Filter(fatture, OfYear(currentYear)));
  }

  /** With non-negative totals, what is still to be paid is part of the
      year's turnover. */
  lemma ImportoDaPagareBounded(fatture: seq<Fattura>, currentYear: int, currentMonth: int)
    requires forall i :: 0 <= i < |fatture| ==> fatture[i].totale >= 0.0
    ensures var r := Stats(fatture, currentYear, currentMonth);
      0.0 <= r.importoDaPagare <= r.totaleFatturato
  {
    var year := Seqs.Filter(fatture, OfYear(currentYear));
    assert forall i :: 0 <= i < |year| ==> year[i] in fatture;
    Seqs.SumOfFilterLe(year, WithStato(Emessa), Totale);
    Seqs.SumOfNonNegative(Seqs.Filter(year, WithStato(Emessa)), Totale);
  }

  /** No invoices, all figures 0. */
  lemma StatsEmpty(currentYear: int, currentMonth: int)
    ensures Stats([], currentYear, currentMonth) == FattureStats(0, 0.0, 0, 0, 0.0, 0, 0.0)
  {
  }

  /** What one more invoice adds: an invoice of another year adds nothing; one
      of the year adds 1 and its total to the year's figures, 1 to the paid
      invoices when `pagata`, 1 and its total to the ones to be paid when
      `emessa`, and 1 and its total to the month's figures when dated in the
      current month. */
  lemma StatsAppend(fatture: seq<Fattura>, f: Fattura, currentYear: int, currentMonth: int)
    ensures var a := Stats(fatture, currentYear, currentMonth);
            var b := Stats(fatture + [f], currentYear, currentMonth);
            var y := f.annoFattura == currentYear;
      && b.totaleFatture == a.totaleFatture + (if y then 1 else 0)
      && b.totaleFatturato == a.totaleFatturato + (if y then f.totale else 0.0)
      && b.fatturePagate == a.fatturePagate + (if y && f.stato == Pagata then 1 else 0)
      && b.fattureDaPagare == a.fattureDaPagare + (if y && f.stato == Emessa then 1 else 0)
      && b.importoDaPagare == a.importoDaPagare + (if y && f.stato == Emessa then f.totale else 0.0)
      && b.fattureMeseCorrente == a.fattureMeseCorrente + (if y && f.dataFattura.month == currentMonth then 1 else 0)
      && b.fatturatoMeseCorrente == a.fatturatoMeseCorrente + (if y && f.dataFattura.month == currentMonth then f.totale else 0.0)
  {
    var year := Seqs.Filter(fatture, OfYear(currentYear));
    Seqs.FilterSnoc(fatture, f, OfYear(currentYear));
    if f.annoFattura == currentYear {
      Seqs.FilterSnoc(year, f, WithStato(Pagata));
      Seqs.FilterSnoc(year, f, WithStato(Emessa));
      Seqs.FilterSnoc(year, f, InMonth(currentMonth));
      Seqs.FilteredSumAppend(year, f, WithStato(Emessa), Totale);
      Seqs.FilteredSumAppend(year, f, InMonth(currentMonth), Totale);
      assert (year + [f])[..|year + [f]| - 1] == year;
    }
  }

  /** A sent invoice of the year counts in the total but neither as paid nor
      as to be paid. */
  lemma InviataCountedInNeither(fatture: seq<Fattura>, f: Fattura, currentYear: int, currentMonth: int)
    requires f.annoFattura == currentYear && f.stato == Inviata
    ensures var a := Stats(fatture, currentYear, currentMonth);
            var b := Stats(fatture + [f], currentYear, currentMonth);
      && b.totaleFatture == a.totaleFatture + 1
      && b.totaleFatturato == a.totaleFatturato + f.totale
      && b.fatturePagate == a.fatturePagate
      && b.fattureDaPagare == a.fattureDaPagare
      && b.importoDaPagare == a.importoDaPagare
  {
    var year := Seqs.Filter(fatture, OfYear(currentYear));
    Seqs.FilterSnoc(fatture, f, OfYear(currentYear));
    Seqs.FilterSnoc(year, f, WithStato(Pagata));
    Seqs.FilterSnoc(year, f, WithStato(Emessa));
    assert (year + [f])[..|year + [f]| - 1] == year;
  }

  // ---------------------------------------------------------------------------
  // Periods with invoices

  datatype Periodo = Periodo(anno: int, mese: int, count: nat)

  /** The order of the period list: later year first, then later month. */
  predicate Later(a: Periodo, b: Periodo) {
    a.anno > b.anno || (a.anno == b.anno && a.mese > b.mese)
  }

  predicate StrictlyDescending(ps: seq<Periodo>) {
    forall i, j :: 0 <= i < j < |ps| ==> Later(ps[i], ps[j])
  }

  /** The count recorded for a period (0 when the period is not listed). */
  function CountOf(ps: seq<Periodo>, anno: int, mese: int): nat {
    if ps == [] then 0
    else (if ps[0].anno == anno && ps[0].mese == mese then ps[0].count else 0) + CountOf(ps[1..], anno, mese)
  }

  function SumCounts(ps: seq<Periodo>): nat {
    if ps == [] then 0 else ps[0].count + SumCounts(ps[1..])
  }

  /** `periodi.set(key, (periodi.get(key) || 0) + 1)` on a list kept in the
      final order: the period's count goes up by one, a new period enters at
      its place with count 1. */
  function InsertPeriod(ps: seq<Periodo>, anno: int, mese: int): (r: seq<Periodo>)
    ensures |ps| <= |r| <= |ps| + 1
    ensures Listed(r, Periodo(anno, mese, 0))
  {
    var p := Periodo(anno, mese, 0);
    if ps == [] then
      assert [Periodo(anno, mese, 1)][0].anno == anno;
      [Periodo(anno, mese, 1)]
    else if ps[0].anno == anno && ps[0].mese == mese then
      var r := [ps[0].(count := ps[0].count + 1)] + ps[1..];
      assert r[0].anno == anno && r[0].mese == mese;
      r
    else if Later(ps[0], p) then
      var rest := InsertPeriod(ps[1..], anno, mese);
      var r := [ps[0]] + rest;
      assert Listed(r, p) by {
        var j :| 0 <= j < |rest| && rest[j].anno == anno && rest[j].mese == mese;
        assert r[j + 1] == rest[j];
      }
      r
    else
      var r := [Periodo(anno, mese, 1)] + ps;
      assert r[0].anno == anno && r[0].mese == mese;
      r
  }

  /** Inserting counts one more invoice for its period and none for others. */
  lemma {:induction false} InsertPeriodCounts(ps: seq<Periodo>, anno: int, mese: int, y: int, m: int)
    ensures CountOf(InsertPeriod(ps, anno, mese), y, m) ==
      CountOf(ps, y, m) + (if y == anno && m == mese then 1 else 0)
    decreases |ps|
  {
    var r := InsertPeriod(ps, anno, mese);
    if ps == [] {
      assert r[1..] == [];
    } else if ps[0].anno == anno && ps[0].mese == mese {
      assert r[1..] == ps[1..];
    } else if Later(ps[0], Periodo(anno, mese, 0)) {
      assert r[1..] == InsertPeriod(ps[1..], anno, mese);
      InsertPeriodCounts(ps[1..], anno, mese, y, m);
    } else {
      assert r[1..] == ps;
    }
  }

  /** Inserting adds one to the total of the counts. */
  lemma {:induction false} InsertPeriodSum(ps: seq<Periodo>, anno: int, mese: int)
    ensures SumCounts(InsertPeriod(ps, anno, mese)) == SumCounts(ps) + 1
    decreases |ps|
  {
    var r := InsertPeriod(ps, anno, mese);
    if ps == [] {
      assert r[1..] == [];
    } else if ps[0].anno == anno && ps[0].mese == mese {
      assert r[1..] == ps[1..];
    } else if Later(ps[0], Periodo(anno, mese, 0)) {
      assert r[1..] == InsertPeriod(ps[1..], anno, mese);
      InsertPeriodSum(ps[1..], anno, mese);
    } else {
      assert r[1..] == ps;
    }
  }

  /** The period of `p` has an entry in `ps`. */
  predicate Listed(ps: seq<Periodo>, p: Periodo) {
    exists j :: 0 <= j < |ps| && ps[j].anno == p.anno && ps[j].mese == p.mese
  }

  predicate PositiveCounts(ps: seq<Periodo>) {
    forall i :: 0 <= i < |ps| ==> ps[i].count >= 1
  }

  /** Inserting keeps every count at least 1. */
  lemma {:induction false} InsertPeriodPositive(ps: seq<Periodo>, anno: int, mese: int)
    requires PositiveCounts(ps)
    ensures PositiveCounts(InsertPeriod(ps, anno, mese))
    decreases |ps|
  {
    var r := InsertPeriod(ps, anno, mese);
    if ps == [] {
    } else if ps[0].anno == anno && ps[0].mese == mese {
      assert forall i :: 1 <= i < |r| ==> r[i] == ps[i];
    } else if Later(ps[0], Periodo(anno, mese, 0)) {
      var tail := InsertPeriod(ps[1..], anno, mese);
      InsertPeriodPositive(ps[1..], anno, mese);
      assert forall i :: 1 <= i < |r| ==> r[i] == tail[i - 1];
    } else {
      assert forall i :: 1 <= i < |r| ==> r[i] == ps[i - 1];
    }
  }

  /** Inserting keeps the list strictly descending. */
  lemma {:induction false} InsertPeriodSorted(ps: seq<Periodo>, anno: int, mese: int)
    requires StrictlyDescending(ps)
    ensures StrictlyDescending(InsertPeriod(ps, anno, mese))
    decreases |ps|
  {
    var r := InsertPeriod(ps, anno, mese);
    if ps == [] {
    } else if ps[0].anno == anno && ps[0].mese == mese {
      assert forall i :: 1 <= i < |r| ==> r[i] == ps[i];
    } else if Later(ps[0], Periodo(anno, mese, 0)) {
      var tail := InsertPeriod(ps[1..], anno, mese);
      InsertPeriodSorted(ps[1..], anno, mese);
      InsertPeriodKeys(ps[1..], anno, mese);
      forall i, j | 0 <= i < j < |r|
        ensures Later(r[i], r[j])
      {
        assert r[j] == tail[j - 1];
        if i > 0 {
          assert r[i] == tail[i - 1];
        } else if !(r[j].anno == anno && r[j].mese == mese) {
          assert Listed(ps[1..], tail[j - 1]);
          var k :| 0 <= k < |ps[1..]| && ps[1..][k].anno == r[j].anno && ps[1..][k].mese == r[j].mese;
          assert ps[k + 1] == ps[1..][k];
        }
      }
    } else {
      assert forall i :: 1 <= i < |r| ==> r[i] == ps[i - 1];
    }
  }

  /** Every entry after inserting is the inserted period or one listed before. */
  lemma {:induction false} InsertPeriodKeys(ps: seq<Periodo>, anno: int, mese: int)
    ensures forall i :: 0 <= i < |InsertPeriod(ps, anno, mese)| ==>
      var p := InsertPeriod(ps, anno, mese)[i];
      (p.anno == anno && p.mese == mese) || Listed(ps, p)
    decreases |ps|
  {
    var r := InsertPeriod(ps, anno, mese);
    if ps == [] {
    } else if ps[0].anno == anno && ps[0].mese == mese {
      assert forall i :: 1 <= i < |r| ==> r[i] == ps[i];
    } else if Later(ps[0], Periodo(anno, mese, 0)) {
      var tail := InsertPeriod(ps[1..], anno, mese);
      InsertPeriodKeys(ps[1..], anno, mese);
      forall i | 1 <= i < |r| && !(r[i].anno == anno && r[i].mese == mese)
        ensures Listed(ps, r[i])
      {
        assert r[i] == tail[i - 1];
        assert Listed(ps[1..], tail[i - 1]);
        var k :| 0 <= k < |ps[1..]| && ps[1..][k].anno == r[i].anno && ps[1..][k].mese == r[i].mese;
        assert ps[k + 1] == ps[1..][k];
      }
    } else {
      assert forall i :: 1 <= i < |r| ==> r[i] == ps[i - 1];
    }
  }

  /** `getPeriodiDisponibili()`: one entry per (year, month) that has
      invoices, latest period first, each with a positive count. */
  function PeriodiDisponibili(fatture: seq<Fattura>): (r: seq<Periodo>)
    ensures StrictlyDescending(r)
    ensures PositiveCounts(r)
  {
    if fatture == [] then []
    else
      var last := fatture[|fatture| - 1];
      var ps := PeriodiDisponibili(fatture[..|fatture| - 1]);
      InsertPeriodSorted(ps, last.dataFattura.year, last.dataFattura.month);
      InsertPeriodPositive(ps, last.dataFattura.year, last.dataFattura.month);
      InsertPeriod(ps, last.dataFattura.year, last.dataFattura.month)
  }

  /** The recorded count of a period is the number of invoices dated in it,
      and the counts add up to the number of invoices. */
  lemma {:induction false} PeriodiTally(fatture: seq<Fattura>, y: int, m: int)
    ensures var r := PeriodiDisponibili(fatture);
      CountOf(r, y, m) == |Seqs.Filter(fatture, InPeriod(y, m))| && SumCounts(r) == |fatture|
    decreases |fatture|
  {
    if fatture != [] {
      var rest := fatture[..|fatture| - 1];
      var last := fatture[|fatture| - 1];
      PeriodiTally(rest, y, m);
      InsertPeriodCounts(PeriodiDisponibili(rest), last.dataFattura.year, last.dataFattura.month, y, m);
      InsertPeriodSum(PeriodiDisponibili(rest), last.dataFattura.year, last.dataFattura.month);
      assert fatture == rest + [last];
      Seqs.FilterSnoc(rest, last, InPeriod(y, m));
    }
  }

  /** The invoices dated in a given year and month. */
  function InPeriod(anno: int, mese: int): Fattura -> bool {
    (f: Fattura) => f.dataFattura.year == anno && f.dataFattura.month == mese
  }

  /** In a strictly descending list each period appears once, so its entry
      holds the whole count. */
  lemma {:induction false} CountOfListed(ps: seq<Periodo>, i: nat)
    requires StrictlyDescending(ps) && i < |ps|
    ensures CountOf(ps, ps[i].anno, ps[i].mese) == ps[i].count
    decreases |ps|
  {
    if i == 0 {
      CountOfUnlisted(ps[1..], ps[0].anno, ps[0].mese);
    } else {
      assert ps[1..][i - 1] == ps[i];
      CountOfListed(ps[1..], i - 1);
    }
  }

  lemma {:induction false} CountOfUnlisted(ps: seq<Periodo>, anno: int, mese: int)
    requires forall j :: 0 <= j < |ps| ==> !(ps[j].anno == anno && ps[j].mese == mese)
    ensures CountOf(ps, anno, mese) == 0
    decreases |ps|
  {
    if ps != [] {
      CountOfUnlisted(ps[1..], anno, mese);
    }
  }

  /** Each listed period carries exactly the number of invoices dated in it,
      and a period is listed exactly when it has invoices. */
  lemma PeriodiCounts(fatture: seq<Fattura>, anno: int, mese: int)
    ensures var r := PeriodiDisponibili(fatture);
      && (forall i :: 0 <= i < |r| ==> r[i].count == |Seqs.Filter(fatture, InPeriod(r[i].anno, r[i].mese))|)
      && ((exists i :: 0 <= i < |r| && r[i].anno == anno && r[i].mese == mese) <==>
          |Seqs.Filter(fatture, InPeriod(anno, mese))| > 0)
  {
    var r := PeriodiDisponibili(fatture);
    forall i | 0 <= i < |r|
      ensures r[i].count == |Seqs.Filter(fatture, InPeriod(r[i].anno, r[i].mese))|
    {
      CountOfListed(r, i);
      PeriodiTally(fatture, r[i].anno, r[i].mese);
    }
    PeriodiTally(fatture, anno, mese);
    if !exists i :: 0 <= i < |r| && r[i].anno == anno && r[i].mese == mese {
      CountOfUnlisted(r, anno, mese);
    }
  }
}
