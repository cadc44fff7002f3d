/** The card-payment log of `src/lib/services/pos.ts`: the `pagamenti_pos`
    table as a sequence of rows, the date list with its duplicates removed, the
    payments of one day, the day's total, and update and delete by id. */
module Pos {
  import opened Basics
  import opened Strings
  import Seqs

  /** A row of `pagamenti_pos`. `createdAt` is filled in by the database. */
  datatype Payment = Payment(
    id: string,
    dataPagamento: string,
    importo: real,
    descrizione: string,
    note: Option<string>,
    createdAt: string)

  /** The columns an update may carry; `None` is a column left out of the
      partial object, which the update leaves as it is. */
  datatype PaymentPatch = PaymentPatch(
    dataPagamento: Option<string>,
    importo: Option<real>,
    descrizione: Option<string>,
    note: Option<string>)

  function Amount(p: Payment): real { p.importo }

  function DateOf(p: Payment): string { p.dataPagamento }

  /** `.eq('data_pagamento', d)`. */
  function OnDay(d: string): Payment -> bool {
    (p: Payment) => p.dataPagamento == d
  }

  /** `.order('data_pagamento', { ascending: false })`. */
  function DateDescending(): (Payment, Payment) -> bool {
    (a: Payment, b: Payment) => LexLe(b.dataPagamento, a.dataPagamento)
  }

  /** `.order('created_at', { ascending: false })`. */
  function CreatedDescending(): (Payment, Payment) -> bool {
    (a: Payment, b: Payment) => LexLe(b.createdAt, a.createdAt)
  }

  /** `getDatesPagamentiPOS`: the payment dates, newest first, each once. */
  function Dates(rows: seq<Payment>): (r: seq<string>)
    ensures Seqs.NoDuplicates(r)
    ensures forall p :: p in rows ==> p.dataPagamento in r
    ensures forall d :: d in r ==> exists p :: p in rows && p.dataPagamento == d
  {
    var sorted := Seqs.SortBy(rows, DateDescending());
    var dates := Seqs.Map(sorted, DateOf);
    assert forall p :: p in rows <==> p in sorted by {
      assert forall p :: p in rows <==> p in multiset(rows);
      assert forall p :: p in sorted <==> p in multiset(sorted);
    }
    assert forall p :: p in sorted ==> p.dataPagamento in dates by {
      forall p | p in sorted
        ensures p.dataPagamento in dates
      {
        var i :| 0 <= i < |sorted| && sorted[i] == p;
        assert dates[i] == p.dataPagamento;
      }
    }
    Seqs.Dedup(dates)
  }

  /** The date list is strictly decreasing: each date is later than every date
      after it. */
  lemma DatesStrictlyDescending(rows: seq<Payment>)
    ensures forall i, j :: 0 <= i < j < |Dates(rows)| ==>
      LexLe(Dates(rows)[j], Dates(rows)[i]) && !LexLe(Dates(rows)[i], Dates(rows)[j])
  {
    var le := DateDescending();
    assert Seqs.Total(le) by {
      forall a: Payment, b: Payment
        ensures le(a, b) || le(b, a)
      {
        LexLeTotal(a.dataPagamento, b.dataPagamento);
      }
    }
    assert Seqs.Transitive(le) by {
      forall a: Payment, b: Payment, c: Payment | le(a, b) && le(b, c)
        ensures le(a, c)
      {
        LexLeTransitive(c.dataPagamento, b.dataPagamento, a.dataPagamento);
      }
    }
    var sorted := Seqs.SortBy(rows, le);
    Seqs.SortBySorted(rows, le);
    var dates := Seqs.Map(sorted, DateOf);
    Seqs.DedupKeepsOrder(dates, LexLe);
    var r := Dates(rows);
    forall i, j | 0 <= i < j < |r|
      ensures !LexLe(r[i], r[j])
    {
      if LexLe(r[i], r[j]) {
        LexLeAntisymmetric(r[i], r[j]);
      }
    }
  }

  /** Ordering payments by `created_at` text, newest first, is total and
      transitive. */
  lemma CreatedOrder()
    ensures Seqs.Total(CreatedDescending()) && Seqs.Transitive(CreatedDescending())
  {
    var le := CreatedDescending();
    forall a: Payment, b: Payment
      ensures le(a, b) || le(b, a)
    {
      LexLeTotal(a.createdAt, b.createdAt);
    }
    forall a: Payment, b: Payment, c: Payment | le(a, b) && le(b, c)
      ensures le(a, c)
    {
      LexLeTransitive(c.createdAt, b.createdAt, a.createdAt);
    }
  }

  /** `getPagamentiPOSByDate(d)`: the payments of day `d`, latest entry first. */
  function ByDate(rows: seq<Payment>, d: string): (r: seq<Payment>)
    ensures forall p :: p in r <==> p in rows && p.dataPagamento == d
    ensures forall p :: multiset(r)[p] == if p.dataPagamento == d then multiset(rows)[p] else 0
    ensures Seqs.SortedBy(r, CreatedDescending())
  {
    CreatedOrder();
    Seqs.SortBySorted(Seqs.Filter(rows, OnDay(d)), CreatedDescending());
    var r := Seqs.SortBy(Seqs.Filter(rows, OnDay(d)), CreatedDescending());
    assert forall p :: p in r <==> p in multiset(r);
    forall p
      ensures multiset(r)[p] == if p.dataPagamento == d then multiset(rows)[p] else 0
    {
      Seqs.FilterMultiset(rows, OnDay(d), p);
    }
    r
  }

  /** The sum of `importo` over the payments of day `d`, as
      `getTotalePagamentiOggi` and `getTotalePOSByData` compute it. */
  function DailyTotal(rows: seq<Payment>, d: string): (r: real)
    ensures (forall p :: p in rows ==> p.importo >= 0.0) ==> 0.0 <= r <= Seqs.SumOf(rows, Amount)
  {
    var kept := Seqs.Filter(rows, OnDay(d));
    assert (forall p :: p in rows ==> p.importo >= 0.0) ==>
      0.0 <= Seqs.SumOf(kept, Amount) <= Seqs.SumOf(rows, Amount) by {
      if forall p :: p in rows ==> p.importo >= 0.0 {
        assert forall i :: 0 <= i < |rows| ==> Amount(rows[i]) >= 0.0 by {
          forall i | 0 <= i < |rows|
            ensures Amount(rows[i]) >= 0.0
          {
            assert rows[i] in rows;
          }
        }
        assert forall i :: 0 <= i < |kept| ==> Amount(kept[i]) >= 0.0 by {
          forall i | 0 <= i < |kept|
            ensures Amount(kept[i]) >= 0.0
          {
            assert kept[i] in kept;
          }
        }
        Seqs.SumOfNonNegative(kept, Amount);
        Seqs.SumOfFilterLe(rows, OnDay(d), Amount);
      }
    }
    Seqs.SumOf(kept, Amount)
  }

  /** A day without payments totals 0. */
  lemma DailyTotalWithoutPayments(rows: seq<Payment>, d: string)
    requires forall p :: p in rows ==> p.dataPagamento != d
    ensures DailyTotal(rows, d) == 0.0
  {
    Seqs.FilterNoneIsEmpty(rows, OnDay(d));
  }

  /** The total is the sum over exactly the payments the day's listing shows. */
  lemma DailyTotalOfListing(rows: seq<Payment>, d: string)
    ensures DailyTotal(rows, d) == Seqs.SumOf(ByDate(rows, d), Amount)
  {
    Seqs.SumOfPermutation(Seqs.Filter(rows, OnDay(d)), ByDate(rows, d), Amount);
  }

  /** Appending a payment adds its amount to its own day and to no other. */
  lemma DailyTotalAppend(rows: seq<Payment>, x: Payment, d: string)
    ensures DailyTotal(rows + [x], d) ==
      DailyTotal(rows, d) + (if x.dataPagamento == d then x.importo else 0.0)
  {
    Seqs.FilteredSumAppend(rows, x, OnDay(d), Amount);
  }

  function DayTotals(rows: seq<Payment>): string -> real {
    d => DailyTotal(rows, d)
  }

  lemma {:induction false} DayTotalsAppend(rows: seq<Payment>, x: Payment, days: seq<string>)
    requires Seqs.NoDuplicates(days)
    ensures Seqs.SumOf(days, DayTotals(rows + [x])) ==
      Seqs.SumOf(days, DayTotals(rows)) + (if x.dataPagamento in days then x.importo else 0.0)
    decreases |days|
  {
    if days != [] {
      var days' := days[..|days| - 1];
      var e := days[|days| - 1];
      assert days == days' + [e];
      DayTotalsAppend(rows, x, days');
      DailyTotalAppend(rows, x, e);
      if x.dataPagamento == e {
        assert x.dataPagamento !in days';
      }
    }
  }

  /** Summing the daily totals over any duplicate-free list of days that covers
      every payment date gives the sum of all payments. */
  lemma {:induction false} DailyTotalsPartition(rows: seq<Payment>, days: seq<string>)
    requires Seqs.NoDuplicates(days)
    requires forall p :: p in rows ==> p.dataPagamento in days
    ensures Seqs.SumOf(days, DayTotals(rows)) == Seqs.SumOf(rows, Amount)
    decreases |rows|
  {
    if rows == [] {
      ZeroTotals(days);
    } else {
      var rows' := rows[..|rows| - 1];
      var x := rows[|rows| - 1];
      assert rows == rows' + [x];
      DailyTotalsPartition(rows', days);
      DayTotalsAppend(rows', x, days);
    }
  }

  lemma {:induction false} ZeroTotals(days: seq<string>)
    ensures Seqs.SumOf(days, DayTotals([])) == 0.0
    decreases |days|
  {
    if days != [] {
      ZeroTotals(days[..|days| - 1]);
    }
  }

  /** The totals of the days `getDatesPagamentiPOS` lists add up to the sum of
      all payments: every payment is counted on exactly one listed day. */
  lemma DatesCoverAllPayments(rows: seq<Payment>)
    ensures Seqs.SumOf(Dates(rows), DayTotals(rows)) == Seqs.SumOf(rows, Amount)
  {
    DailyTotalsPartition(rows, Dates(rows));
  }

  /** The row with every supplied column of the patch written over it. */
  function ApplyPatch(p: Payment, patch: PaymentPatch): (r: Payment)
    ensures r.id == p.id && r.createdAt == p.createdAt
    ensures r.dataPagamento == patch.dataPagamento.GetOr(p.dataPagamento)
    ensures r.importo == patch.importo.GetOr(p.importo)
    ensures r.descrizione == patch.descrizione.GetOr(p.descrizione)
    ensures r.note == (if patch.note.Some? then patch.note else p.note)
  {
    Payment(
      p.id,
      patch.dataPagamento.GetOr(p.dataPagamento),
      patch.importo.GetOr(p.importo),
      patch.descrizione.GetOr(p.descrizione),
      if patch.note.Some? then patch.note else p.note,
      p.createdAt)
  }

  predicate HasId(rows: seq<Payment>, id: string) {
    exists i :: 0 <= i < |rows| && rows[i].id == id
  }

  /** `updatePagamentoPOS(id, patch)`: `None` when no row has the id (the
      single-row read-back fails and the error is rethrown); otherwise the
      table with the patch applied to the row of that id. */
  function Update(rows: seq<Payment>, id: string, patch: PaymentPatch): (r: Option<seq<Payment>>)
    ensures r.Some? <==> HasId(rows, id)
    ensures r.Some? ==> |r.value| == |rows|
    ensures r.Some? ==> forall i :: 0 <= i < |rows| && rows[i].id != id ==> r.value[i] == rows[i]
    ensures r.Some? ==> forall i :: 0 <= i < |rows| && rows[i].id == id ==> r.value[i] == ApplyPatch(rows[i], patch)
  {
    if HasId(rows, id) then
      Some(Seqs.Map(rows, (p: Payment) => if p.id == id then ApplyPatch(p, patch) else p))
    else
      None
  }

  /** An update that supplies no column changes nothing. */
  lemma UpdateWithEmptyPatch(rows: seq<Payment>, id: string)
    requires HasId(rows, id)
    ensures Update(rows, id, PaymentPatch(None, None, None, None)) == Some(rows)
  {
    var r := Update(rows, id, PaymentPatch(None, None, None, None)).value;
    forall i | 0 <= i < |rows|
      ensures r[i] == rows[i]
    {
      var p := rows[i];
      assert ApplyPatch(p, PaymentPatch(None, None, None, None)) == p;
    }
    assert r == rows;
  }

  /** An update keeps every id in place, so the table keeps its keys. */
  lemma UpdateKeepsIds(rows: seq<Payment>, id: string, patch: PaymentPatch)
    requires HasId(rows, id)
    ensures Seqs.Map(Update(rows, id, patch).value, (p: Payment) => p.id) == Seqs.Map(rows, (p: Payment) => p.id)
  {
  }

  /** `deletePagamentoPOS(id)`: every row of that id goes, the rest stay in order. */
  function Delete(rows: seq<Payment>, id: string): (r: seq<Payment>)
    ensures !HasId(r, id)
    ensures forall p :: p in r <==> p in rows && p.id != id
    ensures forall p: Payment :: p.id != id ==> multiset(r)[p] == multiset(rows)[p]
  {
    var r := Seqs.Filter(rows, (p: Payment) => p.id != id);
    forall p: Payment | p.id != id
      ensures multiset(r)[p] == multiset(rows)[p]
    {
      Seqs.FilterMultiset(rows, (p: Payment) => p.id != id, p);
    }
    r
  }

  /** Deleting an id that is not there leaves the table as it was. */
  lemma DeleteMissingId(rows: seq<Payment>, id: string)
    requires !HasId(rows, id)
    ensures Delete(rows, id) == rows
  {
    FilterKeepsAll(rows, (p: Payment) => p.id != id);
    Seqs.FilterAllIsIdentity(rows, (p: Payment) => p.id != id);
  }

  /** `.eq('id', id)`. */
  function IdIs(id: string): Payment -> bool {
    (p: Payment) => p.id == id
  }

  /** `getPagamentoPOSById(id)`: `.single()` succeeds, and the row is
      returned, exactly when one row has the id; none or several give `null`. */
  function ById(rows: seq<Payment>, id: string): (r: Option<Payment>)
    ensures r.Some? <==> Seqs.ExactlyOne(rows, IdIs(id))
    ensures r.Some? ==> r.value in rows && r.value.id == id
    ensures !HasId(rows, id) ==> r.None?
  {
    var matches := Seqs.Filter(rows, IdIs(id));
    Seqs.FilterExactlyOne(rows, IdIs(id));
    if |matches| == 1 then
      assert matches[0] in matches;
      Some(matches[0])
    else
      None
  }

  /** After a delete the id is not found. */
  lemma DeleteThenById(rows: seq<Payment>, id: string)
    ensures ById(Delete(rows, id), id) == None
  {
  }
}
