/** The daily cash reconciliation of `src/lib/services/cassa.ts`. The three
    tables it reads and writes (`fondo_cassa`, one snapshot row per day;
    `movimenti_contanti`, the cash movement log; `pagamenti_pos`, the card
    payments) form a `Store`; each service call becomes a function from a store
    to its result and, for the writes, to the next store. */
module Cassa {
  import opened Basics
  import opened Strings
  import Seqs
  import Dates
  import Pos

  datatype Kind = Entrata | Uscita | FondoIniziale | FondoFinale

  /** A row of `movimenti_contanti`; `dataMovimento` is a
      `YYYY-MM-DD HH:MM:SS` timestamp. */
  datatype Movement = Movement(
    tipo: Kind,
    importo: real,
    descrizione: string,
    dataMovimento: string,
    operatore: Option<string>)

  /** A row of `fondo_cassa`: the snapshot of one day. */
  datatype FondoCassa = FondoCassa(
    data: string,
    fondoIniziale: real,
    venditeContanti: real,
    venditeCarta: real,
    altreEntrate: real,
    uscite: real,
    fondoTeorico: real,
    fondoEffettivo: Option<real>,
    differenza: Option<real>,
    chiuso: bool,
    note: Option<string>)

  /** What `getStatoCassaCompleto` reports for a day. */
  datatype StatoCassa = StatoCassa(
    data: string,
    aperta: bool,
    fondoIniziale: real,
    venditeContanti: real,
    venditeCarta: real,
    altreEntrate: real,
    uscite: real,
    fondoTeorico: real,
    fondoEffettivo: Option<real>,
    differenza: Option<real>,
    movimenti: seq<Movement>)

  datatype Store = Store(
    fondi: seq<FondoCassa>,
    movimenti: seq<Movement>,
    pagamenti: seq<Pos.Payment>)

  // ---------------------------------------------------------------------------
  // The movements of one day

  function DayStart(d: string): string { d + " 00:00:00" }

  function DayEnd(d: string): string { d + " 23:59:59" }

  /** `.gte('data_movimento', start).lte('data_movimento', end)` on the text:
      whatever lies in the range starts with the day and a space. */
  predicate InDay(ts: string, d: string)
    ensures InDay(ts, d) ==> |d| < |ts| && ts[..|d| + 1] == d + " "
  {
    LexBetweenSharesPrefix(d + " ", "00:00:00", "23:59:59", ts);
    assert DayStart(d) == (d + " ") + "00:00:00" && DayEnd(d) == (d + " ") + "23:59:59";
    LexLe(DayStart(d), ts) && LexLe(ts, DayEnd(d))
  }

  function InDayOf(d: string): Movement -> bool {
    (m: Movement) => InDay(m.dataMovimento, d)
  }

  /** `.order('data_movimento', { ascending: true })`. */
  function TimestampAscending(): (Movement, Movement) -> bool {
    (a: Movement, b: Movement) => LexLe(a.dataMovimento, b.dataMovimento)
  }

  lemma TimestampOrder()
    ensures Seqs.Total(TimestampAscending()) && Seqs.Transitive(TimestampAscending())
  {
    var le := TimestampAscending();
    forall a: Movement, b: Movement
      ensures le(a, b) || le(b, a)
    {
      LexLeTotal(a.dataMovimento, b.dataMovimento);
    }
    forall a: Movement, b: Movement, c: Movement | le(a, b) && le(b, c)
      ensures le(a, c)
    {
      LexLeTransitive(a.dataMovimento, b.dataMovimento, c.dataMovimento);
    }
  }

  /** `getMovimentiContantiByData(d)`: the movements stamped within day `d`,
      earliest first. */
  function MovimentiByData(movs: seq<Movement>, d: string): (r: seq<Movement>)
    ensures forall m :: m in r <==> m in movs && InDay(m.dataMovimento, d)
    ensures forall m :: multiset(r)[m] == if InDay(m.dataMovimento, d) then multiset(movs)[m] else 0
    ensures Seqs.SortedBy(r, TimestampAscending())
  {
    var r := Seqs.SortBy(Seqs.Filter(movs, InDayOf(d)), TimestampAscending());
    assert forall m :: m in r <==> m in multiset(r);
    forall m
      ensures multiset(r)[m] == if InDay(m.dataMovimento, d) then multiset(movs)[m] else 0
    {
      Seqs.FilterMultiset(movs, InDayOf(d), m);
    }
    TimestampOrder();
    Seqs.SortBySorted(Seqs.Filter(movs, InDayOf(d)), TimestampAscending());
    r
  }

  /** `HH:MM:SS` naming a time of day from 00:00:00 to 23:59:59. */
  predicate IsTime(t: string) {
    && |t| == 8 && t[2] == ':' && t[5] == ':'
    && IsDigit(t[0]) && IsDigit(t[1]) && IsDigit(t[3]) && IsDigit(t[4]) && IsDigit(t[6]) && IsDigit(t[7])
    && (t[0] < '2' || (t[0] == '2' && t[1] <= '3'))
    && t[3] <= '5' && t[6] <= '5'
  }

  /** `YYYY-MM-DD HH:MM:SS`. */
  predicate IsTimestamp(ts: string) {
    |ts| == 19 && Dates.IsIsoDateString(ts[..10]) && ts[10] == ' ' && IsTime(ts[11..])
  }

  /** `ts.split(' ')[0]`, the date `addMovimentoContanti` refreshes. */
  function DatePart(ts: string): (r: string)
    ensures ' ' !in r
    ensures r <= ts
    ensures ' ' in ts ==> |r| < |ts| && ts[|r|] == ' '
    ensures ' ' !in ts ==> r == ts
  {
    BeforeFirst(ts, ' ')
  }

  /** Every time of day lies between midnight and the day's last second. */
  lemma TimeWithinDay(t: string)
    requires IsTime(t)
    ensures LexLe("00:00:00", t) && LexLe(t, "23:59:59")
  {
    LexLeComponentwise("00:00:00", t);
    var u := "23:59:59";
    if t[0] < '2' {
      LexLessAt(t, u, 0);
    } else if t[1] < '3' {
      assert t[..1] == u[..1];
      LexLessAt(t, u, 1);
    } else if t[3] < '5' {
      assert t[..3] == u[..3];
      LexLessAt(t, u, 3);
    } else if t[4] < '9' {
      assert t[..4] == u[..4];
      LexLessAt(t, u, 4);
    } else if t[6] < '5' {
      assert t[..6] == u[..6];
      LexLessAt(t, u, 6);
    } else {
      LexLeComponentwise(t, u);
    }
  }

  /** A well-formed timestamp falls in the text range of day `d` exactly when
      its date part is `d`: the range query and the date refreshed after adding
      a movement agree. */
  lemma InDayIffDatePart(ts: string, d: string)
    requires IsTimestamp(ts) && |d| == 10
    ensures InDay(ts, d) <==> DatePart(ts) == d
  {
    var date, time := ts[..10], ts[11..];
    assert ' ' !in date by {
      assert forall i :: 0 <= i < 10 ==> date[i] == '-' || IsDigit(date[i]);
    }
    BeforeFirstAt(ts, ' ', 10);
    assert ts == (date + " ") + time;
    assert DayStart(d) == (d + " ") + "00:00:00";
    assert DayEnd(d) == (d + " ") + "23:59:59";
    if date == d {
      TimeWithinDay(time);
      LexLeCommonPrefix(d + " ", "00:00:00", time);
      LexLeCommonPrefix(d + " ", time, "23:59:59");
    } else {
      var k := FirstDifference(date, d);
      assert ts[..k] == date[..k] && DayStart(d)[..k] == d[..k] && DayEnd(d)[..k] == d[..k];
      if date[k] < d[k] {
        LexLessAt(ts, DayStart(d), k);
      } else {
        LexLessAt(DayEnd(d), ts, k);
      }
    }
  }

  // ---------------------------------------------------------------------------
  // The stored snapshot of a day

  function OnDate(d: string): FondoCassa -> bool {
    (f: FondoCassa) => f.data == d
  }

  /** At most one snapshot per day. */
  predicate UniqueDates(fondi: seq<FondoCassa>) {
    forall i, j :: 0 <= i < j < |fondi| ==> fondi[i].data != fondi[j].data
  }

  /** `getFondoCassaByData(d)`: `.single()` yields the row only when exactly
      one row matches; no row, or an error, gives `null`. */
  function FondoByData(fondi: seq<FondoCassa>, d: string): (r: Option<FondoCassa>)
    ensures r.Some? ==> r.value in fondi && r.value.data == d
  {
    var matches := Seqs.Filter(fondi, OnDate(d));
    if |matches| == 1 then
      assert matches[0] in matches;
      Some(matches[0])
    else
      None
  }

  lemma {:induction false} AtMostOneSnapshot(fondi: seq<FondoCassa>, d: string)
    requires UniqueDates(fondi)
    ensures |Seqs.Filter(fondi, OnDate(d))| <= 1
    decreases |fondi|
  {
    if fondi != [] {
      var fondi' := fondi[..|fondi| - 1];
      var x := fondi[|fondi| - 1];
      AtMostOneSnapshot(fondi', d);
      if x.data == d {
        Seqs.FilterNoneIsEmpty(fondi', OnDate(d));
      }
    }
  }

  /** With one snapshot per day, the lookup finds the day's snapshot when there
      is one and reports none otherwise. */
  lemma FondoByDataFinds(fondi: seq<FondoCassa>, d: string)
    requires UniqueDates(fondi)
    ensures (exists f :: f in fondi && f.data == d) ==> FondoByData(fondi, d).Some?
    ensures (forall f :: f in fondi ==> f.data != d) ==> FondoByData(fondi, d) == None
  {
    AtMostOneSnapshot(fondi, d);
    var matches := Seqs.Filter(fondi, OnDate(d));
    if exists f :: f in fondi && f.data == d {
      var f :| f in fondi && f.data == d;
      assert f in matches;
    }
  }

  // ---------------------------------------------------------------------------
  // The state of a day

  function MovAmount(m: Movement): real { m.importo }

  function OfKind(k: Kind): Movement -> bool {
    (m: Movement) => m.tipo == k
  }

  /** `movs.filter(m => m.tipo === k).reduce((sum, m) => sum + m.importo, 0)`. */
  function SumKind(movs: seq<Movement>, k: Kind): (r: real)
    ensures (forall i :: 0 <= i < |movs| ==> movs[i].tipo != k) ==> r == 0.0
    ensures (forall i :: 0 <= i < |movs| ==> movs[i].importo >= 0.0) ==> r >= 0.0
  {
    var kept := Seqs.Filter(movs, OfKind(k));
    assert (forall i :: 0 <= i < |movs| ==> movs[i].tipo != k) ==> kept == [] by {
      if forall i :: 0 <= i < |movs| ==> movs[i].tipo != k {
        Seqs.FilterNoneIsEmpty(movs, OfKind(k));
      }
    }
    assert (forall i :: 0 <= i < |movs| ==> movs[i].importo >= 0.0) ==> Seqs.SumOf(kept, MovAmount) >= 0.0 by {
      if forall i :: 0 <= i < |movs| ==> movs[i].importo >= 0.0 {
        forall i | 0 <= i < |kept|
          ensures MovAmount(kept[i]) >= 0.0
        {
          assert kept[i] in movs;
        }
        Seqs.SumOfNonNegative(kept, MovAmount);
      }
    }
    Seqs.SumOf(kept, MovAmount)
  }

  /** `movs.findIndex(m => m.tipo === 'fondo_iniziale')` as an option. */
  function FirstOpening(movs: seq<Movement>): (r: Option<nat>)
    ensures r.Some? ==> r.value < |movs| && movs[r.value].tipo == FondoIniziale
    ensures r.Some? ==> forall j :: 0 <= j < r.value ==> movs[j].tipo != FondoIniziale
    ensures r.None? <==> forall j :: 0 <= j < |movs| ==> movs[j].tipo != FondoIniziale
  {
    if movs == [] then None
    else if movs[0].tipo == FondoIniziale then Some(0)
    else
      match FirstOpening(movs[1..])
      case Some(i) => Some(i + 1)
      case None => None
  }

  /** `movs.find(m => m.tipo === 'fondo_iniziale')?.importo || 0`. */
  function OpeningAmount(movs: seq<Movement>): (r: real)
    ensures (forall i :: 0 <= i < |movs| ==> movs[i].tipo != FondoIniziale) ==> r == 0.0
    ensures forall i :: (0 <= i < |movs| && movs[i].tipo == FondoIniziale &&
                         (forall j :: 0 <= j < i ==> movs[j].tipo != FondoIniziale)) ==> r == movs[i].importo
  {
    match FirstOpening(movs)
    case Some(i) => movs[i].importo
    case None => 0.0
  }

  /** JavaScript `x || fallback` on a number that may be absent: `undefined`
      and `0` both give the fallback. */
  function Truthy(x: Option<real>, fallback: real): (r: real)
    ensures x.Some? && x.value != 0.0 ==> r == x.value
    ensures x.None? || x.value == 0.0 ==> r == fallback
  {
    if x.Some? && x.value != 0.0 then x.value else fallback
  }

  /** `stored?.<field>`. */
  function Field(stored: Option<FondoCassa>, pick: FondoCassa -> real): Option<real> {
    if stored.Some? then Some(pick(stored.value)) else None
  }

  /** The projection `getStatoCassaCompleto` makes of the day's snapshot (if
      any), the day's movements and the day's card total: each stored figure
      wins when it is non-zero, otherwise it is derived from the movements. */
  function ComputeStato(data: string, stored: Option<FondoCassa>, movs: seq<Movement>, totalePOS: real): (r: StatoCassa)
    ensures r.data == data && r.movimenti == movs
    ensures r.aperta <==> stored.None? || !stored.value.chiuso
    ensures r.fondoEffettivo == (if stored.Some? then stored.value.fondoEffettivo else None)
    ensures r.differenza == (if stored.Some? then stored.value.differenza else None)
  {
    var fondoIniziale := Truthy(Field(stored, (f: FondoCassa) => f.fondoIniziale), OpeningAmount(movs));
    var venditeContanti := Truthy(Field(stored, (f: FondoCassa) => f.venditeContanti), SumKind(movs, Entrata));
    var uscite := Truthy(Field(stored, (f: FondoCassa) => f.uscite), SumKind(movs, Uscita));
    var venditeCarta := Truthy(Field(stored, (f: FondoCassa) => f.venditeCarta), totalePOS);
    var altreEntrate := Truthy(Field(stored, (f: FondoCassa) => f.altreEntrate), 0.0);
    StatoCassa(
      data,
      stored.None? || !stored.value.chiuso,
      fondoIniziale,
      venditeContanti,
      venditeCarta,
      altreEntrate,
      uscite,
      fondoIniziale + venditeContanti + altreEntrate - uscite,
      if stored.Some? then stored.value.fondoEffettivo else None,
      if stored.Some? then stored.value.differenza else None,
      movs)
  }

  /** Each figure of the day's state: a snapshot's non-zero figure is
      reported as stored; no snapshot, or a stored 0, falls back to the first
      opening movement's amount, the `entrata` sum, the `uscita` sum, the POS
      total or 0 (other income). The theoretical float is opening float + cash
      sales + other income − expenses. */
  lemma ComputeStatoFigures(data: string, stored: Option<FondoCassa>, movs: seq<Movement>, totalePOS: real)
    ensures var r := ComputeStato(data, stored, movs, totalePOS);
      && (stored.Some? && stored.value.fondoIniziale != 0.0 ==> r.fondoIniziale == stored.value.fondoIniziale)
      && (stored.None? || stored.value.fondoIniziale == 0.0 ==> r.fondoIniziale == OpeningAmount(movs))
      && (stored.Some? && stored.value.venditeContanti != 0.0 ==> r.venditeContanti == stored.value.venditeContanti)
      && (stored.None? || stored.value.venditeContanti == 0.0 ==> r.venditeContanti == SumKind(movs, Entrata))
      && (stored.Some? && stored.value.uscite != 0.0 ==> r.uscite == stored.value.uscite)
      && (stored.None? || stored.value.uscite == 0.0 ==> r.uscite == SumKind(movs, Uscita))
      && (stored.Some? && stored.value.venditeCarta != 0.0 ==> r.venditeCarta == stored.value.venditeCarta)
      && (stored.None? || stored.value.venditeCarta == 0.0 ==> r.venditeCarta == totalePOS)
      && (stored.Some? && stored.value.altreEntrate != 0.0 ==> r.altreEntrate == stored.value.altreEntrate)
      && (stored.None? || stored.value.altreEntrate == 0.0 ==> r.altreEntrate == 0.0)
      && r.fondoTeorico == r.fondoIniziale + r.venditeContanti + r.altreEntrate - r.uscite
  {
  }

  /** The theoretical float is opening float + cash sales + other income −
      expenses, whatever the card sales: neither the POS total nor a stored
      card figure can move it. */
  lemma FondoTeoricoIgnoresCard(data: string, stored: Option<FondoCassa>, movs: seq<Movement>,
                                pos1: real, pos2: real, carta: real)
    ensures var a := ComputeStato(data, stored, movs, pos1);
            var b := ComputeStato(data, if stored.Some? then Some(stored.value.(venditeCarta := carta)) else None, movs, pos2);
      && a.fondoTeorico == a.fondoIniziale + a.venditeContanti + a.altreEntrate - a.uscite
      && b.fondoTeorico == a.fondoTeorico
  {
  }

  /** Without a snapshot every figure comes from the day's movements: cash
      sales and expenses are the sums of the `entrata` and `uscita` amounts,
      the opening float is the first opening movement's amount, card sales
      are the POS total and other income is 0. */
  lemma StatoWithoutSnapshot(data: string, movs: seq<Movement>, totalePOS: real)
    ensures var r := ComputeStato(data, None, movs, totalePOS);
      && r.aperta
      && r.venditeContanti == SumKind(movs, Entrata)
      && r.uscite == SumKind(movs, Uscita)
      && r.fondoIniziale == OpeningAmount(movs)
      && r.venditeCarta == totalePOS
      && r.altreEntrate == 0.0
      && r.fondoTeorico == OpeningAmount(movs) + SumKind(movs, Entrata) - SumKind(movs, Uscita)
  {
  }

  /** An empty day without a snapshot: everything is 0 except the card total. */
  lemma StatoEmptyDay(data: string, totalePOS: real)
    ensures var r := ComputeStato(data, None, [], totalePOS);
      && r.fondoIniziale == 0.0 && r.venditeContanti == 0.0 && r.uscite == 0.0
      && r.altreEntrate == 0.0 && r.fondoTeorico == 0.0 && r.venditeCarta == totalePOS
  {
  }

  /** A snapshot whose figures are all 0 reads exactly like no snapshot: the
      `||` fallbacks cannot tell a stored 0 from a missing one. */
  lemma StoredZeroIsMissing(data: string, f: FondoCassa, movs: seq<Movement>, totalePOS: real)
    requires f.fondoIniziale == 0.0 && f.venditeContanti == 0.0 && f.venditeCarta == 0.0
    requires f.altreEntrate == 0.0 && f.uscite == 0.0
    ensures var a := ComputeStato(data, Some(f), movs, totalePOS);
            var b := ComputeStato(data, None, movs, totalePOS);
      && a.fondoIniziale == b.fondoIniziale && a.venditeContanti == b.venditeContanti
      && a.venditeCarta == b.venditeCarta && a.altreEntrate == b.altreEntrate
      && a.uscite == b.uscite && a.fondoTeorico == b.fondoTeorico
  {
  }

  /** A non-zero stored figure wins over the movements, whatever they hold. */
  lemma StoredFigureWins(data: string, f: FondoCassa, movs1: seq<Movement>, movs2: seq<Movement>, totalePOS: real)
    requires f.fondoIniziale != 0.0 && f.venditeContanti != 0.0 && f.uscite != 0.0
    ensures var a := ComputeStato(data, Some(f), movs1, totalePOS);
            var b := ComputeStato(data, Some(f), movs2, totalePOS);
      && a.fondoIniziale == f.fondoIniziale && a.venditeContanti == f.venditeContanti
      && a.uscite == f.uscite && a.fondoTeorico == b.fondoTeorico
  {
  }

  /** With no snapshot, one more cash sale raises the cash sales and the
      theoretical float by its amount; one more expense lowers the float. */
  lemma MovementShiftsFondoTeorico(data: string, movs: seq<Movement>, m: Movement, totalePOS: real)
    requires m.tipo == Entrata || m.tipo == Uscita
    ensures var a := ComputeStato(data, None, movs, totalePOS);
            var b := ComputeStato(data, None, movs + [m], totalePOS);
      && b.fondoTeorico == a.fondoTeorico + (if m.tipo == Entrata then m.importo else -m.importo)
      && b.venditeContanti == a.venditeContanti + (if m.tipo == Entrata then m.importo else 0.0)
  {
    SumKindAppend(movs, m, Entrata);
    SumKindAppend(movs, m, Uscita);
    OpeningAmountAppend(movs, m);
  }

  lemma SumKindAppend(movs: seq<Movement>, m: Movement, k: Kind)
    ensures SumKind(movs + [m], k) == SumKind(movs, k) + (if m.tipo == k then m.importo else 0.0)
  {
    Seqs.FilteredSumAppend(movs, m, OfKind(k), MovAmount);
  }

  /** A movement appended after the first opening movement, or one that is
      not an opening movement, leaves the opening float alone: a second
      opening movement is not added to the first. */
  lemma OpeningAmountAppend(movs: seq<Movement>, m: Movement)
    requires m.tipo != FondoIniziale || FirstOpening(movs).Some?
    ensures OpeningAmount(movs + [m]) == OpeningAmount(movs)
  {
    FirstOpeningAppend(movs, m);
  }

  lemma {:induction false} FirstOpeningAppend(movs: seq<Movement>, m: Movement)
    ensures FirstOpening(movs).Some? ==> FirstOpening(movs + [m]) == FirstOpening(movs)
    ensures FirstOpening(movs).None? && m.tipo != FondoIniziale ==> FirstOpening(movs + [m]).None?
    decreases |movs|
  {
    if movs != [] {
      assert (movs + [m])[1..] == movs[1..] + [m];
      FirstOpeningAppend(movs[1..], m);
    }
  }

  /** The opening float of a day's movements (earliest first) is the amount of
      an opening movement stamped no later than any other opening movement. */
  lemma OpeningIsEarliest(movs: seq<Movement>)
    requires Seqs.SortedBy(movs, TimestampAscending())
    ensures FirstOpening(movs).Some? ==>
      var i := FirstOpening(movs).value;
      && OpeningAmount(movs) == movs[i].importo
      && forall j :: 0 <= j < |movs| && movs[j].tipo == FondoIniziale ==>
           LexLe(movs[i].dataMovimento, movs[j].dataMovimento)
    ensures FirstOpening(movs).None? ==> OpeningAmount(movs) == 0.0
  {
    if FirstOpening(movs).Some? {
      var i := FirstOpening(movs).value;
      forall j | 0 <= j < |movs| && movs[j].tipo == FondoIniziale
        ensures LexLe(movs[i].dataMovimento, movs[j].dataMovimento)
      {
        if j == i {
          LexLeComponentwise(movs[i].dataMovimento, movs[j].dataMovimento);
        } else {
          assert TimestampAscending()(movs[i], movs[j]);
        }
      }
    }
  }

  /** `getStatoCassaCompleto(d)` against a store. */
  function StatoCassaCompleto(store: Store, d: string): (r: StatoCassa)
    ensures r.data == d
    ensures forall m :: m in r.movimenti <==> m in store.movimenti && InDay(m.dataMovimento, d)
    ensures r.aperta <==> FondoByData(store.fondi, d).None? || !FondoByData(store.fondi, d).value.chiuso
    ensures r.fondoTeorico == r.fondoIniziale + r.venditeContanti + r.altreEntrate - r.uscite
    ensures FondoByData(store.fondi, d).None? ==>
      && r.fondoIniziale == OpeningAmount(r.movimenti)
      && r.venditeContanti == SumKind(r.movimenti, Entrata) && r.uscite == SumKind(r.movimenti, Uscita)
      && r.venditeCarta == Pos.DailyTotal(store.pagamenti, d) && r.altreEntrate == 0.0
  {
    ComputeStato(d, FondoByData(store.fondi, d), MovimentiByData(store.movimenti, d), Pos.DailyTotal(store.pagamenti, d))
  }

  /** The day's state is read from the snapshot `getFondoCassaByData(d)`
      returns and from the movements `getMovimentiContantiByData(d)` lists:
      each stored figure that is non-zero is reported as stored; a missing
      snapshot or a stored 0 falls back to the movements (opening float, cash
      sales, expenses), the day's POS total (card sales) or 0 (other income). */
  lemma StatoCassaCompletoFigures(store: Store, d: string)
    ensures var r := StatoCassaCompleto(store, d);
            var s := FondoByData(store.fondi, d);
            var movs := MovimentiByData(store.movimenti, d);
      && r.movimenti == movs
      && (s.Some? && s.value.fondoIniziale != 0.0 ==> r.fondoIniziale == s.value.fondoIniziale)
      && (s.None? || s.value.fondoIniziale == 0.0 ==> r.fondoIniziale == OpeningAmount(movs))
      && (s.Some? && s.value.venditeContanti != 0.0 ==> r.venditeContanti == s.value.venditeContanti)
      && (s.None? || s.value.venditeContanti == 0.0 ==> r.venditeContanti == SumKind(movs, Entrata))
      && (s.Some? && s.value.uscite != 0.0 ==> r.uscite == s.value.uscite)
      && (s.None? || s.value.uscite == 0.0 ==> r.uscite == SumKind(movs, Uscita))
      && (s.Some? && s.value.venditeCarta != 0.0 ==> r.venditeCarta == s.value.venditeCarta)
      && (s.None? || s.value.venditeCarta == 0.0 ==> r.venditeCarta == Pos.DailyTotal(store.pagamenti, d))
      && (s.Some? && s.value.altreEntrate != 0.0 ==> r.altreEntrate == s.value.altreEntrate)
      && (s.None? || s.value.altreEntrate == 0.0 ==> r.altreEntrate == 0.0)
  {
  }

  // ---------------------------------------------------------------------------
  // Writing the snapshot

  /** The columns an upsert into `fondo_cassa` supplies; `None` is a column the
      object leaves out (a JavaScript `undefined` is not sent). */
  datatype FondoWrite = FondoWrite(
    data: string,
    fondoIniziale: real,
    venditeContanti: real,
    venditeCarta: real,
    altreEntrate: real,
    uscite: real,
    fondoTeorico: real,
    fondoEffettivo: Option<real>,
    differenza: Option<real>,
    chiuso: Option<bool>,
    note: Option<string>)

  /** The day's row with the supplied columns written over it. */
  function Merge(f: FondoCassa, w: FondoWrite): (r: FondoCassa)
    ensures r.data == f.data
    ensures r.fondoIniziale == w.fondoIniziale && r.venditeContanti == w.venditeContanti
    ensures r.venditeCarta == w.venditeCarta && r.altreEntrate == w.altreEntrate
    ensures r.uscite == w.uscite && r.fondoTeorico == w.fondoTeorico
    ensures w.fondoEffettivo.None? ==> r.fondoEffettivo == f.fondoEffettivo
    ensures w.differenza.None? ==> r.differenza == f.differenza
    ensures w.chiuso.None? ==> r.chiuso == f.chiuso
    ensures w.note.None? ==> r.note == f.note
    ensures f.data == w.data && w.fondoEffettivo.Some? && w.differenza.Some? && w.chiuso.Some? && w.note.Some? ==>
      r == Fresh(w)
  {
    FondoCassa(
      f.data, w.fondoIniziale, w.venditeContanti, w.venditeCarta, w.altreEntrate, w.uscite, w.fondoTeorico,
      if w.fondoEffettivo.Some? then w.fondoEffettivo else f.fondoEffettivo,
      if w.differenza.Some? then w.differenza else f.differenza,
      w.chiuso.GetOr(f.chiuso),
      if w.note.Some? then w.note else f.note)
  }

  /** A new row from the supplied columns; `chiuso` defaults to false. */
  function Fresh(w: FondoWrite): (r: FondoCassa)
    ensures r.data == w.data
    ensures r.fondoIniziale == w.fondoIniziale && r.fondoTeorico == w.fondoTeorico
    ensures r.chiuso <==> w.chiuso == Some(true)
  {
    FondoCassa(
      w.data, w.fondoIniziale, w.venditeContanti, w.venditeCarta, w.altreEntrate, w.uscite, w.fondoTeorico,
      w.fondoEffettivo, w.differenza, w.chiuso.GetOr(false), w.note)
  }

  /** `.from('fondo_cassa').upsert(w)`, taking the day as the conflict key:
      the day's row is updated in place, or a row is added for a new day. */
  function Upsert(fondi: seq<FondoCassa>, w: FondoWrite): (r: seq<FondoCassa>)
    ensures |fondi| <= |r| <= |fondi| + 1
    ensures forall i :: 0 <= i < |fondi| ==> r[i].data == fondi[i].data
    ensures forall i :: 0 <= i < |fondi| && fondi[i].data != w.data ==> r[i] == fondi[i]
    ensures |r| == |fondi| + 1 ==> r[|fondi|] == Fresh(w) && forall i :: 0 <= i < |fondi| ==> fondi[i].data != w.data
  {
    if exists i :: 0 <= i < |fondi| && fondi[i].data == w.data then
      Seqs.Map(fondi, (f: FondoCassa) => if f.data == w.data then Merge(f, w) else f)
    else
      fondi + [Fresh(w)]
  }

  /** Upserting the same columns twice leaves the table as upserting them
      once. */
  lemma UpsertIdempotent(fondi: seq<FondoCassa>, w: FondoWrite)
    ensures Upsert(Upsert(fondi, w), w) == Upsert(fondi, w)
  {
    if exists i :: 0 <= i < |fondi| && fondi[i].data == w.data {
      UpsertTwiceStored(fondi, w);
    } else {
      UpsertTwiceNew(fondi, w);
    }
  }

  lemma UpsertTwiceStored(fondi: seq<FondoCassa>, w: FondoWrite)
    requires exists i :: 0 <= i < |fondi| && fondi[i].data == w.data
    ensures Upsert(Upsert(fondi, w), w) == Upsert(fondi, w)
  {
    var r := Upsert(fondi, w);
    var r2 := Upsert(r, w);
    var i :| 0 <= i < |fondi| && fondi[i].data == w.data;
    assert r[i].data == w.data;
    forall j | 0 <= j < |r|
      ensures r2[j] == r[j]
    {
      if r[j].data == w.data {
        assert r[j] == Merge(fondi[j], w);
      }
    }
    assert |r2| == |r|;
  }

  lemma UpsertTwiceNew(fondi: seq<FondoCassa>, w: FondoWrite)
    requires forall i :: 0 <= i < |fondi| ==> fondi[i].data != w.data
    ensures Upsert(Upsert(fondi, w), w) == Upsert(fondi, w)
  {
    var r := Upsert(fondi, w);
    var r2 := Upsert(r, w);
    assert r[|fondi|].data == w.data;
    forall j | 0 <= j < |r|
      ensures r2[j] == r[j]
    {
      if j == |fondi| {
        assert r[j] == Fresh(w);
      }
    }
    assert |r2| == |r|;
  }

  lemma FondoByDataAt(fondi: seq<FondoCassa>, i: nat)
    requires UniqueDates(fondi) && i < |fondi|
    ensures FondoByData(fondi, fondi[i].data) == Some(fondi[i])
  {
    var matches := Seqs.Filter(fondi, OnDate(fondi[i].data));
    AtMostOneSnapshot(fondi, fondi[i].data);
    assert fondi[i] in matches;
  }

  /** The upserted day reads back as the old row merged with the write, or as
      a fresh row; every other day reads back as before. */
  lemma UpsertReadBack(fondi: seq<FondoCassa>, w: FondoWrite)
    requires UniqueDates(fondi)
    ensures UniqueDates(Upsert(fondi, w))
    ensures FondoByData(Upsert(fondi, w), w.data) ==
      Some(match FondoByData(fondi, w.data) case Some(f) => Merge(f, w) case None => Fresh(w))
    ensures forall d :: d != w.data ==> FondoByData(Upsert(fondi, w), d) == FondoByData(fondi, d)
  {
    var r := Upsert(fondi, w);
    assert UniqueDates(r);
    if exists i :: 0 <= i < |fondi| && fondi[i].data == w.data {
      var i :| 0 <= i < |fondi| && fondi[i].data == w.data;
      FondoByDataAt(fondi, i);
      FondoByDataAt(r, i);
    } else {
      FondoByDataFinds(fondi, w.data);
      FondoByDataAt(r, |fondi|);
    }
    forall d | d != w.data
      ensures FondoByData(r, d) == FondoByData(fondi, d)
    {
      if exists i :: 0 <= i < |fondi| && fondi[i].data == d {
        var i :| 0 <= i < |fondi| && fondi[i].data == d;
        FondoByDataAt(fondi, i);
        FondoByDataAt(r, i);
      } else {
        FondoByDataFinds(fondi, d);
        FondoByDataFinds(r, d);
      }
    }
  }

  /** The six figures of a state, as the refresh and the closing write them. */
  function FiguresOf(d: string, st: StatoCassa, fondoEffettivo: Option<real>, differenza: Option<real>,
                     chiuso: Option<bool>, note: Option<string>): FondoWrite {
    FondoWrite(d, st.fondoIniziale, st.venditeContanti, st.venditeCarta, st.altreEntrate, st.uscite,
               st.fondoTeorico, fondoEffettivo, differenza, chiuso, note)
  }

  /** Stored figures are read through `||`; storing what was read gives the
      same reading again. */
  lemma TruthyIdempotent(x: Option<real>, fallback: real)
    ensures Truthy(Some(Truthy(x, fallback)), fallback) == Truthy(x, fallback)
  {
  }

  /** Writing the day's reported figures back into its snapshot does not change
      what the day reports. */
  lemma StoringFiguresKeepsStato(data: string, stored: Option<FondoCassa>, f: FondoCassa,
                                 movs: seq<Movement>, totalePOS: real)
    requires var st := ComputeStato(data, stored, movs, totalePOS);
      && f.fondoIniziale == st.fondoIniziale && f.venditeContanti == st.venditeContanti
      && f.venditeCarta == st.venditeCarta && f.altreEntrate == st.altreEntrate && f.uscite == st.uscite
    ensures var st := ComputeStato(data, stored, movs, totalePOS);
            var st' := ComputeStato(data, Some(f), movs, totalePOS);
      && st'.fondoIniziale == st.fondoIniziale && st'.venditeContanti == st.venditeContanti
      && st'.venditeCarta == st.venditeCarta && st'.altreEntrate == st.altreEntrate
      && st'.uscite == st.uscite && st'.fondoTeorico == st.fondoTeorico
  {
    TruthyIdempotent(Field(stored, (f: FondoCassa) => f.fondoIniziale), OpeningAmount(movs));
    TruthyIdempotent(Field(stored, (f: FondoCassa) => f.venditeContanti), SumKind(movs, Entrata));
    TruthyIdempotent(Field(stored, (f: FondoCassa) => f.uscite), SumKind(movs, Uscita));
    TruthyIdempotent(Field(stored, (f: FondoCassa) => f.venditeCarta), totalePOS);
    TruthyIdempotent(Field(stored, (f: FondoCassa) => f.altreEntrate), 0.0);
  }

  // ---------------------------------------------------------------------------
  // Adding a movement

  /** `updateFondoCassaFromMovimenti(d)` as written: the day's reported
      figures, stored fallbacks included, are upserted into its snapshot. */
  function RefreshFondoAsWritten(store: Store, d: string): (r: Store)
    ensures r.movimenti == store.movimenti && r.pagamenti == store.pagamenti
  {
    store.(fondi := Upsert(store.fondi, FiguresOf(d, StatoCassaCompleto(store, d), None, None, None, None)))
  }

  /** `addMovimentoContanti(m)` as written: log the movement, then refresh the
      snapshot of the day before the first space of its timestamp. */
  function AddMovimentoAsWritten(store: Store, m: Movement): (r: Store)
    ensures r.movimenti == store.movimenti + [m] && r.pagamenti == store.pagamenti
  {
    RefreshFondoAsWritten(store.(movimenti := store.movimenti + [m]), DatePart(m.dataMovimento))
  }

  /** The snapshot freezes: once a day's snapshot holds non-zero cash sales,
      logging one more sale on that day leaves the reported cash sales where
      they were, although the day's `entrata` movements now sum to more. */
  lemma AddMovimentoAsWrittenFreezesSales(store: Store, m: Movement)
    requires UniqueDates(store.fondi)
    requires IsTimestamp(m.dataMovimento) && m.tipo == Entrata && m.importo > 0.0
    requires var d := DatePart(m.dataMovimento);
      FondoByData(store.fondi, d).Some? && FondoByData(store.fondi, d).value.venditeContanti != 0.0
    ensures var d := DatePart(m.dataMovimento);
            var r := AddMovimentoAsWritten(store, m);
      && StatoCassaCompleto(r, d).venditeContanti == FondoByData(store.fondi, d).value.venditeContanti
      && SumKind(MovimentiByData(r.movimenti, d), Entrata) ==
           SumKind(MovimentiByData(store.movimenti, d), Entrata) + m.importo
  {
    var d := DatePart(m.dataMovimento);
    RefreshKeepsStoredSales(store.(movimenti := store.movimenti + [m]), d);
    DaySumAppend(store.movimenti, m, Entrata);
  }

  /** The as-written refresh reports a non-zero stored cash-sales figure
      unchanged. */
  lemma RefreshKeepsStoredSales(store: Store, d: string)
    requires UniqueDates(store.fondi)
    requires FondoByData(store.fondi, d).Some? && FondoByData(store.fondi, d).value.venditeContanti != 0.0
    ensures StatoCassaCompleto(RefreshFondoAsWritten(store, d), d).venditeContanti ==
      FondoByData(store.fondi, d).value.venditeContanti
  {
    var st := StatoCassaCompleto(store, d);
    UpsertReadBack(store.fondi, FiguresOf(d, st, None, None, None, None));
  }

  /** Logging a movement of kind `k` on its own day adds its amount to that
      day's `k` sum. */
  lemma DaySumAppend(movs: seq<Movement>, m: Movement, k: Kind)
    requires IsTimestamp(m.dataMovimento)
    ensures var d := DatePart(m.dataMovimento);
      SumKind(MovimentiByData(movs + [m], d), k) ==
        SumKind(MovimentiByData(movs, d), k) + (if m.tipo == k then m.importo else 0.0)
  {
    var d := DatePart(m.dataMovimento);
    DayMovementsAppend(movs, m);
    SumKindPermutation(MovimentiByData(movs + [m], d), MovimentiByData(movs, d) + [m], k);
    SumKindAppend(MovimentiByData(movs, d), m, k);
  }

  /** Logging a movement stamped on its own day adds it to that day's
      movements as a whole: same multiset plus the movement. */
  lemma DayMovementsAppend(movs: seq<Movement>, m: Movement)
    requires IsTimestamp(m.dataMovimento)
    ensures var d := DatePart(m.dataMovimento);
      multiset(MovimentiByData(movs + [m], d)) == multiset(MovimentiByData(movs, d) + [m])
  {
    var d := DatePart(m.dataMovimento);
    DatePartOfTimestamp(m.dataMovimento);
    InDayIffDatePart(m.dataMovimento, d);
    var a := MovimentiByData(movs + [m], d);
    var b := MovimentiByData(movs, d) + [m];
    forall x
      ensures multiset(a)[x] == multiset(b)[x]
    {
      assert multiset(movs + [m]) == multiset(movs) + multiset{m};
      assert multiset(b) == multiset(MovimentiByData(movs, d)) + multiset{m};
    }
    assert multiset(a) == multiset(b);
  }

  lemma DatePartOfTimestamp(ts: string)
    requires IsTimestamp(ts)
    ensures DatePart(ts) == ts[..10] && |DatePart(ts)| == 10
  {
    assert ' ' !in ts[..10] by {
      assert forall i :: 0 <= i < 10 ==> ts[..10][i] == '-' || IsDigit(ts[..10][i]);
    }
    BeforeFirstAt(ts, ' ', 10);
  }

  /** Multiset-equal movement lists have the same kind sums. */
  lemma SumKindPermutation(a: seq<Movement>, b: seq<Movement>, k: Kind)
    requires multiset(a) == multiset(b)
    ensures SumKind(a, k) == SumKind(b, k)
  {
    forall x
      ensures multiset(Seqs.Filter(a, OfKind(k)))[x] == multiset(Seqs.Filter(b, OfKind(k)))[x]
    {
      Seqs.FilterMultiset(a, OfKind(k), x);
      Seqs.FilterMultiset(b, OfKind(k), x);
    }
    assert multiset(Seqs.Filter(a, OfKind(k))) == multiset(Seqs.Filter(b, OfKind(k)));
    Seqs.SumOfPermutation(Seqs.Filter(a, OfKind(k)), Seqs.Filter(b, OfKind(k)), MovAmount);
  }

  /** `updateFondoCassaFromMovimenti(d)` corrected: the figures the movements
      determine (opening float, cash sales, expenses) and the card total are
      derived afresh, so the snapshot follows the movement log. */
  function RefreshFondo(store: Store, d: string): (r: Store)
    ensures r.movimenti == store.movimenti && r.pagamenti == store.pagamenti
  {
    store.(fondi := Upsert(store.fondi, RefreshWrite(store, d)))
  }

  /** The columns the corrected refresh writes. */
  function RefreshWrite(store: Store, d: string): FondoWrite {
    var movs := MovimentiByData(store.movimenti, d);
    var derived := ComputeStato(d, None, movs, Pos.DailyTotal(store.pagamenti, d));
    var st := StatoCassaCompleto(store, d);
    var figures := derived.(altreEntrate := st.altreEntrate,
                            fondoTeorico := derived.fondoIniziale + derived.venditeContanti + st.altreEntrate - derived.uscite);
    FiguresOf(d, figures, None, None, None, None)
  }

  /** `addMovimentoContanti(m)` with the corrected refresh. */
  function AddMovimento(store: Store, m: Movement): (r: Store)
    ensures r.movimenti == store.movimenti + [m] && r.pagamenti == store.pagamenti
  {
    RefreshFondo(store.(movimenti := store.movimenti + [m]), DatePart(m.dataMovimento))
  }

  /** After a movement is logged, the day reports exactly what its movements
      say: cash sales and expenses are the sums of the day's `entrata` and
      `uscita` movements and the opening float is the first opening movement's
      amount. */
  lemma AddMovimentoTracksMovements(store: Store, m: Movement)
    requires UniqueDates(store.fondi)
    ensures var d := DatePart(m.dataMovimento);
            var r := AddMovimento(store, m);
            var movs := MovimentiByData(r.movimenti, d);
            var st := StatoCassaCompleto(r, d);
      && st.venditeContanti == SumKind(movs, Entrata)
      && st.uscite == SumKind(movs, Uscita)
      && st.fondoIniziale == OpeningAmount(movs)
      && st.venditeCarta == Pos.DailyTotal(r.pagamenti, d)
      && st.fondoTeorico == OpeningAmount(movs) + SumKind(movs, Entrata) + st.altreEntrate - SumKind(movs, Uscita)
  {
    var d := DatePart(m.dataMovimento);
    var s1 := store.(movimenti := store.movimenti + [m]);
    var r := AddMovimento(store, m);
    UpsertStoresWrite(store.fondi, RefreshWrite(s1, d));
    StatoOfDerivedFigures(d, FondoByData(r.fondi, d).value,
      MovimentiByData(s1.movimenti, d), Pos.DailyTotal(s1.pagamenti, d));
  }

  /** A snapshot holding the figures the movements and the card total give
      reports exactly those figures. */
  lemma StatoOfDerivedFigures(d: string, f: FondoCassa, movs: seq<Movement>, totalePOS: real)
    requires f.fondoIniziale == OpeningAmount(movs)
    requires f.venditeContanti == SumKind(movs, Entrata) && f.uscite == SumKind(movs, Uscita)
    requires f.venditeCarta == totalePOS
    ensures var st := ComputeStato(d, Some(f), movs, totalePOS);
      && st.fondoIniziale == OpeningAmount(movs)
      && st.venditeContanti == SumKind(movs, Entrata)
      && st.uscite == SumKind(movs, Uscita)
      && st.venditeCarta == totalePOS
      && st.fondoTeorico == OpeningAmount(movs) + SumKind(movs, Entrata) + st.altreEntrate - SumKind(movs, Uscita)
  {
  }

  // ---------------------------------------------------------------------------
  // Closing and opening the register

  /** The outcome of a call that reports success as a boolean. */
  datatype Outcome = Outcome(store: Store, ok: bool)

  /** `chiudiCassa(d, fondoEffettivo, note)`: the day's figures, the counted
      float, the difference from the theoretical float and `chiuso = true` are
      upserted. `writeOk` is whether the database accepts the write; a failed
      write gives `false` and changes nothing. */
  function ChiudiCassa(store: Store, d: string, fondoEffettivo: real, note: Option<string>, writeOk: bool): (r: Outcome)
    ensures r.ok == writeOk
    ensures !r.ok ==> r.store == store
    ensures r.store.movimenti == store.movimenti && r.store.pagamenti == store.pagamenti
  {
    if writeOk then Outcome(store.(fondi := Upsert(store.fondi, CloseWrite(d, StatoCassaCompleto(store, d), fondoEffettivo, note))), true)
    else Outcome(store, false)
  }

  /** The columns `chiudiCassa` writes for the day's computed state `st`. */
  function CloseWrite(d: string, st: StatoCassa, fondoEffettivo: real, note: Option<string>): (r: FondoWrite)
    ensures r.data == d && r.chiuso == Some(true) && r.fondoEffettivo == Some(fondoEffettivo) && r.note == note
    ensures r.fondoIniziale == st.fondoIniziale && r.venditeContanti == st.venditeContanti
    ensures r.venditeCarta == st.venditeCarta && r.altreEntrate == st.altreEntrate
    ensures r.uscite == st.uscite && r.fondoTeorico == st.fondoTeorico
    ensures r.differenza == Some(fondoEffettivo - r.fondoTeorico)
  {
    FiguresOf(d, st, Some(fondoEffettivo), Some(fondoEffettivo - st.fondoTeorico), Some(true), note)
  }

  /** A successful close stores the figures just computed, the counted float,
      difference = counted − theoretical and `chiuso`, and no other day
      changes. */
  lemma ChiudiCassaWrites(store: Store, d: string, fondoEffettivo: real, note: Option<string>)
    requires UniqueDates(store.fondi)
    ensures var st := StatoCassaCompleto(store, d);
            var r := ChiudiCassa(store, d, fondoEffettivo, note, true).store;
            var f := FondoByData(r.fondi, d);
      && UniqueDates(r.fondi)
      && f.Some? && f.value.chiuso
      && f.value.fondoEffettivo == Some(fondoEffettivo)
      && f.value.differenza == Some(fondoEffettivo - st.fondoTeorico)
      && f.value.fondoIniziale == st.fondoIniziale && f.value.venditeContanti == st.venditeContanti
      && f.value.venditeCarta == st.venditeCarta && f.value.altreEntrate == st.altreEntrate
      && f.value.uscite == st.uscite && f.value.fondoTeorico == st.fondoTeorico
      && (note.Some? ==> f.value.note == note)
      && forall e :: e != d ==> FondoByData(r.fondi, e) == FondoByData(store.fondi, e)
  {
    var st := StatoCassaCompleto(store, d);
    var w := CloseWrite(d, st, fondoEffettivo, note);
    UpsertStoresWrite(store.fondi, w);
  }

  /** After an upsert the day's row holds every figure written and every
      optional column supplied. */
  lemma UpsertStoresWrite(fondi: seq<FondoCassa>, w: FondoWrite)
    requires UniqueDates(fondi)
    ensures var r := Upsert(fondi, w);
            var f := FondoByData(r, w.data);
      && UniqueDates(r)
      && f.Some?
      && f.value.fondoIniziale == w.fondoIniziale && f.value.venditeContanti == w.venditeContanti
      && f.value.venditeCarta == w.venditeCarta && f.value.altreEntrate == w.altreEntrate
      && f.value.uscite == w.uscite && f.value.fondoTeorico == w.fondoTeorico
      && (w.fondoEffettivo.Some? ==> f.value.fondoEffettivo == w.fondoEffettivo)
      && (w.differenza.Some? ==> f.value.differenza == w.differenza)
      && (w.chiuso.Some? ==> f.value.chiuso == w.chiuso.value)
      && (w.note.Some? ==> f.value.note == w.note)
      && forall e :: e != w.data ==> FondoByData(r, e) == FondoByData(fondi, e)
  {
    UpsertReadBack(fondi, w);
  }

  /** After a successful close the day reports itself closed, with the
      theoretical float it had and the difference just stored. */
  lemma ChiudiCassaCloses(store: Store, d: string, fondoEffettivo: real, note: Option<string>)
    requires UniqueDates(store.fondi)
    ensures var st := StatoCassaCompleto(store, d);
            var after := StatoCassaCompleto(ChiudiCassa(store, d, fondoEffettivo, note, true).store, d);
      && !after.aperta
      && after.fondoTeorico == st.fondoTeorico
      && after.fondoEffettivo == Some(fondoEffettivo)
      && after.differenza == Some(fondoEffettivo - st.fondoTeorico)
  {
    var st := StatoCassaCompleto(store, d);
    var r := ChiudiCassa(store, d, fondoEffettivo, note, true).store;
    ChiudiCassaWrites(store, d, fondoEffettivo, note);
    var f := FondoByData(r.fondi, d).value;
    StoringFiguresKeepsStato(d, FondoByData(store.fondi, d), f,
      MovimentiByData(store.movimenti, d), Pos.DailyTotal(store.pagamenti, d));
  }

  /** The movement `apriCassa` logs. */
  function OpeningMovement(d: string, fondoIniziale: real): (r: Movement)
    ensures r.tipo == FondoIniziale && r.importo == fondoIniziale
    ensures Dates.IsIsoDateString(d) ==>
      IsTimestamp(r.dataMovimento) && DatePart(r.dataMovimento) == d && InDay(r.dataMovimento, d)
  {
    assert Dates.IsIsoDateString(d) ==>
      var ts := d + " 08:00:00"; IsTimestamp(ts) && DatePart(ts) == d && InDay(ts, d)
    by {
      if Dates.IsIsoDateString(d) {
        OpeningStampIsInDay(d);
      }
    }
    Movement(FondoIniziale, fondoIniziale, "Fondo cassa apertura giornata", d + " 08:00:00", Some("Sistema"))
  }

  /** `apriCassa(d, fondoIniziale)` as written: log an opening-float movement
      at 08:00 of the day through `addMovimentoContanti`, whose as-written
      refresh then upserts the day's snapshot. A failed write gives `false` and
      changes nothing. */
  function ApriCassa(store: Store, d: string, fondoIniziale: real, writeOk: bool): (r: Outcome)
    ensures r.ok == writeOk
    ensures !r.ok ==> r.store == store
    ensures r.ok ==> r.store.movimenti == store.movimenti + [OpeningMovement(d, fondoIniziale)]
    ensures r.ok ==> r.store.pagamenti == store.pagamenti
  {
    if writeOk then Outcome(AddMovimentoAsWritten(store, OpeningMovement(d, fondoIniziale)), true)
    else Outcome(store, false)
  }

  /** `apriCassa` over the corrected refresh. */
  function ApriCassaCorrected(store: Store, d: string, fondoIniziale: real, writeOk: bool): (r: Outcome)
    ensures r.ok == writeOk
    ensures !r.ok ==> r.store == store
    ensures r.ok ==> r.store.movimenti == store.movimenti + [OpeningMovement(d, fondoIniziale)]
    ensures r.ok ==> r.store.pagamenti == store.pagamenti
  {
    if writeOk then Outcome(AddMovimento(store, OpeningMovement(d, fondoIniziale)), true)
    else Outcome(store, false)
  }

  /** Opening appends exactly one movement: an opening float of the given
      amount, stamped 08:00:00 of the day, by the operator `Sistema`. */
  lemma ApriCassaMovement(store: Store, d: string, fondoIniziale: real)
    requires ' ' !in d
    ensures var r := ApriCassa(store, d, fondoIniziale, true).store;
      && |r.movimenti| == |store.movimenti| + 1
      && r.movimenti[..|store.movimenti|] == store.movimenti
      && var m := r.movimenti[|store.movimenti|];
         && m.tipo == FondoIniziale && m.importo == fondoIniziale
         && m.dataMovimento == d + " 08:00:00" && m.operatore == Some("Sistema")
         && DatePart(m.dataMovimento) == d
  {
    var r := ApriCassa(store, d, fondoIniziale, true).store;
    assert r.movimenti[..|store.movimenti|] == store.movimenti;
    BeforeFirstAt(d + " 08:00:00", ' ', |d|);
    assert (d + " 08:00:00")[..|d|] == d;
  }

  /** The 08:00 stamp of an ISO date is a timestamp of that day. */
  lemma OpeningStampIsInDay(d: string)
    requires Dates.IsIsoDateString(d)
    ensures var ts := d + " 08:00:00";
      IsTimestamp(ts) && DatePart(ts) == d && InDay(ts, d)
  {
    var ts := d + " 08:00:00";
    assert ts[..10] == d && ts[11..] == "08:00:00";
    DatePartOfTimestamp(ts);
    InDayIffDatePart(ts, d);
  }

  /** Opening a day that has no opening movement yet, and whose snapshot (if
      any) stores no opening float, makes the day report the given opening
      float: the refresh reads it from the new movement and stores it. */
  lemma ApriCassaSetsOpeningFloat(store: Store, d: string, fondoIniziale: real)
    requires UniqueDates(store.fondi)
    requires Dates.IsIsoDateString(d)
    requires forall m :: m in store.movimenti && InDay(m.dataMovimento, d) ==> m.tipo != FondoIniziale
    requires FondoByData(store.fondi, d).None? || FondoByData(store.fondi, d).value.fondoIniziale == 0.0
    ensures StatoCassaCompleto(ApriCassa(store, d, fondoIniziale, true).store, d).fondoIniziale == fondoIniziale
  {
    var o := OpeningMovement(d, fondoIniziale);
    OpeningStampIsInDay(d);
    OpeningOfAppended(store.movimenti, o, d);
    var s1 := store.(movimenti := store.movimenti + [o]);
    var st := StatoCassaCompleto(s1, d);
    assert st.fondoIniziale == fondoIniziale;
    var w := FiguresOf(d, st, None, None, None, None);
    UpsertStoresWrite(s1.fondi, w);
    var r := s1.(fondi := Upsert(s1.fondi, w));
    assert ApriCassa(store, d, fondoIniziale, true).store == r;
    StoringFiguresKeepsStato(d, FondoByData(s1.fondi, d), FondoByData(r.fondi, d).value,
      MovimentiByData(s1.movimenti, d), Pos.DailyTotal(s1.pagamenti, d));
  }

  /** As written, a non-zero opening float already stored in the day's
      snapshot wins over the one just logged: `apriCassa` inherits the freeze
      of the as-written refresh. */
  lemma ApriCassaKeepsStoredOpening(store: Store, d: string, fondoIniziale: real)
    requires UniqueDates(store.fondi)
    requires Dates.IsIsoDateString(d)
    requires FondoByData(store.fondi, d).Some? && FondoByData(store.fondi, d).value.fondoIniziale != 0.0
    ensures StatoCassaCompleto(ApriCassa(store, d, fondoIniziale, true).store, d).fondoIniziale ==
      FondoByData(store.fondi, d).value.fondoIniziale
  {
    var o := OpeningMovement(d, fondoIniziale);
    OpeningStampIsInDay(d);
    var s1 := store.(movimenti := store.movimenti + [o]);
    var w := FiguresOf(d, StatoCassaCompleto(s1, d), None, None, None, None);
    UpsertStoresWrite(s1.fondi, w);
    assert ApriCassa(store, d, fondoIniziale, true).store == s1.(fondi := Upsert(s1.fondi, w));
  }

  /** With the corrected refresh, opening a day without an opening movement
      makes the day report the given opening float, whatever its snapshot
      stored before. */
  lemma ApriCassaCorrectedSetsOpeningFloat(store: Store, d: string, fondoIniziale: real)
    requires UniqueDates(store.fondi)
    requires Dates.IsIsoDateString(d)
    requires forall m :: m in store.movimenti && InDay(m.dataMovimento, d) ==> m.tipo != FondoIniziale
    ensures StatoCassaCompleto(ApriCassaCorrected(store, d, fondoIniziale, true).store, d).fondoIniziale == fondoIniziale
  {
    var o := OpeningMovement(d, fondoIniziale);
    OpeningStampIsInDay(d);
    AddMovimentoTracksMovements(store, o);
    OpeningOfAppended(store.movimenti, o, d);
  }

  /** Appending the day's only opening float makes it the day's opening float. */
  lemma OpeningOfAppended(movimenti: seq<Movement>, o: Movement, d: string)
    requires o.tipo == FondoIniziale && InDay(o.dataMovimento, d)
    requires forall m :: m in movimenti && InDay(m.dataMovimento, d) ==> m.tipo != FondoIniziale
    ensures OpeningAmount(MovimentiByData(movimenti + [o], d)) == o.importo
  {
    var movs := MovimentiByData(movimenti + [o], d);
    assert o in movs;
    SoleOpening(movs, o);
  }

  /** When one movement is the only opening float of a day, the day's opening
      float is its amount. */
  lemma SoleOpening(movs: seq<Movement>, o: Movement)
    requires o in movs && o.tipo == FondoIniziale
    requires forall m :: m in movs && m.tipo == FondoIniziale ==> m == o
    ensures OpeningAmount(movs) == o.importo
  {
    var i :| 0 <= i < |movs| && movs[i] == o;
    var k := FirstOpening(movs).value;
    assert movs[k] in movs;
  }

  // ---------------------------------------------------------------------------
  // Monthly statistics

  datatype Statistiche = Statistiche(
    giorniAperti: nat,
    totaleVenditeContanti: real,
    totaleVenditeCarta: real,
    totaleUscite: real,
    differenzeTotali: real,
    mediaGiornaliera: real)

  /** `${anno}-${mese padded}-${day}`. */
  function MonthDay(anno: int, mese: int, day: string): string {
    MonthPrefix(anno, mese) + day
  }

  /** `${anno}-${mese padded}-`. */
  function MonthPrefix(anno: int, mese: int): string {
    IntToString(anno) + "-" + PadStart2(IntToString(mese)) + "-"
  }

  /** `.gte('data', <month>-01).lte('data', <month>-31).eq('chiuso', true)`:
      only closed rows dated with the month's prefix are selected, and every
      closed row dated `<month>-dd` with `"01" <= dd <= "31"` is. */
  function ClosedInMonth(anno: int, mese: int): (r: FondoCassa -> bool)
    ensures forall f :: r(f) ==>
      f.chiuso && |MonthPrefix(anno, mese)| <= |f.data| && f.data[..|MonthPrefix(anno, mese)|] == MonthPrefix(anno, mese)
    ensures forall f: FondoCassa ::
      && f.chiuso && |f.data| == |MonthPrefix(anno, mese)| + 2
      && f.data[..|MonthPrefix(anno, mese)|] == MonthPrefix(anno, mese)
      && LexLe("01", f.data[|MonthPrefix(anno, mese)|..]) && LexLe(f.data[|MonthPrefix(anno, mese)|..], "31")
      ==> r(f)
  {
    var p := MonthPrefix(anno, mese);
    assert forall x: string :: LexLe(p + "01", x) && LexLe(x, p + "31") ==> |p| <= |x| && x[..|p|] == p by {
      forall x: string
        ensures LexLe(p + "01", x) && LexLe(x, p + "31") ==> |p| <= |x| && x[..|p|] == p
      {
        LexBetweenSharesPrefix(p, "01", "31", x);
      }
    }
    assert forall x: string | |x| == |p| + 2 && x[..|p|] == p && LexLe("01", x[|p|..]) && LexLe(x[|p|..], "31") ::
        LexLe(p + "01", x) && LexLe(x, p + "31") by {
      forall x: string | |x| == |p| + 2 && x[..|p|] == p && LexLe("01", x[|p|..]) && LexLe(x[|p|..], "31")
        ensures LexLe(p + "01", x) && LexLe(x, p + "31")
      {
        assert x == p + x[|p|..];
        LexLeCommonPrefix(p, "01", x[|p|..]);
        LexLeCommonPrefix(p, x[|p|..], "31");
      }
    }
    (f: FondoCassa) => LexLe(MonthDay(anno, mese, "01"), f.data) && LexLe(f.data, MonthDay(anno, mese, "31")) && f.chiuso
  }

  function Cash(f: FondoCassa): real { f.venditeContanti }
  function Card(f: FondoCassa): real { f.venditeCarta }
  function Out(f: FondoCassa): real { f.uscite }

  /** `parseFloat(f.differenza?.toString() || '0')`: a missing difference is 0. */
  function Difference(f: FondoCassa): real { f.differenza.GetOr(0.0) }

  function Takings(f: FondoCassa): real { f.venditeContanti + f.venditeCarta }

  /** `getStatisticheMensili(anno, mese)`. */
  function StatisticheMensili(fondi: seq<FondoCassa>, anno: int, mese: int): (r: Statistiche)
    ensures r.giorniAperti == 0 ==> r.mediaGiornaliera == 0.0
    ensures r.giorniAperti <= |fondi|
  {
    StatisticheOf(Seqs.Filter(fondi, ClosedInMonth(anno, mese)))
  }

  /** The statistics of a list of closed days. */
  function StatisticheOf(closed: seq<FondoCassa>): Statistiche {
    Statistiche(
      |closed|,
      Seqs.SumOf(closed, Cash),
      Seqs.SumOf(closed, Card),
      Seqs.SumOf(closed, Out),
      Seqs.SumOf(closed, Difference),
      Average(Seqs.SumOf(closed, Takings), |closed|))
  }

  /** `count > 0 ? total / count : 0`. */
  function Average(total: real, count: nat): (r: real)
    ensures count > 0 ==> r * (count as real) == total
    ensures count == 0 ==> r == 0.0
  {
    if count > 0 then total / (count as real) else 0.0
  }

  lemma {:induction false} TakingsSplit(s: seq<FondoCassa>)
    ensures Seqs.SumOf(s, Takings) == Seqs.SumOf(s, Cash) + Seqs.SumOf(s, Card)
    decreases |s|
  {
    if s != [] {
      TakingsSplit(s[..|s| - 1]);
    }
  }

  /** The daily average is the total cash plus card takings over the number of
      days: average × days gives back the takings, and no days average 0. */
  predicate AverageOfDays(r: Statistiche) {
    && (r.giorniAperti > 0 ==>
          r.mediaGiornaliera * (r.giorniAperti as real) == r.totaleVenditeContanti + r.totaleVenditeCarta)
    && (r.giorniAperti == 0 ==> r.mediaGiornaliera == 0.0)
  }

  /** The month's daily average is its cash plus card takings over its closed
      days. */
  lemma MediaGiornaliera(fondi: seq<FondoCassa>, anno: int, mese: int)
    ensures AverageOfDays(StatisticheMensili(fondi, anno, mese))
  {
    AverageOfTakings(Seqs.Filter(fondi, ClosedInMonth(anno, mese)));
  }

  lemma AverageOfTakings(closed: seq<FondoCassa>)
    ensures AverageOfDays(StatisticheOf(closed))
  {
    TakingsSplit(closed);
  }

  /** A month without closed days reports zeros throughout. */
  lemma StatisticheWithoutClosedDays(fondi: seq<FondoCassa>, anno: int, mese: int)
    requires forall i :: 0 <= i < |fondi| ==> !ClosedInMonth(anno, mese)(fondi[i])
    ensures StatisticheMensili(fondi, anno, mese) == Statistiche(0, 0.0, 0.0, 0.0, 0.0, 0.0)
  {
    Seqs.FilterNoneIsEmpty(fondi, ClosedInMonth(anno, mese));
  }

  /** A snapshot that is still open, or that lies outside the month's range,
      does not move the statistics. */
  lemma StatisticheIgnoreOthers(fondi: seq<FondoCassa>, f: FondoCassa, anno: int, mese: int)
    requires !ClosedInMonth(anno, mese)(f)
    ensures StatisticheMensili(fondi + [f], anno, mese) == StatisticheMensili(fondi, anno, mese)
  {
    assert (fondi + [f])[..|fondi + [f]| - 1] == fondi;
  }

  /** A closed snapshot of the month adds one day and its own figures, a
      missing difference counting as 0. */
  lemma StatisticheCountClosed(fondi: seq<FondoCassa>, f: FondoCassa, anno: int, mese: int)
    requires ClosedInMonth(anno, mese)(f)
    ensures var a := StatisticheMensili(fondi, anno, mese);
            var b := StatisticheMensili(fondi + [f], anno, mese);
      && b.giorniAperti == a.giorniAperti + 1
      && b.totaleVenditeContanti == a.totaleVenditeContanti + f.venditeContanti
      && b.totaleVenditeCarta == a.totaleVenditeCarta + f.venditeCarta
      && b.totaleUscite == a.totaleUscite + f.uscite
      && b.differenzeTotali == a.differenzeTotali + (if f.differenza.Some? then f.differenza.value else 0.0)
  {
    var p := ClosedInMonth(anno, mese);
    Seqs.FilteredSumAppend(fondi, f, p, Cash);
    Seqs.FilteredSumAppend(fondi, f, p, Card);
    Seqs.FilteredSumAppend(fondi, f, p, Out);
    Seqs.FilteredSumAppend(fondi, f, p, Difference);
    assert (fondi + [f])[..|fondi + [f]| - 1] == fondi;
  }

  /** Every closed snapshot dated `<month>-dd`, `dd` from "01" to "31", is
      counted in the month's statistics with its figures. */
  lemma StatisticheCountDayOfMonth(fondi: seq<FondoCassa>, f: FondoCassa, anno: int, mese: int, dd: string)
    requires f.chiuso && f.data == MonthDay(anno, mese, dd)
    requires |dd| == 2 && LexLe("01", dd) && LexLe(dd, "31")
    ensures var a := StatisticheMensili(fondi, anno, mese);
            var b := StatisticheMensili(fondi + [f], anno, mese);
      && b.giorniAperti == a.giorniAperti + 1
      && b.totaleVenditeContanti == a.totaleVenditeContanti + f.venditeContanti
      && b.totaleVenditeCarta == a.totaleVenditeCarta + f.venditeCarta
      && b.totaleUscite == a.totaleUscite + f.uscite
      && b.differenzeTotali == a.differenzeTotali + (if f.differenza.Some? then f.differenza.value else 0.0)
  {
    var p := MonthPrefix(anno, mese);
    assert f.data[..|p|] == p && f.data[|p|..] == dd;
    StatisticheCountClosed(fondi, f, anno, mese);
  }
}
