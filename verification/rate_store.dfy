// The local SQLite table `rates(date, currency, rate)` with its
// UNIQUE(date, currency) constraint, seen as a finite map from
// (date, currency) to rate. Saving a batch is INSERT OR REPLACE row by
// row; reading is the SELECT of one currency between two dates, ordered
// by date.

module RateStore {
  import opened Calendar
  import opened DatetimeOperations
  import opened TextOrder

  /** A mid rate, the REAL column of the table. */
  datatype Rate = Rate(mid: real)

  /** One row as inserted: (date, currency, rate). */
  datatype Row = Row(date: Date, currency: string, rate: Rate)

  /** The columns under the table's UNIQUE constraint. */
  datatype Key = Key(date: Date, currency: string)

  /** The whole table: at most one rate per (date, currency). */
  type Store = map<Key, Rate>

  /** One row of the result of a read: (date, rate). */
  datatype Entry = Entry(date: Date, rate: Rate)

  function KeyOf(row: Row): Key {
    Key(row.date, row.currency)
  }

  /** The keys a batch of rows writes. */
  function BatchKeys(rows: seq<Row>): set<Key> {
    set i | 0 <= i < |rows| :: KeyOf(rows[i])
  }

  /** No later row of the batch writes the same key as row i. */
  predicate IsLastWrite(rows: seq<Row>, i: int)
    requires 0 <= i < |rows|
  {
    forall j :: i < j < |rows| ==> KeyOf(rows[j]) != KeyOf(rows[i])
  }

  // ---------------------------------------------------------------------
  // INSERT OR REPLACE

  /**
   * `executemany("INSERT OR REPLACE INTO rates VALUES (?, ?, ?)", rows)`:
   * afterwards the table holds the old keys and the batch's keys, every
   * key the batch writes holds the rate of its last write, and every other
   * key keeps its old rate. These three facts determine the table.
   */
  function SaveCurrencyRatesToDb(store: Store, rows: seq<Row>): (r: Store)
    ensures r.Keys == store.Keys + BatchKeys(rows)
    ensures forall k :: k in store && k !in BatchKeys(rows) ==> r[k] == store[k]
    ensures forall i :: 0 <= i < |rows| && IsLastWrite(rows, i) ==> r[KeyOf(rows[i])] == rows[i].rate
    decreases |rows|
  {
    if |rows| == 0 then
      store
    else
      var next := store[KeyOf(rows[0]) := rows[0].rate];
      var r := SaveCurrencyRatesToDb(next, rows[1..]);
      BatchKeysSplit(rows);
      forall i | 0 <= i < |rows| && IsLastWrite(rows, i)
        ensures r[KeyOf(rows[i])] == rows[i].rate
      {
        if i == 0 {
          LastWriteOfFirst(rows);
        } else {
          assert IsLastWrite(rows[1..], i - 1);
          assert rows[1..][i - 1] == rows[i];
        }
      }
      r
  }

  lemma BatchKeysSplit(rows: seq<Row>)
    requires |rows| > 0
    ensures BatchKeys(rows) == {KeyOf(rows[0])} + BatchKeys(rows[1..])
  {
    forall k | k in BatchKeys(rows)
      ensures k in {KeyOf(rows[0])} + BatchKeys(rows[1..])
    {
      var i :| 0 <= i < |rows| && KeyOf(rows[i]) == k;
      if i > 0 {
        assert rows[1..][i - 1] == rows[i];
      }
    }
    forall k | k in BatchKeys(rows[1..])
      ensures k in BatchKeys(rows)
    {
      var i :| 0 <= i < |rows[1..]| && KeyOf(rows[1..][i]) == k;
      assert rows[i + 1] == rows[1..][i];
    }
  }

  /** A first row that is its key's last write is not overwritten by the rest. */
  lemma LastWriteOfFirst(rows: seq<Row>)
    requires |rows| > 0 && IsLastWrite(rows, 0)
    ensures KeyOf(rows[0]) !in BatchKeys(rows[1..])
  {
    forall k | k in BatchKeys(rows[1..])
      ensures k != KeyOf(rows[0])
    {
      var j :| 0 <= j < |rows[1..]| && KeyOf(rows[1..][j]) == k;
      assert rows[1..][j] == rows[j + 1];
    }
  }

  /** Every key a batch writes has a last write in it. */
  lemma {:induction false} LastWriteExists(rows: seq<Row>, k: Key)
    requires k in BatchKeys(rows)
    ensures exists i :: 0 <= i < |rows| && KeyOf(rows[i]) == k && IsLastWrite(rows, i)
  {
    BatchKeysSplit(rows);
    if k in BatchKeys(rows[1..]) {
      LastWriteExists(rows[1..], k);
      var i :| 0 <= i < |rows[1..]| && KeyOf(rows[1..][i]) == k && IsLastWrite(rows[1..], i);
      assert rows[i + 1] == rows[1..][i];
      assert IsLastWrite(rows, i + 1);
    } else {
      assert KeyOf(rows[0]) == k;
      forall j | 0 < j < |rows|
        ensures KeyOf(rows[j]) != k
      {
        assert rows[j] == rows[1..][j - 1];
      }
      assert IsLastWrite(rows, 0);
    }
  }

  /** Saving the same batch twice leaves the table as saving it once. */
  lemma SaveIsIdempotent(store: Store, rows: seq<Row>)
    ensures SaveCurrencyRatesToDb(SaveCurrencyRatesToDb(store, rows), rows)
         == SaveCurrencyRatesToDb(store, rows)
  {
    var once := SaveCurrencyRatesToDb(store, rows);
    var twice := SaveCurrencyRatesToDb(once, rows);
    forall k | k in twice
      ensures twice[k] == once[k]
    {
      if k in BatchKeys(rows) {
        LastWriteExists(rows, k);
        var i :| 0 <= i < |rows| && KeyOf(rows[i]) == k && IsLastWrite(rows, i);
        assert twice[KeyOf(rows[i])] == rows[i].rate;
      }
    }
  }

  /** A save only touches rows of the batch's currencies. */
  lemma SaveKeepsOtherCurrencies(store: Store, rows: seq<Row>, k: Key)
    requires forall i :: 0 <= i < |rows| ==> rows[i].currency != k.currency
    ensures k in SaveCurrencyRatesToDb(store, rows) <==> k in store
    ensures k in store ==> SaveCurrencyRatesToDb(store, rows)[k] == store[k]
  {
    assert k !in BatchKeys(rows);
  }

  // ---------------------------------------------------------------------
  // SELECT date, rate ... WHERE currency = ? AND date BETWEEN ? AND ? ORDER BY date

  /** `start <= d <= end`, the SQL BETWEEN on ISO date texts. */
  predicate InRange(d: Date, startDate: Date, endDate: Date) {
    !Before(d, startDate) && !Before(endDate, d)
  }

  /** Zero-padded numbers of one width compare as texts as they do as numbers. */
  lemma {:induction false} PadOrder(x: int, y: int, width: nat)
    requires 0 <= x < Pow10(width) && 0 <= y < Pow10(width)
    ensures StrLe(PadNatural(x, width), PadNatural(y, width)) <==> x <= y
  {
    if width > 0 {
      DropLastDigit(x, width);
      DropLastDigit(y, width);
      PadOrder(x / 10, y / 10, width - 1);
      PadInjective(x / 10, y / 10, width - 1);
      DigitOrder(x % 10, y % 10);
      StrLeConcat(PadNatural(x / 10, width - 1), PadNatural(y / 10, width - 1),
                  [DigitChar(x % 10)], [DigitChar(y % 10)]);
      DecimalOrder(x, y);
    }
  }

  /** A number of `width` digits has `width - 1` digits once its last is dropped. */
  lemma DropLastDigit(x: int, width: nat)
    requires width > 0 && 0 <= x < Pow10(width)
    ensures 0 <= x / 10 < Pow10(width - 1)
  {
  }

  /** Single digits compare as texts as they do as numbers. */
  lemma DigitOrder(a: int, b: int)
    requires 0 <= a <= 9 && 0 <= b <= 9
    ensures StrLe([DigitChar(a)], [DigitChar(b)]) <==> a <= b
  {
    assert [DigitChar(a)][1..] == [] && [DigitChar(b)][1..] == [];
  }

  /** Numbers compare as (all but the last digit, last digit) do. */
  lemma DecimalOrder(x: int, y: int)
    requires 0 <= x && 0 <= y
    ensures x <= y <==> x / 10 < y / 10 || (x / 10 == y / 10 && x % 10 <= y % 10)
  {
    assert x == 10 * (x / 10) + x % 10;
    assert y == 10 * (y / 10) + y % 10;
  }

  /** Distinct numbers have distinct zero-padded texts. */
  lemma PadInjective(x: int, y: int, width: nat)
    requires 0 <= x < Pow10(width) && 0 <= y < Pow10(width)
    ensures PadNatural(x, width) == PadNatural(y, width) <==> x == y
  {
    ParsePadded(x, width);
    ParsePadded(y, width);
  }

  /**
   * The table stores dates as YYYY-MM-DD texts and SQLite compares those
   * texts; for dates of years 1..9999 text order is date order, so BETWEEN
   * and ORDER BY on the texts agree with InRange and Before on dates.
   */
  lemma DateTextOrder(a: Date, b: Date)
    ensures StrLe(DateToStr(a), DateToStr(b)) <==> !Before(b, a)
  {
    var ya, yb := PadNatural(a.year, 4), PadNatural(b.year, 4);
    DateTextSplit(a);
    DateTextSplit(b);
    assert Pow10(4) == 10000;
    PadOrder(a.year, b.year, 4);
    PadInjective(a.year, b.year, 4);
    MonthDayTextOrder(a, b);
    StrLeConcat(ya, yb, "-" + MonthDayText(a), "-" + MonthDayText(b));
    StrLeConcat("-", "-", MonthDayText(a), MonthDayText(b));
  }

  /** The MM-DD tail of a stored date text. */
  function MonthDayText(d: Date): string {
    PadNatural(d.month, 2) + "-" + PadNatural(d.day, 2)
  }

  lemma DateTextSplit(d: Date)
    ensures DateToStr(d) == PadNatural(d.year, 4) + ("-" + MonthDayText(d))
  {
  }

  /** Within a year, the MM-DD texts compare as (month, day) does. */
  lemma MonthDayTextOrder(a: Date, b: Date)
    ensures StrLe(MonthDayText(a), MonthDayText(b)) <==> a.month < b.month || (a.month == b.month && a.day <= b.day)
  {
    var ma, da := PadNatural(a.month, 2), PadNatural(a.day, 2);
    var mb, db := PadNatural(b.month, 2), PadNatural(b.day, 2);
    assert MonthDayText(a) == ma + ("-" + da);
    assert MonthDayText(b) == mb + ("-" + db);
    assert Pow10(2) == 100;
    PadOrder(a.month, b.month, 2);
    PadOrder(a.day, b.day, 2);
    PadInjective(a.month, b.month, 2);
    StrLeConcat(ma, mb, "-" + da, "-" + db);
    StrLeConcat("-", "-", da, db);
  }

  /** BETWEEN on the stored texts selects exactly the dates InRange admits. */
  lemma BetweenOnTexts(d: Date, startDate: Date, endDate: Date)
    ensures InRange(d, startDate, endDate) <==>
      StrLe(DateToStr(startDate), DateToStr(d)) && StrLe(DateToStr(d), DateToStr(endDate))
  {
    DateTextOrder(startDate, d);
    DateTextOrder(d, endDate);
  }

  /** The entry is a row of the table for this currency within the range. */
  predicate Selected(store: Store, currency: string, startDate: Date, endDate: Date, e: Entry) {
    && Key(e.date, currency) in store
    && store[Key(e.date, currency)] == e.rate
    && InRange(e.date, startDate, endDate)
  }

  /** The dates of a list of entries, in order. */
  function DatesOf(entries: seq<Entry>): (r: seq<Date>)
    ensures |r| == |entries|
    ensures forall i :: 0 <= i < |r| ==> r[i] == entries[i].date
  {
    seq(|entries|, i requires 0 <= i < |entries| => entries[i].date)
  }

  /**
   * The rows of one currency between two dates, inclusive, ordered by
   * date: exactly the table's rows for that currency in the range, each
   * once, in ascending date order. An empty list when the start comes
   * after the end.
   */
  function GetDataFromSqlTable(store: Store, currency: string, startDate: Date, endDate: Date): (r: seq<Entry>)
    ensures forall i :: 0 <= i < |r| ==> Selected(store, currency, startDate, endDate, r[i])
    ensures StrictlyAscending(DatesOf(r))
    ensures forall d: Date :: InRange(d, startDate, endDate) && Key(d, currency) in store ==>
              Entry(d, store[Key(d, currency)]) in r
    decreases Ordinal(endDate) - Ordinal(startDate)
  {
    if Before(endDate, startDate) then
      []
    else if startDate == endDate then
      RowOn(store, currency, startDate)
    else
      NextDayIsSuccessor(startDate, endDate);
      BeforeIsOrdinalLess(NextDay(startDate), endDate);
      var rest := GetDataFromSqlTable(store, currency, NextDay(startDate), endDate);
      ReadStep(store, currency, startDate, endDate, rest);
      RowOn(store, currency, startDate) + rest
  }

  /** The table's row for one day of a currency, if it has one. */
  function RowOn(store: Store, currency: string, d: Date): (r: seq<Entry>)
    ensures |r| <= 1
    ensures |r| == 1 <==> Key(d, currency) in store
    ensures forall i :: 0 <= i < |r| ==> Key(d, currency) in store && r[i] == Entry(d, store[Key(d, currency)])
  {
    if Key(d, currency) in store then [Entry(d, store[Key(d, currency)])] else []
  }

  /** A read over start..end is the start's row followed by a read over the
      rest of the range. */
  lemma ReadStep(store: Store, currency: string, startDate: Date, endDate: Date, rest: seq<Entry>)
    requires Before(startDate, endDate) && startDate != MaxDate
    requires forall i :: 0 <= i < |rest| ==> Selected(store, currency, NextDay(startDate), endDate, rest[i])
    requires StrictlyAscending(DatesOf(rest))
    requires forall d: Date :: InRange(d, NextDay(startDate), endDate) && Key(d, currency) in store ==>
               Entry(d, store[Key(d, currency)]) in rest
    ensures var r := RowOn(store, currency, startDate) + rest;
      && (forall i :: 0 <= i < |r| ==> Selected(store, currency, startDate, endDate, r[i]))
      && StrictlyAscending(DatesOf(r))
      && (forall d: Date :: InRange(d, startDate, endDate) && Key(d, currency) in store ==>
            Entry(d, store[Key(d, currency)]) in r)
  {
    var here := RowOn(store, currency, startDate);
    var r := here + rest;
    forall i | 0 <= i < |rest|
      ensures Before(startDate, rest[i].date)
    {
      assert Selected(store, currency, NextDay(startDate), endDate, rest[i]);
      BeforeThenNotBefore(startDate, NextDay(startDate), rest[i].date);
    }
    forall i | 0 <= i < |r|
      ensures Selected(store, currency, startDate, endDate, r[i])
    {
      if i >= |here| {
        assert r[i] == rest[i - |here|];
      }
    }
    forall k, l | 0 <= k < l < |DatesOf(r)|
      ensures Before(DatesOf(r)[k], DatesOf(r)[l])
    {
      if k >= |here| {
        assert DatesOf(rest)[k - |here|] == DatesOf(r)[k];
        assert DatesOf(rest)[l - |here|] == DatesOf(r)[l];
      } else {
        assert r[l] == rest[l - |here|];
      }
    }
    forall d: Date | InRange(d, startDate, endDate) && Key(d, currency) in store
      ensures Entry(d, store[Key(d, currency)]) in r
    {
      if d != startDate {
        NextDayIsSuccessor(startDate, d);
        assert InRange(d, NextDay(startDate), endDate);
      }
    }
  }

  /**
   * After saving a batch, a read over a range shows the rate of the last
   * write of every row of the batch for that currency inside the range.
   */
  lemma SavedRowsAreRead(store: Store, rows: seq<Row>, currency: string, startDate: Date, endDate: Date, i: int)
    requires 0 <= i < |rows| && IsLastWrite(rows, i)
    requires rows[i].currency == currency && InRange(rows[i].date, startDate, endDate)
    ensures Entry(rows[i].date, rows[i].rate)
            in GetDataFromSqlTable(SaveCurrencyRatesToDb(store, rows), currency, startDate, endDate)
  {
    var saved := SaveCurrencyRatesToDb(store, rows);
    assert KeyOf(rows[i]) in BatchKeys(rows);
    assert saved[Key(rows[i].date, currency)] == rows[i].rate;
  }
}
