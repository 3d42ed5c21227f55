/** The import loop: every admitted row becomes a journal booking, is posted
    to its account and, when it names a contra account, mirrored onto that
    account; at the end each account's bookings are ordered by date. The
    state is an account book whose accounts are always exactly what the
    journal read so far posts to them. */
module Journal {
  import opened Wrappers
  import opened JsText
  import opened Types
  import opened Ledger

  // ------------------------------------------------------- sums of bookings

  /** The balance a list of bookings adds up to. */
  function SumDeltas(bs: seq<Booking>): real {
    if bs == [] then 0.0 else SumDeltas(bs[..|bs| - 1]) + bs[|bs| - 1].Delta()
  }

  /** The part of that balance booked in year `y`. */
  function SumDeltasIn(bs: seq<Booking>, y: Year): real {
    if bs == [] then 0.0
    else SumDeltasIn(bs[..|bs| - 1], y) + (if bs[|bs| - 1].year == y then bs[|bs| - 1].Delta() else 0.0)
  }

  /** The years the bookings fall in. */
  function Years(bs: seq<Booking>): set<Year> {
    set b | b in bs :: b.year
  }

  /** `m[y] = (m[y] || 0) + v`: adds `v` to the entry of year `y`, which
      starts at 0. */
  function AddTo(m: map<Year, real>, y: Year, v: real): map<Year, real> {
    m[y := (if y in m then m[y] else 0.0) + v]
  }

  /** The per-year balances that posting the bookings one by one builds. */
  function YearlyOf(bs: seq<Booking>): map<Year, real> {
    if bs == [] then map[] else AddTo(YearlyOf(bs[..|bs| - 1]), bs[|bs| - 1].year, bs[|bs| - 1].Delta())
  }

  /** The yearly balances have one entry per year some booking falls in,
      and that entry is the sum of the bookings of that year. */
  lemma {:induction false} YearlyOfSums(bs: seq<Booking>)
    ensures forall y :: y in YearlyOf(bs) <==> y in Years(bs)
    ensures forall y :: y in YearlyOf(bs) ==> YearlyOf(bs)[y] == SumDeltasIn(bs, y)
  {
    if bs != [] {
      var n := |bs| - 1;
      YearlyOfSums(bs[..n]);
      assert bs == bs[..n] + [bs[n]];
      assert Years(bs) == Years(bs[..n]) + {bs[n].year};
      if bs[n].year !in Years(bs[..n]) {
        SumDeltasInAbsent(bs[..n], bs[n].year);
      }
    }
  }

  lemma {:induction false} SumDeltasAppend(a: seq<Booking>, b: seq<Booking>)
    ensures SumDeltas(a + b) == SumDeltas(a) + SumDeltas(b)
    decreases |b|
  {
    if b == [] {
      assert a + b == a;
    } else {
      SumDeltasAppend(a, b[..|b| - 1]);
      assert (a + b)[..|a + b| - 1] == a + b[..|b| - 1];
    }
  }

  /** A year no booking falls in has no balance. */
  lemma {:induction false} SumDeltasInAbsent(bs: seq<Booking>, y: Year)
    requires y !in Years(bs)
    ensures SumDeltasIn(bs, y) == 0.0
  {
    if bs != [] {
      assert Years(bs[..|bs| - 1]) <= Years(bs);
      SumDeltasInAbsent(bs[..|bs| - 1], y);
      assert bs[|bs| - 1] in bs;
    }
  }

  /** The sum of the yearly balances `m` holds for the years `ys`; a year
      without an entry adds nothing. */
  function SumYears(m: map<Year, real>, ys: seq<Year>): real {
    if ys == [] then 0.0
    else SumYears(m, ys[..|ys| - 1]) + (if ys[|ys| - 1] in m then m[ys[|ys| - 1]] else 0.0)
  }

  lemma {:induction false} SumYearsEmpty(ys: seq<Year>)
    ensures SumYears(map[], ys) == 0.0
  {
    if ys != [] {
      SumYearsEmpty(ys[..|ys| - 1]);
    }
  }

  /** Adding to one year's entry adds to the sum over years that list it
      once, and leaves the sum over years that do not list it unchanged. */
  lemma {:induction false} SumYearsAddTo(m: map<Year, real>, ys: seq<Year>, y: Year, v: real)
    requires Distinct(ys)
    ensures SumYears(AddTo(m, y, v), ys) == SumYears(m, ys) + (if y in ys then v else 0.0)
  {
    if ys != [] {
      var n := |ys| - 1;
      assert ys == ys[..n] + [ys[n]];
      assert y == ys[n] ==> y !in ys[..n];
      SumYearsAddTo(m, ys[..n], y, v);
    }
  }

  /** The yearly balances add up to the balance: summed over any list of
      distinct years that includes every year a booking falls in, the
      per-year sums give the sum of all bookings. */
  lemma {:induction false} YearlyTotal(bs: seq<Booking>, ys: seq<Year>)
    requires Distinct(ys) && forall b :: b in bs ==> b.year in ys
    ensures SumYears(YearlyOf(bs), ys) == SumDeltas(bs)
  {
    if bs == [] {
      SumYearsEmpty(ys);
    } else {
      var n := |bs| - 1;
      assert forall b :: b in bs[..n] ==> b in bs;
      YearlyTotal(bs[..n], ys);
      assert bs[n] in bs;
      SumYearsAddTo(YearlyOf(bs[..n]), ys, bs[n].year, bs[n].Delta());
      assert YearlyOf(bs) == AddTo(YearlyOf(bs[..n]), bs[n].year, bs[n].Delta());
      assert SumDeltas(bs) == SumDeltas(bs[..n]) + bs[n].Delta();
    }
  }

  // -------------------------------------------------------------- accounts

  /** The key `getAccount` files a number under. */
  function AccountKey(num: string): (r: string)
    ensures r != []
  {
    NormAccText(num)
  }

  lemma AccountKeyIsNormAcc(num: string)
    ensures AccountKey(num) == NormAcc(Str(num))
  {
  }

  /** The account `getAccount` opens for a key it has not seen. */
  function NewAccount(id: string): Account {
    Account(id, "Konto " + id, 0.0, map[], [])
  }

  /** The account with key `id` that holds exactly the bookings `bs`: its
      balance is their sum and its yearly balances their sums per year. */
  function AccountOf(id: string, bs: seq<Booking>): Account {
    Account(id, "Konto " + id, SumDeltas(bs), YearlyOf(bs), bs)
  }

  /** Posting one booking to an account: the balance and the balance of the
      booking's year (0 when the year is new) grow by debit minus credit,
      and the booking is appended. */
  function Credit(a: Account, b: Booking): Account {
    a.(balance := a.balance + b.Delta(),
       yearlyBalances := AddTo(a.yearlyBalances, b.year, b.Delta()),
       bookings := a.bookings + [b])
  }

  /** An account that holds the sums of its bookings has a balance equal
      to the sum of its yearly balances, over any list of distinct years
      covering its entries. */
  lemma AccountYearlyTotal(id: string, bs: seq<Booking>, ys: seq<Year>)
    requires Distinct(ys) && forall y :: y in AccountOf(id, bs).yearlyBalances ==> y in ys
    ensures SumYears(AccountOf(id, bs).yearlyBalances, ys) == AccountOf(id, bs).balance
  {
    YearlyOfSums(bs);
    forall b | b in bs ensures b.year in ys {
      assert b.year in Years(bs);
    }
    YearlyTotal(bs, ys);
  }

  /** A fresh account holds no bookings. */
  lemma NewAccountEmpty(id: string)
    ensures NewAccount(id) == AccountOf(id, [])
  {
  }

  /** Posting keeps an account equal to the sums of its bookings. */
  lemma CreditAccountOf(id: string, bs: seq<Booking>, b: Booking)
    ensures Credit(AccountOf(id, bs), b) == AccountOf(id, bs + [b])
  {
    var cs := bs + [b];
    assert cs[..|cs| - 1] == bs;
  }

  // -------------------------------------------------------------- postings

  /** Whether booking `b` reaches the account with key `k`, as its own
      account or as its contra account. */
  predicate Touches(b: Booking, k: string, key: string -> string) {
    key(b.konto) == k || (HasContra(b) && key(b.gegenkonto) == k)
  }

  /** What booking `b` posts to the account with key `k`: the booking itself
      when `k` is its account, then its mirror when `k` is its contra
      account. */
  function PostingsOf(b: Booking, k: string, key: string -> string): (r: seq<Booking>)
    ensures r != [] <==> Touches(b, k, key)
  {
    (if key(b.konto) == k then [b] else [])
    + (if HasContra(b) && key(b.gegenkonto) == k then [Mirror(b)] else [])
  }

  /** The bookings a journal posts to the account with key `k`, in order. */
  function Postings(journal: seq<Booking>, k: string, key: string -> string): seq<Booking> {
    if journal == [] then []
    else Postings(journal[..|journal| - 1], k, key) + PostingsOf(journal[|journal| - 1], k, key)
  }

  /** An account is opened exactly for the keys some booking reaches. */
  lemma {:induction false} PostingsNonEmpty(journal: seq<Booking>, k: string, key: string -> string)
    ensures Postings(journal, k, key) != [] <==> exists i :: 0 <= i < |journal| && Touches(journal[i], k, key)
  {
    if journal != [] {
      var n := |journal| - 1;
      var init := journal[..n];
      PostingsNonEmpty(init, k, key);
      if Postings(journal, k, key) != [] {
        if Postings(init, k, key) != [] {
          var i :| 0 <= i < |init| && Touches(init[i], k, key);
          assert journal[i] == init[i];
        } else {
          assert Touches(journal[n], k, key);
        }
      } else {
        forall i | 0 <= i < |journal| ensures !Touches(journal[i], k, key) {
          if i < n {
            assert journal[i] == init[i];
          }
        }
      }
    }
  }

  /** What a booking adds to the sum of all balances: its amount, unless a
      contra account takes it back. */
  function NetDelta(b: Booking): real {
    if HasContra(b) then 0.0 else b.Delta()
  }

  function NetDeltas(journal: seq<Booking>): real {
    if journal == [] then 0.0 else NetDeltas(journal[..|journal| - 1]) + NetDelta(journal[|journal| - 1])
  }

  predicate Distinct<T(==)>(keys: seq<T>) {
    forall i, j :: 0 <= i < j < |keys| ==> keys[i] != keys[j]
  }

  /** The sum of the balances of the accounts `keys` names. */
  function SumPostings(keys: seq<string>, journal: seq<Booking>, key: string -> string): real {
    if keys == [] then 0.0
    else SumPostings(keys[..|keys| - 1], journal, key) + SumDeltas(Postings(journal, keys[|keys| - 1], key))
  }

  /** What one booking adds to the accounts `keys` names. */
  function SumPostingsOf(keys: seq<string>, b: Booking, key: string -> string): real {
    if keys == [] then 0.0
    else SumPostingsOf(keys[..|keys| - 1], b, key) + SumDeltas(PostingsOf(b, keys[|keys| - 1], key))
  }

  lemma SumDeltasPostingsOf(b: Booking, k: string, key: string -> string)
    ensures SumDeltas(PostingsOf(b, k, key)) ==
            (if key(b.konto) == k then b.Delta() else 0.0)
            - (if HasContra(b) && key(b.gegenkonto) == k then b.Delta() else 0.0)
  {
    var x := if key(b.konto) == k then [b] else [];
    var y := if HasContra(b) && key(b.gegenkonto) == k then [Mirror(b)] else [];
    SumDeltasAppend(x, y);
    assert SumDeltas([b]) == b.Delta() by { assert [b][..0] == []; }
    assert SumDeltas([Mirror(b)]) == -b.Delta() by { assert [Mirror(b)][..0] == []; }
  }

  /** Over distinct keys, a booking counts once for its account and once,
      negated, for its contra account, as far as those keys are present. */
  lemma {:induction false} SumPostingsOfDistinct(keys: seq<string>, b: Booking, key: string -> string)
    requires Distinct(keys)
    ensures SumPostingsOf(keys, b, key) ==
            (if key(b.konto) in keys then b.Delta() else 0.0)
            - (if HasContra(b) && key(b.gegenkonto) in keys then b.Delta() else 0.0)
  {
    if keys != [] {
      var n := |keys| - 1;
      assert keys == keys[..n] + [keys[n]];
      assert keys[n] !in keys[..n];
      SumPostingsOfDistinct(keys[..n], b, key);
      SumDeltasPostingsOf(b, keys[n], key);
    }
  }

  lemma {:induction false} SumPostingsStep(keys: seq<string>, journal: seq<Booking>, b: Booking, key: string -> string)
    ensures SumPostings(keys, journal + [b], key) == SumPostings(keys, journal, key) + SumPostingsOf(keys, b, key)
  {
    if keys != [] {
      var n := |keys| - 1;
      SumPostingsStep(keys[..n], journal, b, key);
      var j := journal + [b];
      assert j[..|j| - 1] == journal;
      SumDeltasAppend(Postings(journal, keys[n], key), PostingsOf(b, keys[n], key));
    }
  }

  /** Double entry: when the keys name every account the journal reaches,
      each only once, the balances of those accounts add up to the bookings
      without a contra account, because every mirror cancels its booking. */
  lemma {:induction false} BalancesNet(keys: seq<string>, journal: seq<Booking>, key: string -> string)
    requires Distinct(keys)
    requires forall k :: Postings(journal, k, key) != [] ==> k in keys
    ensures SumPostings(keys, journal, key) == NetDeltas(journal)
  {
    if journal == [] {
      SumPostingsEmpty(keys, key);
    } else {
      var n := |journal| - 1;
      var init, b := journal[..n], journal[n];
      assert journal == init + [b];
      forall k | Postings(init, k, key) != []
        ensures k in keys
      {
        PostingsSnocNonEmpty(init, b, k, key);
      }
      BalancesNet(keys, init, key);
      SumPostingsStep(keys, init, b, key);
      SumPostingsOfDistinct(keys, b, key);
      PostingsSnocNonEmpty(init, b, key(b.konto), key);
      PostingsSnocNonEmpty(init, b, key(b.gegenkonto), key);
    }
  }

  /** A key has postings after booking `b` when it had some before or `b`
      reaches it. */
  lemma PostingsSnocNonEmpty(init: seq<Booking>, b: Booking, k: string, key: string -> string)
    ensures Postings(init + [b], k, key) != [] <==> Postings(init, k, key) != [] || Touches(b, k, key)
  {
    assert (init + [b])[..|init|] == init;
  }

  lemma {:induction false} SumPostingsEmpty(keys: seq<string>, key: string -> string)
    ensures SumPostings(keys, [], key) == 0.0
  {
    if keys != [] {
      SumPostingsEmpty(keys[..|keys| - 1], key);
    }
  }

  // --------------------------------------------------------------- sorting

  /** Bookings ordered by date serial, ascending. */
  predicate SortedByDate(bs: seq<Booking>) {
    forall i, j :: 0 <= i < j < |bs| ==> bs[i].rawDate <= bs[j].rawDate
  }

  /** The bookings with date serial `d`, in their order. */
  function OnDate(bs: seq<Booking>, d: int): seq<Booking> {
    if bs == [] then []
    else OnDate(bs[..|bs| - 1], d) + (if bs[|bs| - 1].rawDate == d then [bs[|bs| - 1]] else [])
  }

  /** `x` placed after every booking of `s` not later than it. */
  function Insert(s: seq<Booking>, x: Booking): (r: seq<Booking>)
    ensures multiset(r) == multiset(s) + multiset{x}
  {
    if s == [] || s[|s| - 1].rawDate <= x.rawDate then s + [x]
    else
      assert s == s[..|s| - 1] + [s[|s| - 1]];
      Insert(s[..|s| - 1], x) + [s[|s| - 1]]
  }

  lemma {:induction false} InsertSorted(s: seq<Booking>, x: Booking)
    requires SortedByDate(s)
    ensures SortedByDate(Insert(s, x))
  {
    if s != [] && s[|s| - 1].rawDate > x.rawDate {
      var n := |s| - 1;
      var last := s[n];
      InsertSorted(s[..n], x);
      var r0 := Insert(s[..n], x);
      forall y | y in r0 ensures y.rawDate <= last.rawDate {
        InsertFrom(s[..n], x, y);
        if y != x {
          var i :| 0 <= i < n && s[..n][i] == y;
          assert s[i] == y;
        }
      }
      SnocSorted(r0, last);
    }
  }

  /** What `Insert` returns is the inserted booking or one of `s`. */
  lemma InsertFrom(s: seq<Booking>, x: Booking, y: Booking)
    requires y in Insert(s, x)
    ensures y == x || y in s
  {
    assert y in multiset(Insert(s, x));
  }

  /** A sorted list stays sorted when a booking no earlier than all of it
      is appended. */
  lemma SnocSorted(r0: seq<Booking>, last: Booking)
    requires SortedByDate(r0)
    requires forall y :: y in r0 ==> y.rawDate <= last.rawDate
    ensures SortedByDate(r0 + [last])
  {
    var r := r0 + [last];
    forall i, j | 0 <= i < j < |r| ensures r[i].rawDate <= r[j].rawDate {
      if j < |r0| {
        assert r[i] == r0[i] && r[j] == r0[j];
      } else {
        assert r[i] in r0;
      }
    }
  }

  /** `bookings.sort((a, b) => a.rawDate - b.rawDate)`; the sort is stable. */
  function SortByDate(bs: seq<Booking>): (r: seq<Booking>)
    ensures SortedByDate(r)
    ensures multiset(r) == multiset(bs)
  {
    if bs == [] then []
    else
      assert bs == bs[..|bs| - 1] + [bs[|bs| - 1]];
      InsertSorted(SortByDate(bs[..|bs| - 1]), bs[|bs| - 1]);
      Insert(SortByDate(bs[..|bs| - 1]), bs[|bs| - 1])
  }

  lemma {:induction false} OnDateAppend(a: seq<Booking>, b: seq<Booking>, d: int)
    ensures OnDate(a + b, d) == OnDate(a, d) + OnDate(b, d)
    decreases |b|
  {
    if b == [] {
      assert a + b == a;
    } else {
      OnDateAppend(a, b[..|b| - 1], d);
      assert (a + b)[..|a + b| - 1] == a + b[..|b| - 1];
    }
  }

  lemma OnDateSnoc(a: seq<Booking>, e: Booking, d: int)
    ensures OnDate(a + [e], d) == OnDate(a, d) + (if e.rawDate == d then [e] else [])
  {
    assert (a + [e])[..|a|] == a;
  }

  lemma {:induction false} OnDateInsert(s: seq<Booking>, x: Booking, d: int)
    ensures OnDate(Insert(s, x), d) == OnDate(s, d) + (if x.rawDate == d then [x] else [])
  {
    if s == [] || s[|s| - 1].rawDate <= x.rawDate {
      OnDateSnoc(s, x, d);
    } else {
      var n := |s| - 1;
      var init, last := s[..n], s[n];
      assert s == init + [last];
      OnDateInsert(init, x, d);
      OnDateSnoc(Insert(init, x), last, d);
      OnDateSnoc(init, last, d);
      SwapEmpty(OnDate(init, d), if x.rawDate == d then [x] else [], if last.rawDate == d then [last] else []);
    }
  }

  /** Sorting keeps the order of bookings on the same date. */
  lemma {:induction false} SortByDateStable(bs: seq<Booking>, d: int)
    ensures OnDate(SortByDate(bs), d) == OnDate(bs, d)
  {
    if bs != [] {
      var n := |bs| - 1;
      SortByDateStable(bs[..n], d);
      OnDateInsert(SortByDate(bs[..n]), bs[n], d);
    }
  }

  lemma SumsSnoc(a: seq<Booking>, e: Booking, y: Year)
    ensures SumDeltas(a + [e]) == SumDeltas(a) + e.Delta()
    ensures SumDeltasIn(a + [e], y) == SumDeltasIn(a, y) + (if e.year == y then e.Delta() else 0.0)
  {
    assert (a + [e])[..|a|] == a;
  }

  lemma {:induction false} InsertSums(s: seq<Booking>, x: Booking, y: Year)
    ensures SumDeltas(Insert(s, x)) == SumDeltas(s) + x.Delta()
    ensures SumDeltasIn(Insert(s, x), y) == SumDeltasIn(s, y) + (if x.year == y then x.Delta() else 0.0)
  {
    if s == [] || s[|s| - 1].rawDate <= x.rawDate {
      SumsSnoc(s, x, y);
    } else {
      var n := |s| - 1;
      var init, last := s[..n], s[n];
      assert s == init + [last];
      InsertSums(init, x, y);
      SumsSnoc(Insert(init, x), last, y);
      SumsSnoc(init, last, y);
    }
  }

  /** Sorting changes neither the balance nor any yearly balance. */
  lemma {:induction false} SortByDateSums(bs: seq<Booking>, y: Year)
    ensures SumDeltas(SortByDate(bs)) == SumDeltas(bs)
    ensures SumDeltasIn(SortByDate(bs), y) == SumDeltasIn(bs, y)
  {
    if bs != [] {
      var n := |bs| - 1;
      SortByDateSums(bs[..n], y);
      InsertSums(SortByDate(bs[..n]), bs[n], y);
    }
  }

  lemma YearsOfPermutation(a: seq<Booking>, b: seq<Booking>)
    requires multiset(a) == multiset(b)
    ensures Years(a) == Years(b)
  {
    forall y | y in Years(a) ensures y in Years(b) {
      var x :| x in a && x.year == y;
      assert x in multiset(b);
    }
    forall y | y in Years(b) ensures y in Years(a) {
      var x :| x in b && x.year == y;
      assert x in multiset(a);
    }
  }

  /** An account whose bookings are sorted has the balances it had before. */
  lemma SortedAccount(id: string, bs: seq<Booking>)
    ensures AccountOf(id, SortByDate(bs)) == AccountOf(id, bs).(bookings := SortByDate(bs))
  {
    var s := SortByDate(bs);
    SortByDateSums(bs, None);
    YearsOfPermutation(s, bs);
    YearlyOfSums(s);
    YearlyOfSums(bs);
    forall y | y in Years(bs) ensures YearlyOf(s)[y] == YearlyOf(bs)[y] {
      SortByDateSums(bs, y);
    }
    assert YearlyOf(s) == YearlyOf(bs);
  }

  // ------------------------------------------------------------------ rows

  /** What a row outcome adds to the journal: its booking, or nothing. */
  function Outcome(r: Option<Booking>): seq<Booking> {
    if r.Some? then [r.value] else []
  }

  /** What the `idx`-th row adds to the journal. */
  function RowBookings(row: Row, idx: nat, idPrefix: string, calendar: int -> CivilDate): seq<Booking> {
    Outcome(ReadRow(row, idx, idPrefix, calendar))
  }

  /** What each row reads as, rows counted from 1, skipped rows included. */
  function RowReads(rows: seq<Row>, idPrefix: string, calendar: int -> CivilDate): (r: seq<Option<Booking>>)
    ensures |r| == |rows|
  {
    seq(|rows|, i requires 0 <= i < |rows| => ReadRow(rows[i], i + 1, idPrefix, calendar))
  }

  /** The bookings of a list of row outcomes (a booking or nothing), in row order. */
  function Entries(outcomes: seq<Option<Booking>>): seq<Booking> {
    if outcomes == [] then []
    else
      var n := |outcomes|;
      Entries(outcomes[..n - 1]) + (if outcomes[n - 1].Some? then [outcomes[n - 1].value] else [])
  }

  /** The row numbers (counting from 1) of the outcomes that are bookings. */
  function EntryIndices(outcomes: seq<Option<Booking>>): seq<nat> {
    if outcomes == [] then []
    else
      var n := |outcomes|;
      EntryIndices(outcomes[..n - 1]) + (if outcomes[n - 1].Some? then [n] else [])
  }

  /** The journal the rows produce. */
  function JournalOf(rows: seq<Row>, idPrefix: string, calendar: int -> CivilDate): seq<Booking> {
    Entries(RowReads(rows, idPrefix, calendar))
  }

  /** The row numbers of the rows that produced journal entries, in journal
      order. */
  function EntryRows(rows: seq<Row>, idPrefix: string, calendar: int -> CivilDate): seq<nat> {
    EntryIndices(RowReads(rows, idPrefix, calendar))
  }

  /** Reading one more row appends what it reads as. */
  lemma JournalOfSnoc(rows: seq<Row>, i: nat, idPrefix: string, calendar: int -> CivilDate)
    requires i < |rows|
    ensures JournalOf(rows[..i + 1], idPrefix, calendar)
            == JournalOf(rows[..i], idPrefix, calendar) + RowBookings(rows[i], i + 1, idPrefix, calendar)
  {
    var r1 := RowReads(rows[..i + 1], idPrefix, calendar);
    assert r1[..i] == RowReads(rows[..i], idPrefix, calendar);
    assert r1[i] == ReadRow(rows[i], i + 1, idPrefix, calendar);
  }

  /** The ids of a list of bookings. */
  function Ids(j: seq<Booking>): (r: seq<string>)
    ensures |r| == |j| && forall i :: 0 <= i < |j| ==> r[i] == j[i].id
  {
    if j == [] then [] else Ids(j[..|j| - 1]) + [j[|j| - 1].id]
  }

  /** The booking ids of the given row numbers. */
  function RowIds(idPrefix: string, e: seq<nat>): (r: seq<string>)
    ensures |r| == |e|
  {
    if e == [] then [] else RowIds(idPrefix, e[..|e| - 1]) + [RowId(idPrefix, e[|e| - 1])]
  }

  /** Every booking read from row `i + 1` carries that row's id. */
  predicate IdsByRow(outcomes: seq<Option<Booking>>, idPrefix: string) {
    forall i :: 0 <= i < |outcomes| && outcomes[i].Some? ==> outcomes[i].value.id == RowId(idPrefix, i + 1)
  }

  /** A row's booking carries the id of the row's number. */
  lemma RowReadsIds(rows: seq<Row>, idPrefix: string, calendar: int -> CivilDate)
    ensures IdsByRow(RowReads(rows, idPrefix, calendar), idPrefix)
  {
  }

  lemma IdsAppend(a: seq<Booking>, b: seq<Booking>)
    ensures Ids(a + b) == Ids(a) + Ids(b)
  {
  }

  lemma RowIdsAppend(idPrefix: string, e: seq<nat>, f: seq<nat>)
    ensures RowIds(idPrefix, e + f) == RowIds(idPrefix, e) + RowIds(idPrefix, f)
    decreases |f|
  {
    if f != [] {
      RowIdsAppend(idPrefix, e, f[..|f| - 1]);
      assert (e + f)[..|e + f| - 1] == e + f[..|f| - 1];
    } else {
      assert e + f == e;
    }
  }

  /** The ids of the bookings among the outcomes are the ids of their rows. */
  lemma {:induction false} EntriesIds(outcomes: seq<Option<Booking>>, idPrefix: string)
    requires IdsByRow(outcomes, idPrefix)
    ensures Ids(Entries(outcomes)) == RowIds(idPrefix, EntryIndices(outcomes))
  {
    if outcomes != [] {
      var n := |outcomes|;
      var init := outcomes[..n - 1];
      assert IdsByRow(init, idPrefix) by {
        assert forall i :: 0 <= i < n - 1 ==> init[i] == outcomes[i];
      }
      EntriesIds(init, idPrefix);
      var added := if outcomes[n - 1].Some? then [outcomes[n - 1].value] else [];
      var e := if outcomes[n - 1].Some? then [n] else [];
      IdsAppend(Entries(init), added);
      RowIdsAppend(idPrefix, EntryIndices(init), e);
      if outcomes[n - 1].Some? {
        assert Ids(added) == [RowId(idPrefix, n)];
        assert RowIds(idPrefix, [n]) == [RowId(idPrefix, n)] by {
          assert [n][..0] == [];
        }
      }
    }
  }

  /** The journal's ids are the booking ids of the rows that produced
      entries; rows are counted from 1 with skipped rows included. */
  lemma JournalIds(rows: seq<Row>, idPrefix: string, calendar: int -> CivilDate)
    ensures Ids(JournalOf(rows, idPrefix, calendar)) == RowIds(idPrefix, EntryRows(rows, idPrefix, calendar))
  {
    RowReadsIds(rows, idPrefix, calendar);
    EntriesIds(RowReads(rows, idPrefix, calendar), idPrefix);
  }

  /** Row numbers between 1 and `n`, increasing. */
  predicate IncreasingWithin(e: seq<nat>, n: nat) {
    && (forall i :: 0 <= i < |e| ==> 1 <= e[i] <= n)
    && (forall i, i' :: 0 <= i < i' < |e| ==> e[i] < e[i'])
  }

  lemma IncreasingSnoc(e: seq<nat>, n: nat, x: seq<nat>)
    requires IncreasingWithin(e, n)
    requires x == [] || x == [n + 1]
    ensures IncreasingWithin(e + x, n + 1)
  {
  }

  /** The row numbers of the bookings among the outcomes lie between 1 and
      the number of outcomes and increase. */
  lemma {:induction false} EntryIndicesIncrease(outcomes: seq<Option<Booking>>)
    ensures IncreasingWithin(EntryIndices(outcomes), |outcomes|)
  {
    if outcomes != [] {
      var n := |outcomes|;
      EntryIndicesIncrease(outcomes[..n - 1]);
      IncreasingSnoc(EntryIndices(outcomes[..n - 1]), n - 1, if outcomes[n - 1].Some? then [n] else []);
    }
  }

  /** The row numbers of the entries lie between 1 and the number of rows
      and increase. */
  lemma EntryRowsIncrease(rows: seq<Row>, idPrefix: string, calendar: int -> CivilDate)
    ensures IncreasingWithin(EntryRows(rows, idPrefix, calendar), |rows|)
  {
    EntryIndicesIncrease(RowReads(rows, idPrefix, calendar));
  }

  /** The booking ids of increasing row numbers are distinct. */
  lemma {:induction false} RowIdsDistinct(idPrefix: string, e: seq<nat>)
    requires forall i, i' :: 0 <= i < i' < |e| ==> e[i] < e[i']
    ensures var r := RowIds(idPrefix, e); forall i, i' :: 0 <= i < i' < |r| ==> r[i] != r[i']
  {
    if e != [] {
      var e0 := e[..|e| - 1];
      RowIdsDistinct(idPrefix, e0);
      RowIdsAt(idPrefix, e);
      var r := RowIds(idPrefix, e);
      forall i, i' | 0 <= i < i' < |r|
        ensures r[i] != r[i']
      {
        RowIdInjective(idPrefix, e[i], e[i']);
      }
    }
  }

  /** Entry `i` of `RowIds` is the id of row `e[i]`. */
  lemma {:induction false} RowIdsAt(idPrefix: string, e: seq<nat>)
    ensures forall i :: 0 <= i < |e| ==> RowIds(idPrefix, e)[i] == RowId(idPrefix, e[i])
  {
    if e != [] {
      var n := |e| - 1;
      var r0 := RowIds(idPrefix, e[..n]);
      RowIdsAt(idPrefix, e[..n]);
      assert RowIds(idPrefix, e) == r0 + [RowId(idPrefix, e[n])];
      forall i | 0 <= i < n ensures RowIds(idPrefix, e)[i] == RowId(idPrefix, e[i]) {
        assert RowIds(idPrefix, e)[i] == r0[i];
        assert e[..n][i] == e[i];
      }
    }
  }

  /** No two journal entries share an id. */
  lemma JournalIdsDistinct(rows: seq<Row>, idPrefix: string, calendar: int -> CivilDate)
    ensures var j := JournalOf(rows, idPrefix, calendar);
      forall i, i' :: 0 <= i < i' < |j| ==> j[i].id != j[i'].id
  {
    var j := JournalOf(rows, idPrefix, calendar);
    JournalIds(rows, idPrefix, calendar);
    EntryRowsIncrease(rows, idPrefix, calendar);
    RowIdsDistinct(idPrefix, EntryRows(rows, idPrefix, calendar));
    assert forall i :: 0 <= i < |j| ==> j[i].id == Ids(j)[i];
  }

  /** The accounts of `keys`, in that order. */
  function AccountsIn(keys: seq<string>, accounts: map<string, Account>): (r: seq<Account>)
    requires forall k :: k in keys ==> k in accounts
    ensures |r| == |keys| && forall i :: 0 <= i < |keys| ==> r[i] == accounts[keys[i]]
  {
    if keys == [] then [] else AccountsIn(keys[..|keys| - 1], accounts) + [accounts[keys[|keys| - 1]]]
  }

  lemma {:induction false} SumOfAccounts(keys: seq<string>, accounts: map<string, Account>, journal: seq<Booking>, key: string -> string)
    requires forall k :: k in keys ==> k in accounts && accounts[k].balance == SumDeltas(Postings(journal, k, key))
    ensures SumBalances(AccountsIn(keys, accounts)) == SumPostings(keys, journal, key)
  {
    if keys != [] {
      var n := |keys| - 1;
      SumOfAccounts(keys[..n], accounts, journal, key);
      var r := AccountsIn(keys, accounts);
      assert r[..|r| - 1] == AccountsIn(keys[..n], accounts);
    }
  }

  // ------------------------------------------------------- posting steps

  /** The accounts with `id` opened if it was missing. */
  function Open(a: map<string, Account>, id: string): map<string, Account> {
    if id in a then a else a[id := NewAccount(id)]
  }

  /** The accounts after posting `x` to the account `id`, opened if need be. */
  function PostTo(a: map<string, Account>, id: string, x: Booking): map<string, Account> {
    var o := Open(a, id);
    o[id := Credit(o[id], x)]
  }

  /** The accounts after recording booking `b`: posted to its account, and
      its mirror posted to its contra account when it has one. */
  function PostBooking(a: map<string, Account>, b: Booking, key: string -> string): map<string, Account> {
    var a1 := PostTo(a, key(b.konto), b);
    if HasContra(b) then PostTo(a1, key(b.gegenkonto), Mirror(b)) else a1
  }

  /** The accounts the journal builds, booking by booking. */
  function BookOf(journal: seq<Booking>, key: string -> string): map<string, Account> {
    if journal == [] then map[]
    else PostBooking(BookOf(journal[..|journal| - 1], key), journal[|journal| - 1], key)
  }

  /** Account `k` after posting `x` to account `id`. */
  lemma PostToAt(a: map<string, Account>, id: string, x: Booking, k: string)
    ensures k in PostTo(a, id, x) <==> k in a || k == id
    ensures k in PostTo(a, id, x) ==>
              PostTo(a, id, x)[k] == if k == id then Credit(if id in a then a[id] else NewAccount(id), x) else a[k]
  {
  }

  lemma PostingsSnoc(journal: seq<Booking>, b: Booking, k: string, key: string -> string)
    ensures Postings(journal + [b], k, key) == Postings(journal, k, key) + PostingsOf(b, k, key)
  {
    assert (journal + [b])[..|journal|] == journal;
  }

  /** If account `k` of `a` holds exactly `held` (and `a` has no account
      `k` when `held` is empty), posting `x` to `id` leaves it holding
      `held` plus `x` when `k` is `id`. */
  lemma PostToHolds(a: map<string, Account>, id: string, x: Booking, k: string, held: seq<Booking>)
    requires k in a <==> held != []
    requires k in a ==> a[k] == AccountOf(k, held)
    ensures var after := held + (if k == id then [x] else []);
            (k in PostTo(a, id, x) <==> after != [])
            && (k in PostTo(a, id, x) ==> PostTo(a, id, x)[k] == AccountOf(k, after))
  {
    PostToAt(a, id, x, k);
    if k == id {
      NewAccountEmpty(id);
      CreditAccountOf(id, held, x);
    } else {
      assert held + [] == held;
    }
  }

  /** Account `k` of the book a journal builds holds exactly what the
      journal posts to `k`, and exists exactly when that is not nothing. */
  lemma {:induction false} BookOfAt(journal: seq<Booking>, k: string, key: string -> string)
    ensures k in BookOf(journal, key) <==> Postings(journal, k, key) != []
    ensures k in BookOf(journal, key) ==> BookOf(journal, key)[k] == AccountOf(k, Postings(journal, k, key))
  {
    if journal != [] {
      var n := |journal| - 1;
      var init, b := journal[..n], journal[n];
      assert journal == init + [b];
      BookOfAt(init, k, key);
      PostingsSnoc(init, b, k, key);
      PostBookingHolds(BookOf(init, key), b, k, key, Postings(init, k, key));
    }
  }

  /** Recording one booking extends what account `k` holds by what the
      booking posts to `k`. */
  lemma PostBookingHolds(a0: map<string, Account>, b: Booking, k: string, key: string -> string, h0: seq<Booking>)
    requires k in a0 <==> h0 != []
    requires k in a0 ==> a0[k] == AccountOf(k, h0)
    ensures var a, h := PostBooking(a0, b, key), h0 + PostingsOf(b, k, key);
            (k in a <==> h != []) && (k in a ==> a[k] == AccountOf(k, h))
  {
    var k1 := key(b.konto);
    var a1 := PostTo(a0, k1, b);
    PostToHolds(a0, k1, b, k, h0);
    var h1 := h0 + (if k == k1 then [b] else []);
    PostingsAfter(h0, b, k, key);
    if HasContra(b) {
      PostToHolds(a1, key(b.gegenkonto), Mirror(b), k, h1);
    }
  }

  /** The postings of `b` to `k` after `h0`: its own posting first, then
      the mirror's. */
  lemma PostingsAfter(h0: seq<Booking>, b: Booking, k: string, key: string -> string)
    ensures var h1 := h0 + (if k == key(b.konto) then [b] else []);
      h0 + PostingsOf(b, k, key) ==
        if HasContra(b) then h1 + (if k == key(b.gegenkonto) then [Mirror(b)] else []) else h1
  {
    var h1 := h0 + (if k == key(b.konto) then [b] else []);
    if !HasContra(b) {
      assert h1 + [] == h1;
    }
  }

  /** The same for every key at once. */
  lemma BookOfPostings(journal: seq<Booking>, key: string -> string)
    ensures forall k :: k in BookOf(journal, key) <==> Postings(journal, k, key) != []
    ensures forall k :: k in BookOf(journal, key) ==> BookOf(journal, key)[k] == AccountOf(k, Postings(journal, k, key))
  {
    forall k ensures k in BookOf(journal, key) <==> Postings(journal, k, key) != [] {
      BookOfAt(journal, k, key);
    }
    forall k | k in BookOf(journal, key)
      ensures BookOf(journal, key)[k] == AccountOf(k, Postings(journal, k, key))
    {
      BookOfAt(journal, k, key);
    }
  }

  /** Every account with its bookings sorted by date. */
  function SortedBook(a: map<string, Account>): map<string, Account> {
    map k | k in a :: a[k].(bookings := SortByDate(a[k].bookings))
  }

  /** The accounts `a` with those named in `done` sorted by date. */
  function SortedPrefix(a: map<string, Account>, done: seq<string>): (r: map<string, Account>)
    ensures r.Keys == a.Keys
  {
    if done == [] then a
    else
      var m, k := SortedPrefix(a, done[..|done| - 1]), done[|done| - 1];
      if k in a then m[k := a[k].(bookings := SortByDate(a[k].bookings))] else m
  }

  lemma {:induction false} SortedPrefixAt(a: map<string, Account>, done: seq<string>, k: string)
    requires k in a
    ensures SortedPrefix(a, done)[k] == if k in done then a[k].(bookings := SortByDate(a[k].bookings)) else a[k]
  {
    if done != [] {
      var n := |done| - 1;
      assert done == done[..n] + [done[n]];
      SortedPrefixAt(a, done[..n], k);
    }
  }

  /** Sorting the next account of a list of distinct keys extends the
      sorted prefix by that key. */
  lemma SortedPrefixStep(a: map<string, Account>, ks: seq<string>, i: nat)
    requires Distinct(ks) && i < |ks| && ks[i] in a
    ensures var m, k := SortedPrefix(a, ks[..i]), ks[i];
            m[k := m[k].(bookings := SortByDate(m[k].bookings))] == SortedPrefix(a, ks[..i + 1])
  {
    var k := ks[i];
    assert ks[..i + 1][..i] == ks[..i];
    assert k !in ks[..i];
    SortedPrefixAt(a, ks[..i], k);
  }

  /** Sorting the accounts one key after another, over keys that name
      every account, sorts them all. */
  lemma SortedPrefixAll(a: map<string, Account>, keys: seq<string>)
    requires forall k :: k in a ==> k in keys
    ensures SortedPrefix(a, keys) == SortedBook(a)
  {
    forall k | k in a ensures SortedPrefix(a, keys)[k] == SortedBook(a)[k] {
      SortedPrefixAt(a, keys, k);
    }
  }

  /** Sorts the bookings of the accounts `ks` names, one account after the
      other. */
  method SortAll(before: map<string, Account>, ks: seq<string>) returns (sorted: map<string, Account>)
    requires Distinct(ks) && forall k :: k in before <==> k in ks
    ensures sorted == SortedBook(before)
  {
    sorted := before;
    var i := 0;
    while i < |ks|
      invariant 0 <= i <= |ks|
      invariant sorted == SortedPrefix(before, ks[..i])
    {
      var k := ks[i];
      SortedPrefixStep(before, ks, i);
      sorted := sorted[k := sorted[k].(bookings := SortByDate(sorted[k].bookings))];
      i := i + 1;
    }
    assert ks[..|ks|] == ks;
    SortedPrefixAll(before, ks);
  }

  /** After sorting, account `k` holds what the journal posts to it, in
      date order, with the balances it had before. */
  lemma SortedBookAt(journal: seq<Booking>, k: string, key: string -> string)
    ensures k in SortedBook(BookOf(journal, key)) <==> Postings(journal, k, key) != []
    ensures k in SortedBook(BookOf(journal, key)) ==>
              SortedBook(BookOf(journal, key))[k] == AccountOf(k, SortByDate(Postings(journal, k, key)))
  {
    BookOfAt(journal, k, key);
    SortedAccount(k, Postings(journal, k, key));
  }

  /** Sorting changes no balance, so the sum of all balances stays the sum
      of the bookings without a contra account. */
  lemma SortedBookTotal(keys: seq<string>, journal: seq<Booking>, key: string -> string)
    requires Distinct(keys) && forall k :: k in BookOf(journal, key) <==> k in keys
    ensures SumBalances(AccountsIn(keys, SortedBook(BookOf(journal, key)))) == NetDeltas(journal)
  {
    var sb := SortedBook(BookOf(journal, key));
    forall k | k in keys
      ensures k in sb && sb[k].balance == SumDeltas(Postings(journal, k, key))
    {
      SortedBookAt(journal, k, key);
      BookOfAt(journal, k, key);
    }
    SumOfAccounts(keys, sb, journal, key);
    forall k | Postings(journal, k, key) != [] ensures k in keys {
      BookOfAt(journal, k, key);
    }
    BalancesNet(keys, journal, key);
  }

  // ------------------------------------------------------------ the book

  /** The state of the import: the rows read so far, the journal of
      admitted bookings, and the accounts by key together with the order in
      which they were opened. */
  class AccountBook {
    const idPrefix: string
    /** How an account number becomes an account key. */
    const key: string -> string
    var rowIdx: nat
    var journal: seq<Booking>
    var accounts: map<string, Account>
    var keys: seq<string>

    /** Every account is listed once in `keys`. */
    ghost predicate KeysOk()
      reads this
    {
      Distinct(keys) && forall k :: k in accounts <==> k in keys
    }

    /** Every account holds exactly what the journal posts to it, and every
        key the journal reaches has an account. */
    ghost predicate Valid()
      reads this
    {
      KeysOk() && accounts == BookOf(journal, key)
    }

    constructor(idPrefix: string)
      ensures this.idPrefix == idPrefix && key == AccountKey
      ensures rowIdx == 0 && journal == [] && accounts == map[] && keys == []
      ensures Valid()
    {
      this.idPrefix := idPrefix;
      key := AccountKey;
      rowIdx := 0;
      journal := [];
      accounts := map[];
      keys := [];
    }

    /** `getAccount(num)`: the key of the number, opening an empty account
        under it the first time. */
    method GetAccount(num: string) returns (id: string)
      requires KeysOk()
      modifies this
      ensures id == key(num)
      ensures accounts == Open(old(accounts), id)
      ensures keys == if id in old(accounts) then old(keys) else old(keys) + [id]
      ensures journal == old(journal) && rowIdx == old(rowIdx)
      ensures KeysOk()
    {
      id := key(num);
      if id !in accounts {
        accounts := accounts[id := NewAccount(id)];
        keys := keys + [id];
      }
    }

    /** Records a booking: appends it to the journal, posts it to its
        account and, when it has a contra account, posts its mirror there. */
    method Post(b: Booking)
      requires Valid()
      modifies this
      ensures journal == old(journal) + [b] && rowIdx == old(rowIdx)
      ensures accounts == PostBooking(old(accounts), b, key)
      ensures accounts == BookOf(journal, key)
      ensures |old(keys)| <= |keys| && keys[..|old(keys)|] == old(keys)
      ensures Valid()
    {
      CreditTo(b.konto, b);
      if HasContra(b) {
        CreditTo(b.gegenkonto, Mirror(b));
      }
      journal := journal + [b];
      assert journal[..|journal| - 1] == old(journal);
    }

    /** `getAccount(num)` followed by posting `x` to that account. */
    method CreditTo(num: string, x: Booking)
      requires KeysOk()
      modifies this
      ensures accounts == PostTo(old(accounts), key(num), x)
      ensures |old(keys)| <= |keys| && keys[..|old(keys)|] == old(keys)
      ensures journal == old(journal) && rowIdx == old(rowIdx)
      ensures KeysOk()
    {
      var id := GetAccount(num);
      accounts := accounts[id := Credit(accounts[id], x)];
    }

    /** The body of the row loop: counts the row and records its booking
        unless the row is skipped. */
    method AddRow(row: Row, calendar: int -> CivilDate)
      requires Valid()
      modifies this
      ensures rowIdx == old(rowIdx) + 1
      ensures journal == old(journal) + RowBookings(row, old(rowIdx) + 1, idPrefix, calendar)
      ensures Valid()
    {
      var r := ReadRow(row, rowIdx + 1, idPrefix, calendar);
      assert Outcome(r) == RowBookings(row, rowIdx + 1, idPrefix, calendar);
      Record(r);
    }

    /** Counts a row and posts what it read as, if it is a booking. */
    method Record(r: Option<Booking>)
      requires Valid()
      modifies this
      ensures journal == old(journal) + Outcome(r)
      ensures rowIdx == old(rowIdx) + 1 && Valid()
    {
      rowIdx := rowIdx + 1;
      if r.Some? {
        Post(r.value);
      } else {
        assert journal == old(journal) + [];
      }
    }

    /** The accounts in the order they were opened. */
    function Accounts(): (r: seq<Account>)
      requires KeysOk()
      reads this
      ensures |r| == |keys|
    {
      AccountsIn(keys, accounts)
    }

    /** The sum of all balances is the sum of the bookings that have no
        contra account. */
    lemma TotalBalance()
      requires Valid()
      ensures SumBalances(Accounts()) == NetDeltas(journal)
    {
      BookOfPostings(journal, key);
      SumOfAccounts(keys, accounts, journal, key);
      BalancesNet(keys, journal, key);
    }

    /** Every account's balance is the sum of its yearly balances, the
        invariant the year filter of the account view relies on. */
    lemma BalanceIsYearlySum(k: string, ys: seq<Year>)
      requires Valid() && k in accounts
      requires Distinct(ys) && forall y :: y in accounts[k].yearlyBalances ==> y in ys
      ensures SumYears(accounts[k].yearlyBalances, ys) == accounts[k].balance
    {
      BookOfAt(journal, k, key);
      AccountYearlyTotal(k, Postings(journal, k, key), ys);
    }

    /** Orders the bookings of every account by date; nothing else changes. */
    method SortBookings()
      requires KeysOk()
      modifies this
      ensures journal == old(journal) && keys == old(keys) && rowIdx == old(rowIdx)
      ensures accounts == SortedBook(old(accounts))
      ensures KeysOk()
    {
      accounts := SortAll(accounts, keys);
    }
  }

  // ------------------------------------------------------------- the loop

  /** The rows of a sheet read into the journal and the accounts: the
      journal is the admitted rows' bookings in row order, an account exists
      for every key a booking reaches and holds what the journal posts to
      it, sorted by date, and all balances add up to the bookings without a
      contra account. */
  method ParseRows(rows: seq<Row>, idPrefix: string, calendar: int -> CivilDate)
    returns (journal: seq<Booking>, accounts: map<string, Account>, keys: seq<string>)
    ensures journal == JournalOf(rows, idPrefix, calendar)
    ensures accounts == SortedBook(BookOf(journal, AccountKey))
    ensures Distinct(keys) && forall k :: k in accounts <==> k in keys
    ensures SumBalances(AccountsIn(keys, accounts)) == NetDeltas(journal)
  {
    var book := new AccountBook(idPrefix);
    var i := 0;
    while i < |rows|
      invariant 0 <= i <= |rows|
      invariant book.Valid() && book.idPrefix == idPrefix && book.key == AccountKey && book.rowIdx == i
      invariant book.journal == JournalOf(rows[..i], idPrefix, calendar)
    {
      JournalOfSnoc(rows, i, idPrefix, calendar);
      book.AddRow(rows[i], calendar);
      i := i + 1;
    }
    assert rows[..|rows|] == rows;
    book.SortBookings();
    journal, accounts, keys := book.journal, book.accounts, book.keys;
    SortedBookTotal(keys, journal, AccountKey);
  }
}
