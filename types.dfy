/** The records the ledger import produces and the report consumes: a
    booking (one journal line), an account with its running balance, and
    the items of the generated statement. */
module Types {
  import opened Wrappers

  /** The year a booking belongs to; `None` stands for JavaScript's `NaN`,
      which a dotted date with an unreadable year produces. */
  type Year = Option<int>

  /** One journal line. `soll` is the debit and `haben` the credit amount;
      `rawDate` is the spreadsheet serial date used for sorting, 0 when the
      date was given as text. */
  datatype Booking = Booking(
    id: string,
    date: string,
    rawDate: int,
    year: Year,
    text: string,
    beleg1: string,
    beleg2: string,
    konto: string,
    gegenkonto: string,
    soll: real,
    haben: real)
  {
    /** What the booking adds to its account's balance: debit minus credit. */
    function Delta(): real {
      soll - haben
    }
  }

  /** An account: its number, its display name, its balance (positive when
      debit-heavy), the balance per booking year, and its bookings. */
  datatype Account = Account(
    accountNumber: string,
    accountName: string,
    balance: real,
    yearlyBalances: map<Year, real>,
    bookings: seq<Booking>)

  /** The sum of the balances of a list of accounts. */
  function SumBalances(accs: seq<Account>): real {
    if accs == [] then 0.0 else SumBalances(accs[..|accs| - 1]) + accs[|accs| - 1].balance
  }

  lemma {:induction false} SumBalancesAppend(a: seq<Account>, b: seq<Account>)
    ensures SumBalances(a + b) == SumBalances(a) + SumBalances(b)
    decreases |b|
  {
    if b == [] {
      assert a + b == a;
    } else {
      SumBalancesAppend(a, b[..|b| - 1]);
      assert (a + b)[..|a + b| - 1] == a + b[..|b| - 1];
    }
  }

  /** A position of the generated statement: id, caption, amount, depth
      marker (0 for the roots, 1 below), sub-positions and the accounts
      booked directly on it. `yearlyAmounts` is the per-year amount a reader
      may look up; the report generator never fills it in. */
  datatype ReportItem = ReportItem(
    id: string,
    title: string,
    amount: real,
    level: nat,
    children: seq<ReportItem>,
    accounts: seq<Account>,
    yearlyAmounts: Option<map<int, real>>)

  /** The outcome of the balance check: Aktiva minus Passiva, and whether
      the two sides agree within the tolerance. */
  datatype BalanceCheck = BalanceCheck(diff: real, balanced: bool)

  /** Everything the report generator returns. */
  datatype FinancialData = FinancialData(
    guv: ReportItem,
    aktiva: ReportItem,
    passiva: ReportItem,
    check: BalanceCheck,
    unassigned: seq<Account>,
    accounts: map<string, Account>,
    journal: seq<Booking>,
    profit: real)
}
