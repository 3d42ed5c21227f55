/** The statement generator of the SKR04 service: it applies the name
    overrides, routes every account to a position (or to the unassigned
    list), computes the profit, links the positions into the three trees,
    recomputes the totals and checks that Aktiva and Passiva agree. */
module Report {
  import opened Wrappers
  import JsNumber
  import JsText
  import opened Types
  import opened Skr04
  import opened ReportTree

  /** Accounts whose balance is below this in absolute value are ignored. */
  const NearZero: real := 0.01
  /** Aktiva and Passiva count as balanced when they differ by less. */
  const Tolerance: real := 0.05
  /** The position of `ek_ergebnis`, which receives the profit. */
  const Ergebnis: nat := 14

  // ------------------------------------------------------------ name overrides

  /** The mapping gives account `acc` a display name: an entry whose name is
      present and not empty. */
  predicate HasName(acc: string, mapping: Mapping) {
    acc in mapping && mapping[acc].name.Some? && mapping[acc].name.value != ""
  }

  /** The accounts after the name overrides: every account the mapping names
      takes that name, everything else stays as it was. */
  function Renamed(accounts: map<string, Account>, mapping: Mapping): (r: map<string, Account>)
    ensures r.Keys == accounts.Keys
    ensures forall a :: a in accounts && HasName(a, mapping) ==>
      r[a] == accounts[a].(accountName := mapping[a].name.value)
    ensures forall a :: a in accounts && !HasName(a, mapping) ==> r[a] == accounts[a]
  {
    map a | a in accounts :: if HasName(a, mapping) then accounts[a].(accountName := mapping[a].name.value) else accounts[a]
  }

  /** Applying the overrides twice changes nothing more. */
  lemma RenamedIdempotent(accounts: map<string, Account>, mapping: Mapping)
    ensures Renamed(Renamed(accounts, mapping), mapping) == Renamed(accounts, mapping)
  {
  }

  /** The override loop: visits the keys of the mapping one by one and
      renames the account with that number, if there is one. */
  method ApplyNameOverrides(accounts: map<string, Account>, mapping: Mapping)
    returns (r: map<string, Account>)
    ensures r == Renamed(accounts, mapping)
  {
    r := accounts;
    var todo := mapping.Keys;
    while todo != {}
      invariant todo <= mapping.Keys
      invariant r.Keys == accounts.Keys
      invariant forall a :: a in accounts && a !in todo ==> r[a] == Renamed(accounts, mapping)[a]
      invariant forall a :: a in accounts && a in todo ==> r[a] == accounts[a]
      decreases todo
    {
      var key :| key in todo;
      var entry := mapping[key];
      if key in r && entry.name.Some? && entry.name.value != "" {
        r := r[key := r[key].(accountName := entry.name.value)];
      }
      todo := todo - {key};
    }
    assert forall a :: a in accounts ==> a !in todo;
  }

  // ------------------------------------------------------------ routing

  /** What happens to one account: ignored as near zero, listed as
      unassigned, or attached to the position with the given index. */
  datatype Route = Skip | Unassigned | Attach(k: nat)

  /** The route of an account, decided as the generator decides it: near-zero
      balances first, then the classifier, then the lookup of the position. */
  function RouteOf(acc: Account, mapping: Mapping): (r: Route)
    ensures r.Attach? ==> r.k < N
  {
    if JsNumber.Abs(acc.balance) < NearZero then Skip
    else match Classify(acc.accountNumber, mapping)
      case None => Unassigned
      case Some(id) =>
        if id == "" then Unassigned
        else match DefIndex(id)
          case None => Unassigned
          case Some(k) => TableSize(); Attach(k)
  }

  /** An account is skipped exactly when its balance is near zero. */
  lemma RouteSkipSound(acc: Account, mapping: Mapping)
    ensures RouteOf(acc, mapping) == Skip <==> JsNumber.Abs(acc.balance) < NearZero
  {
  }

  /** An account is attached to position `k` exactly when its balance is not
      near zero and the classifier names the id of `k`. */
  lemma RouteAttachSound(acc: Account, mapping: Mapping, k: nat)
    requires k < N
    ensures RouteOf(acc, mapping) == Attach(k) <==>
      JsNumber.Abs(acc.balance) >= NearZero && Classify(acc.accountNumber, mapping) == Some(StructureDefs[k].id)
  {
    TableSize();
    var c := Classify(acc.accountNumber, mapping);
    if JsNumber.Abs(acc.balance) >= NearZero && c == Some(StructureDefs[k].id) {
      DefIndexOf(k);
      IdNonEmpty(k);
    }
  }

  /** An account goes to the unassigned list exactly when its balance is not
      near zero and the classifier gives nothing, the empty id, or an id that
      names no position. */
  lemma UnassignedSound(acc: Account, mapping: Mapping)
    ensures RouteOf(acc, mapping) == Unassigned <==>
      JsNumber.Abs(acc.balance) >= NearZero &&
      (Classify(acc.accountNumber, mapping).None? ||
       Classify(acc.accountNumber, mapping).value == "" ||
       forall j :: 0 <= j < |StructureDefs| ==> StructureDefs[j].id != Classify(acc.accountNumber, mapping).value)
  {
    var c := Classify(acc.accountNumber, mapping);
    if JsNumber.Abs(acc.balance) >= NearZero && c.Some? && c.value != "" && DefIndex(c.value).Some? {
      var k := DefIndex(c.value).value;
      assert StructureDefs[k].id == c.value;
    }
  }

  /** Without an override the default rules only reach the categories they
      name: never a root, never a group position, never `ek_ergebnis`. */
  lemma DefaultRoute(acc: Account, mapping: Mapping)
    requires !HasOverride(acc.accountNumber, mapping)
    requires RouteOf(acc, mapping).Attach?
    ensures RouteOf(acc, mapping).k in RuleTargetIndices
  {
    ClassifyNumberTarget(JsText.ParseInt(acc.accountNumber));
  }

  // ------------------------------------------------------------ sign of the display

  /** The amount the generator shows for a balance under a position of the
      table: Passiva and revenue positions show it with the opposite sign. */
  function DisplayAmount(balance: real, def: StructureDef): real {
    if def.kind == Passiva || def.kind == GuvErtrag then -balance else balance
  }

  /** Passiva and revenue positions show balances with the opposite sign. */
  predicate Inverted(k: nat) {
    KindOf(k) == Passiva || KindOf(k) == GuvErtrag
  }

  /** How a balance is shown under position `k`. */
  function Displayed(x: real, k: nat): real {
    if Inverted(k) then -x else x
  }

  /** The sign rule read off the type in the table agrees with `Displayed`. */
  lemma DisplayedByType(x: real, k: nat)
    requires k < |StructureDefs|
    ensures DisplayAmount(x, StructureDefs[k]) == Displayed(x, k)
  {
    KindOfSound(k);
  }

  /** Showing is its own inverse: the profit step recovers the original
      balance from the shown one. */
  lemma DisplayedTwice(x: real, k: nat)
    ensures Displayed(Displayed(x, k), k) == x
    ensures Displayed(x, k) + Displayed(-x, k) == 0.0
  {
  }

  /** The copy of an account attached under position `k`. */
  function Shown(acc: Account, k: nat): (r: Account)
    ensures r.accountNumber == acc.accountNumber && r.accountName == acc.accountName
    ensures r.bookings == acc.bookings && r.yearlyBalances == acc.yearlyBalances
    ensures r.balance == Displayed(acc.balance, k)
  {
    acc.(balance := Displayed(acc.balance, k))
  }

  // ------------------------------------------------------------ routed accounts

  /** The route of every account of the list. The functions below take the
      routes as a list of their own, so that what they say holds for any
      routing and does not depend on the table. */
  function Routes(list: seq<Account>, mapping: Mapping): (r: seq<Route>)
    ensures |r| == |list|
  {
    seq(|list|, i requires 0 <= i < |list| => RouteOf(list[i], mapping))
  }

  /** `routes` holds the route of every account of `list`. */
  predicate RoutedBy(list: seq<Account>, mapping: Mapping, routes: seq<Route>) {
    |routes| == |list| &&
    forall j {:trigger RouteOf(list[j], mapping)} :: 0 <= j < |list| ==> routes[j] == RouteOf(list[j], mapping)
  }

  /** Routing one more account extends the routes by its route. */
  lemma RoutedByStep(list: seq<Account>, mapping: Mapping, routes: seq<Route>, i: nat, route: Route)
    requires i < |list| && RoutedBy(list[..i], mapping, routes) && route == RouteOf(list[i], mapping)
    ensures RoutedBy(list[..i + 1], mapping, routes + [route])
  {
    forall j | 0 <= j < i + 1
      ensures (routes + [route])[j] == RouteOf(list[..i + 1][j], mapping)
    {
      if j < i {
        assert list[..i + 1][j] == list[..i][j];
      }
    }
  }

  /** Routes gathered one account at a time are the routes of the list. */
  lemma RoutedByRoutes(list: seq<Account>, mapping: Mapping, routes: seq<Route>)
    requires RoutedBy(list, mapping, routes)
    ensures routes == Routes(list, mapping)
  {
  }


  /** The copies attached to position `k`, in list order. */
  function AttachedTo(list: seq<Account>, routes: seq<Route>, k: nat): seq<Account>
    requires |routes| == |list|
  {
    if list == [] then []
    else
      var n := |list| - 1;
      var init := AttachedTo(list[..n], routes[..n], k);
      if routes[n] == Attach(k) then init + [Shown(list[n], k)] else init
  }

  /** The accounts listed as unassigned, in list order. */
  function UnassignedOf(list: seq<Account>, routes: seq<Route>): seq<Account>
    requires |routes| == |list|
  {
    if list == [] then []
    else
      var n := |list| - 1;
      var init := UnassignedOf(list[..n], routes[..n]);
      if routes[n] == Unassigned then init + [list[n]] else init
  }

  /** The original balances routed to position `k`. */
  function RoutedSum(list: seq<Account>, routes: seq<Route>, k: nat): real
    requires |routes| == |list|
  {
    if list == [] then 0.0
    else
      var n := |list| - 1;
      RoutedSum(list[..n], routes[..n], k) + (if routes[n] == Attach(k) then list[n].balance else 0.0)
  }

  /** The balances of the near-zero accounts that are skipped. */
  function SkippedSum(list: seq<Account>, routes: seq<Route>): real
    requires |routes| == |list|
  {
    if list == [] then 0.0
    else
      var n := |list| - 1;
      SkippedSum(list[..n], routes[..n]) + (if routes[n] == Skip then list[n].balance else 0.0)
  }

  /** The sum attached to a position is the sum of the routed balances,
      shown with the position's sign. */
  lemma {:induction false} AttachedSum(list: seq<Account>, routes: seq<Route>, k: nat)
    requires |routes| == |list|
    ensures SumBalances(AttachedTo(list, routes, k)) == Displayed(RoutedSum(list, routes, k), k)
    decreases |list|
  {
    if list != [] {
      var n := |list| - 1;
      AttachedSum(list[..n], routes[..n], k);
      if routes[n] == Attach(k) {
        SumBalancesAppend(AttachedTo(list[..n], routes[..n], k), [Shown(list[n], k)]);
      }
    }
  }

  /** The copies under position `k` are exactly the shown copies of the
      accounts routed to `k`; a skipped or unassigned account has none. */
  lemma {:induction false} AttachedMembers(list: seq<Account>, routes: seq<Route>, k: nat, c: Account)
    requires |routes| == |list|
    ensures c in AttachedTo(list, routes, k) <==>
      exists i :: 0 <= i < |list| && routes[i] == Attach(k) && c == Shown(list[i], k)
    decreases |list|
  {
    if list != [] {
      var n := |list| - 1;
      var init, rinit := list[..n], routes[..n];
      AttachedMembers(init, rinit, k, c);
      if exists i :: 0 <= i < |list| && routes[i] == Attach(k) && c == Shown(list[i], k) {
        var i :| 0 <= i < |list| && routes[i] == Attach(k) && c == Shown(list[i], k);
        if i < n {
          assert init[i] == list[i] && rinit[i] == routes[i];
        }
      }
      if exists i :: 0 <= i < n && rinit[i] == Attach(k) && c == Shown(init[i], k) {
        var i :| 0 <= i < n && rinit[i] == Attach(k) && c == Shown(init[i], k);
        assert list[i] == init[i] && routes[i] == rinit[i];
      }
    }
  }

  /** The unassigned list holds exactly the accounts routed there. */
  lemma {:induction false} UnassignedMembers(list: seq<Account>, routes: seq<Route>, c: Account)
    requires |routes| == |list|
    ensures c in UnassignedOf(list, routes) <==>
      exists i :: 0 <= i < |list| && routes[i] == Unassigned && c == list[i]
    decreases |list|
  {
    if list != [] {
      var n := |list| - 1;
      var init, rinit := list[..n], routes[..n];
      UnassignedMembers(init, rinit, c);
      if exists i :: 0 <= i < |list| && routes[i] == Unassigned && c == list[i] {
        var i :| 0 <= i < |list| && routes[i] == Unassigned && c == list[i];
        if i < n {
          assert init[i] == list[i] && rinit[i] == routes[i];
        }
      }
      if exists i :: 0 <= i < n && rinit[i] == Unassigned && c == init[i] {
        var i :| 0 <= i < n && rinit[i] == Unassigned && c == init[i];
        assert list[i] == init[i] && routes[i] == rinit[i];
      }
    }
  }

  /** The routed balances of all positions. */
  function RoutedSums(list: seq<Account>, routes: seq<Route>): (r: seq<real>)
    requires |routes| == |list|
    ensures |r| == N
  {
    seq(N, k requires 0 <= k < N => RoutedSum(list, routes, k))
  }

  /** Every balance of the list is routed to a position, unassigned or
      skipped: the three parts add up to the whole. */
  lemma {:induction false} RoutePartition(list: seq<Account>, routes: seq<Route>)
    requires |routes| == |list|
    requires forall i :: 0 <= i < |routes| && routes[i].Attach? ==> routes[i].k < N
    ensures SumBalances(list) ==
      RangeSum(RoutedSums(list, routes), 0, N) + SumBalances(UnassignedOf(list, routes)) + SkippedSum(list, routes)
    decreases |list|
  {
    if list == [] {
      NothingRouted(list, routes, N);
    } else {
      var n := |list| - 1;
      RoutePartition(list[..n], routes[..n]);
      if routes[n] == Unassigned {
        SumBalancesAppend(UnassignedOf(list[..n], routes[..n]), [list[n]]);
      }
      RoutedSumsStep(list, routes, N);
      assert SumBalances(list) == SumBalances(list[..n]) + list[n].balance;
      assert SkippedSum(list, routes) == SkippedSum(list[..n], routes[..n]) + (if routes[n] == Skip then list[n].balance else 0.0);
      var u := SumBalances(UnassignedOf(list, routes));
      assert u == SumBalances(UnassignedOf(list[..n], routes[..n])) + (if routes[n] == Unassigned then list[n].balance else 0.0);
      if routes[n].Attach? {
        assert routes[n].k < N;
      }
    }
  }

  /** An empty list routes nothing anywhere. */
  lemma {:induction false} NothingRouted(list: seq<Account>, routes: seq<Route>, hi: nat)
    requires list == [] && routes == [] && hi <= N
    ensures RangeSum(RoutedSums(list, routes), 0, hi) == 0.0
    decreases hi
  {
    if hi > 0 {
      NothingRouted(list, routes, hi - 1);
    }
  }

  /** Adding the last account adds its balance to the range holding its
      position and nothing to any other range. */
  lemma {:induction false} RoutedSumsStep(list: seq<Account>, routes: seq<Route>, hi: nat)
    requires |routes| == |list| && list != [] && hi <= N
    ensures RangeSum(RoutedSums(list, routes), 0, hi) ==
      RangeSum(RoutedSums(list[..|list| - 1], routes[..|list| - 1]), 0, hi) +
      (if routes[|list| - 1].Attach? && routes[|list| - 1].k < hi then list[|list| - 1].balance else 0.0)
    decreases hi
  {
    if hi > 0 {
      RoutedSumsStep(list, routes, hi - 1);
    }
  }

  // ------------------------------------------------------------ attaching the accounts

  /** The state after the attaching loop has run over `list`: every
      position holds its accounts and their sum, and the unassigned list
      holds the unassigned accounts, in order. */
  predicate Attached(amounts: seq<real>, attached: seq<seq<Account>>, unassigned: seq<Account>,
                     list: seq<Account>, routes: seq<Route>)
    requires |routes| == |list|
  {
    |amounts| == N && |attached| == N &&
    unassigned == UnassignedOf(list, routes) &&
    forall k :: 0 <= k < N ==>
      attached[k] == AttachedTo(list, routes, k) && amounts[k] == SumBalances(attached[k])
  }

  lemma AttachStart()
    ensures Attached(seq(N, k => 0.0), seq(N, k => []), [], [], [])
  {
  }

  lemma AttachSkip(amounts: seq<real>, attached: seq<seq<Account>>, unassigned: seq<Account>,
                   list: seq<Account>, routes: seq<Route>, acc: Account)
    requires |routes| == |list| && Attached(amounts, attached, unassigned, list, routes)
    ensures Attached(amounts, attached, unassigned, list + [acc], routes + [Skip])
  {
    assert (list + [acc])[..|list|] == list && (routes + [Skip])[..|list|] == routes;
  }

  lemma AttachUnassigned(amounts: seq<real>, attached: seq<seq<Account>>, unassigned: seq<Account>,
                         list: seq<Account>, routes: seq<Route>, acc: Account)
    requires |routes| == |list| && Attached(amounts, attached, unassigned, list, routes)
    ensures Attached(amounts, attached, unassigned + [acc], list + [acc], routes + [Unassigned])
  {
    assert (list + [acc])[..|list|] == list && (routes + [Unassigned])[..|list|] == routes;
  }

  lemma AttachOne(amounts: seq<real>, attached: seq<seq<Account>>, unassigned: seq<Account>,
                  list: seq<Account>, routes: seq<Route>, acc: Account, k: nat)
    requires |routes| == |list| && k < N && Attached(amounts, attached, unassigned, list, routes)
    ensures Attached(amounts[k := amounts[k] + Displayed(acc.balance, k)],
                     attached[k := attached[k] + [Shown(acc, k)]], unassigned,
                     list + [acc], routes + [Attach(k)])
  {
    assert (list + [acc])[..|list|] == list && (routes + [Attach(k)])[..|list|] == routes;
    SumBalancesAppend(attached[k], [Shown(acc, k)]);
  }

  /** The branches of the attaching loop decide the route of the account. */
  lemma RouteBranches(acc: Account, mapping: Mapping)
    ensures JsNumber.Abs(acc.balance) < NearZero ==> RouteOf(acc, mapping) == Skip
    ensures JsNumber.Abs(acc.balance) >= NearZero ==>
      var c := Classify(acc.accountNumber, mapping);
      if c.None? || c.value == "" then RouteOf(acc, mapping) == Unassigned
      else if DefIndex(c.value).None? then RouteOf(acc, mapping) == Unassigned
      else RouteOf(acc, mapping) == Attach(DefIndex(c.value).value)
  {
  }

  /** The decision part of the callback the attaching loop runs on one
      account: near-zero balances are skipped, accounts the classifier gives
      nothing for (or an id without position) are unassigned, and the rest
      go to the position of their id. */
  method RouteAccount(acc: Account, mapping: Mapping) returns (r: Route)
    ensures r == RouteOf(acc, mapping)
  {
    RouteBranches(acc, mapping);
    if JsNumber.Abs(acc.balance) < NearZero {
      return Skip;
    }
    var structId := Classify(acc.accountNumber, mapping);
    if structId.None? || structId.value == "" {
      return Unassigned;
    }
    var item := DefIndex(structId.value);
    if item.None? {
      return Unassigned;
    }
    return Attach(item.value);
  }

  /** The effect part of the callback: an unassigned account is appended to
      the unassigned list; an attached one is copied with the displayed
      sign of its position and its displayed balance is added to the
      position's amount. */
  method ApplyRoute(route: Route, acc: Account,
                    amounts: seq<real>, attached: seq<seq<Account>>, unassigned: seq<Account>)
    returns (amounts': seq<real>, attached': seq<seq<Account>>, unassigned': seq<Account>)
    requires |amounts| == N && |attached| == N
    requires route.Attach? ==> route.k < N
    ensures route == Skip ==>
      amounts' == amounts && attached' == attached && unassigned' == unassigned
    ensures route == Unassigned ==>
      amounts' == amounts && attached' == attached && unassigned' == unassigned + [acc]
    ensures route.Attach? ==>
      amounts' == amounts[route.k := amounts[route.k] + Displayed(acc.balance, route.k)] &&
      attached' == attached[route.k := attached[route.k] + [Shown(acc, route.k)]] &&
      unassigned' == unassigned
  {
    amounts', attached', unassigned' := amounts, attached, unassigned;
    match route {
      case Skip =>
      case Unassigned =>
        unassigned' := unassigned + [acc];
      case Attach(k) =>
        TableSize();
        var def := StructureDefs[k];
        var display := DisplayAmount(acc.balance, def);
        DisplayedByType(acc.balance, k);
        attached' := attached[k := attached[k] + [acc.(balance := display)]];
        amounts' := amounts[k := amounts[k] + display];
    }
  }

  /** The attaching loop: runs the callback on every account of the list,
      in order. */
  method AttachAccounts(list: seq<Account>, mapping: Mapping)
    returns (amounts: seq<real>, attached: seq<seq<Account>>, unassigned: seq<Account>, ghost routes: seq<Route>)
    ensures RoutedBy(list, mapping, routes)
    ensures |amounts| == N && |attached| == N
    ensures forall k :: 0 <= k < N ==> attached[k] == AttachedTo(list, routes, k)
    ensures forall k :: 0 <= k < N ==> amounts[k] == SumBalances(attached[k])
    ensures unassigned == UnassignedOf(list, routes)
  {
    routes := [];
    amounts := seq(N, k => 0.0);
    attached := seq(N, k => []);
    unassigned := [];
    AttachStart();
    var i := 0;
    while i < |list|
      invariant 0 <= i <= |list| && |routes| == i
      invariant RoutedBy(list[..i], mapping, routes)
      invariant Attached(amounts, attached, unassigned, list[..i], routes)
    {
      var route := RouteAccount(list[i], mapping);
      RoutedByStep(list, mapping, routes, i, route);
      amounts, attached, unassigned := AttachNext(list[..i], list[i], routes, route, amounts, attached, unassigned);
      routes := routes + [route];
      assert list[..i + 1] == list[..i] + [list[i]];
      i := i + 1;
    }
    assert list[..i] == list;
  }

  /** One turn of the attaching loop: applies the route of `acc`, so the
      accounts of `done` and `acc` are attached. */
  method AttachNext(done: seq<Account>, acc: Account, ghost routes: seq<Route>, route: Route,
                    amounts: seq<real>, attached: seq<seq<Account>>, unassigned: seq<Account>)
    returns (amounts': seq<real>, attached': seq<seq<Account>>, unassigned': seq<Account>)
    requires |routes| == |done| && (route.Attach? ==> route.k < N)
    requires Attached(amounts, attached, unassigned, done, routes)
    ensures Attached(amounts', attached', unassigned', done + [acc], routes + [route])
  {
    match route {
      case Skip => AttachSkip(amounts, attached, unassigned, done, routes, acc);
      case Unassigned => AttachUnassigned(amounts, attached, unassigned, done, routes, acc);
      case Attach(k) => AttachOne(amounts, attached, unassigned, done, routes, acc, k);
    }
    amounts', attached', unassigned' := ApplyRoute(route, acc, amounts, attached, unassigned);
  }

  // ------------------------------------------------------------ profit

  /** A position of the profit-and-loss statement. */
  predicate IsGuv(k: nat) {
    KindOf(k) == GuvErtrag || KindOf(k) == GuvAufwand
  }

  /** The balance an attached copy had before the display sign: revenue
      positions turn it back. */
  function Original(x: real, k: nat): real {
    if KindOf(k) == GuvErtrag then -x else x
  }

  /** The sum of the turned-back balances of the accounts of position `k`. */
  function OriginalSum(accs: seq<Account>, k: nat): real {
    if accs == [] then 0.0 else OriginalSum(accs[..|accs| - 1], k) + Original(accs[|accs| - 1].balance, k)
  }

  /** The sum of the turned-back balances over the profit-and-loss
      positions before `j`. */
  function GuvRaw(att: seq<seq<Account>>, j: nat): real
    requires j <= |att|
  {
    if j == 0 then 0.0
    else GuvRaw(att, j - 1) + (if IsGuv(j - 1) then OriginalSum(att[j - 1], j - 1) else 0.0)
  }

  /** What the profit-and-loss positions show: revenues count positively,
      expenses negatively, every other position not at all. */
  function Earned(att: seq<seq<Account>>, j: nat): real
    requires j <= |att|
  {
    if j == 0 then 0.0 else Earned(att, j - 1) + Signed(SumBalances(att[j - 1]), j - 1)
  }

  function Signed(x: real, k: nat): real {
    if KindOf(k) == GuvErtrag then x else if KindOf(k) == GuvAufwand then -x else 0.0
  }

  /** Turning back the sign of each account turns back the sign of the sum. */
  lemma {:induction false} OriginalOfSum(accs: seq<Account>, k: nat)
    ensures OriginalSum(accs, k) == Original(SumBalances(accs), k)
    decreases |accs|
  {
    if accs != [] {
      OriginalOfSum(accs[..|accs| - 1], k);
    }
  }

  /** The profit, the negated turned-back sum, is revenues minus expenses
      as displayed. */
  lemma {:induction false} ProfitIsEarned(att: seq<seq<Account>>, j: nat)
    requires j <= |att|
    ensures -GuvRaw(att, j) == Earned(att, j)
  {
    if j > 0 {
      ProfitIsEarned(att, j - 1);
      OriginalOfSum(att[j - 1], j - 1);
    }
  }

  /** The profit loop: for every profit-and-loss position of the table, adds
      the turned-back balance of each of its accounts. */
  method GuvBalance(att: seq<seq<Account>>) returns (raw: real)
    requires |att| == N
    ensures raw == GuvRaw(att, N)
  {
    TableSize();
    raw := 0.0;
    var k := 0;
    while k < N
      invariant k <= N && raw == GuvRaw(att, k)
    {
      var def := StructureDefs[k];
      KindOfSound(k);
      if def.kind == GuvErtrag || def.kind == GuvAufwand {
        var accs := att[k];
        ghost var before := raw;
        var j := 0;
        while j < |accs|
          invariant j <= |accs| && raw == before + OriginalSum(accs[..j], k)
        {
          var isInverted := def.kind == GuvErtrag;
          var originalBalance := if isInverted then -accs[j].balance else accs[j].balance;
          raw := raw + originalBalance;
          assert accs[..j + 1][..j] == accs[..j];
          j := j + 1;
        }
        assert accs[..j] == accs;
      }
      k := k + 1;
    }
  }

  // ------------------------------------------------------------ the statement tree

  /** The item of position `k` with its subtree, as the linked items stand
      once the totals are computed: the table's id and caption, the total,
      the depth marker, the items of the children in table order, and the
      attached accounts. The generator never sets per-year amounts. */
  function Item(defs: seq<StructureDef>, tot: seq<real>, att: seq<seq<Account>>, k: nat): (r: ReportItem)
    requires |defs| == N && |tot| == N && |att| == N && k < N
    decreases N - k
  {
    var cs := Children(k);
    ReportItem(defs[k].id, defs[k].title, tot[k], if defs[k].parent.Some? then 1 else 0,
               seq(|cs|, i requires 0 <= i < |cs| => Item(defs, tot, att, cs[i])),
               att[k], None)
  }

  /** The sum of the amounts of a list of items. */
  function SumAmounts(items: seq<ReportItem>): real {
    if items == [] then 0.0 else SumAmounts(items[..|items| - 1]) + items[|items| - 1].amount
  }

  /** Every item with children carries the sum of its children's amounts
      and of its own accounts' balances, all the way down. */
  predicate Consistent(item: ReportItem)
    decreases item
  {
    (item.children != [] ==> item.amount == SumAmounts(item.children) + SumBalances(item.accounts)) &&
    forall i :: 0 <= i < |item.children| ==> Consistent(item.children[i])
  }

  /** Lists of items and of reals that agree amount by amount have the same
      sum. */
  lemma {:induction false} SumAmountsOf(items: seq<ReportItem>, xs: seq<real>)
    requires |items| == |xs| && forall i :: 0 <= i < |xs| ==> items[i].amount == xs[i]
    ensures SumAmounts(items) == SumReals(xs)
    decreases |xs|
  {
    if xs != [] {
      var n := |xs| - 1;
      SumAmountsOf(items[..n], xs[..n]);
    }
  }

  /** The totals of all positions for the attached accounts `att`, every
      leaf carrying the sum of its own accounts. */
  function Totals(att: seq<seq<Account>>): (r: seq<real>)
    requires |att| == N
    ensures |r| == N
  {
    ChildListsTree();
    seq(N, m requires 0 <= m < N => Total(Own(att), att, ChildLists(), m))
  }

  /** The amounts of the children of `k`, in order. */
  function ChildAmounts(tot: seq<real>, k: nat): (r: seq<real>)
    requires |tot| == N
    ensures |r| == |Children(k)|
  {
    seq(|Children(k)|, i requires 0 <= i < |Children(k)| => tot[Children(k)[i]])
  }

  /** Every position with children carries the sum of its children's
      amounts and of its own accounts' balances. */
  predicate TotalsHold(tot: seq<real>, att: seq<seq<Account>>)
    requires |tot| == N && |att| == N
  {
    forall m :: 0 <= m < N && Children(m) != [] ==>
      tot[m] == SumReals(ChildAmounts(tot, m)) + SumBalances(att[m])
  }

  /** The totals `calculateTotals` computes satisfy the sum rule. */
  lemma TotalsSumUp(att: seq<seq<Account>>)
    requires |att| == N
    ensures TotalsHold(Totals(att), att)
  {
    var tot := Totals(att);
    ChildListsTree();
    forall m | 0 <= m < N && Children(m) != []
      ensures tot[m] == SumReals(ChildAmounts(tot, m)) + SumBalances(att[m])
    {
      assert ChildLists()[m] == Children(m);
      assert ChildTotals(Own(att), att, ChildLists(), m) == ChildAmounts(tot, m);
    }
  }

  /** The fields of an item, read off the table position. */
  lemma ItemShape(defs: seq<StructureDef>, tot: seq<real>, att: seq<seq<Account>>, k: nat)
    requires |defs| == N && |tot| == N && |att| == N && k < N
    ensures Item(defs, tot, att, k).id == defs[k].id
    ensures Item(defs, tot, att, k).amount == tot[k]
    ensures Item(defs, tot, att, k).accounts == att[k]
    ensures |Item(defs, tot, att, k).children| == |Children(k)|
    ensures forall i :: 0 <= i < |Children(k)| ==>
      Item(defs, tot, att, k).children[i] == Item(defs, tot, att, Children(k)[i])
  {
  }

  /** An item whose children are consistent and carry the amounts `xs` is
      consistent when its own amount obeys the sum rule. */
  lemma ConsistentNode(item: ReportItem, xs: seq<real>)
    requires |item.children| == |xs| && forall i :: 0 <= i < |xs| ==> item.children[i].amount == xs[i]
    requires item.children != [] ==> item.amount == SumReals(xs) + SumBalances(item.accounts)
    requires forall i :: 0 <= i < |item.children| ==> Consistent(item.children[i])
    ensures Consistent(item)
  {
    SumAmountsOf(item.children, xs);
  }

  /** Where the sum rule holds, every item of the tree is consistent. */
  lemma {:induction false} ItemConsistent(defs: seq<StructureDef>, tot: seq<real>, att: seq<seq<Account>>, k: nat)
    requires |defs| == N && |tot| == N && |att| == N && k < N
    requires TotalsHold(tot, att)
    ensures Consistent(Item(defs, tot, att, k))
    decreases N - k
  {
    var item := Item(defs, tot, att, k);
    var cs := Children(k);
    ItemShape(defs, tot, att, k);
    forall i | 0 <= i < |cs|
      ensures Consistent(item.children[i]) && item.children[i].amount == ChildAmounts(tot, k)[i]
    {
      ItemConsistent(defs, tot, att, cs[i]);
      ItemShape(defs, tot, att, cs[i]);
    }
    ConsistentNode(item, ChildAmounts(tot, k));
  }

  // ------------------------------------------------------------ the report

  /** The synthetic account on which the generator books the year's result,
      named after its sign. */
  function ResultAccount(profit: real): (r: Account)
    ensures r.accountNumber == "JÜ" && r.balance == profit && r.bookings == []
    ensures r.accountName == "Jahresüberschuss" <==> profit >= 0.0
    ensures SumBalances([r]) == profit
  {
    Account("JÜ", if profit >= 0.0 then "Jahresüberschuss" else "Jahresfehlbetrag", profit, map[], [])
  }

  /** The accounts in the order the generator walks them: the account of
      every key of `order`, the enumeration order of the account record. */
  function Listed(accounts: map<string, Account>, order: seq<string>): (r: seq<Account>)
    requires forall i :: 0 <= i < |order| ==> order[i] in accounts
    ensures |r| == |order| && forall i :: 0 <= i < |order| ==> r[i] == accounts[order[i]]
  {
    seq(|order|, i requires 0 <= i < |order| => accounts[order[i]])
  }

  /** The accounts attached to every position by the attaching loop. */
  function AttachedAll(list: seq<Account>, routes: seq<Route>): (r: seq<seq<Account>>)
    requires |routes| == |list|
    ensures |r| == N && forall k :: 0 <= k < N ==> r[k] == AttachedTo(list, routes, k)
  {
    seq(N, k requires 0 <= k < N => AttachedTo(list, routes, k))
  }

  /** The profit: the negated sum of the turned-back balances of the
      profit-and-loss positions. */
  function Profit(att: seq<seq<Account>>): real
    requires |att| == N
  {
    -GuvRaw(att, N)
  }

  /** The attached accounts once the result is booked: `ek_ergebnis` holds
      the result account alone. */
  function Booked(att: seq<seq<Account>>): (r: seq<seq<Account>>)
    requires |att| == N
    ensures |r| == N && r[Ergebnis] == [ResultAccount(Profit(att))]
    ensures forall k :: 0 <= k < N && k != Ergebnis ==> r[k] == att[k]
  {
    att[Ergebnis := [ResultAccount(Profit(att))]]
  }

  /** The result of the report generator for the accounts `accounts`, walked
      in the order `order`, and the overrides `mapping`. */
  function ReportOf(accounts: map<string, Account>, order: seq<string>, mapping: Mapping): FinancialData
    requires forall i :: 0 <= i < |order| ==> order[i] in accounts
  {
    var renamed := Renamed(accounts, mapping);
    var list := Listed(renamed, order);
    var routes := Routes(list, mapping);
    var att := Booked(AttachedAll(list, routes));
    var tot := Totals(att);
    FinancialData(
      Item(StructureDefs, tot, att, 18), Item(StructureDefs, tot, att, 0), Item(StructureDefs, tot, att, 10),
      BalanceCheck(tot[0] - tot[10], JsNumber.Abs(tot[0] - tot[10]) < Tolerance),
      UnassignedOf(list, routes), renamed, [], Profit(AttachedAll(list, routes)))
  }

  /** The attaching loop, the profit loop and the booking of the result on
      `ek_ergebnis`: its amount becomes the profit and its accounts the
      result account alone. */
  method AttachAndBook(list: seq<Account>, mapping: Mapping)
    returns (amounts: seq<real>, attached: seq<seq<Account>>, unassigned: seq<Account>, profit: real,
             ghost routes: seq<Route>)
    ensures RoutedBy(list, mapping, routes)
    ensures attached == Booked(AttachedAll(list, routes))
    ensures amounts == Own(attached)
    ensures unassigned == UnassignedOf(list, routes)
    ensures profit == Profit(AttachedAll(list, routes))
  {
    amounts, attached, unassigned, routes := AttachAccounts(list, mapping);
    assert attached == AttachedAll(list, routes);
    var rawGuvBalance := GuvBalance(attached);
    profit := -rawGuvBalance;
    amounts := amounts[Ergebnis := profit];
    attached := attached[Ergebnis := [ResultAccount(profit)]];
    assert amounts == Own(attached);
  }

  /** Linking the items and `calculateTotals` from the three roots: every
      position ends with the total of the sum rule. */
  method LinkAndTotal(amounts: seq<real>, attached: seq<seq<Account>>) returns (totals: seq<real>)
    requires |attached| == N && amounts == Own(attached)
    ensures totals == Totals(attached)
  {
    var linked, children, roots := LinkItems(amounts);
    ChildListsTree();
    totals := TotalRoots(linked, attached, children, roots);
    forall m | 0 <= m < N
      ensures totals[m] == Totals(attached)[m]
    {
      SameLeavesTotal(linked, amounts, attached, children, m);
    }
  }

  /** The report generator: applies the name overrides, walks the accounts,
      books the result, links the items, computes the totals and checks the
      balance. */
  method GenerateFinancialReport(accounts: map<string, Account>, order: seq<string>, mapping: Mapping)
    returns (data: FinancialData)
    requires forall i :: 0 <= i < |order| ==> order[i] in accounts
    ensures data == ReportOf(accounts, order, mapping)
  {
    var renamed := ApplyNameOverrides(accounts, mapping);
    var accountList := Listed(renamed, order);
    var amounts, attached, unassigned, totalProfit, routes := AttachAndBook(accountList, mapping);
    RoutedByRoutes(accountList, mapping, routes);
    var totals := LinkAndTotal(amounts, attached);
    TableSize();
    var aktivaSum := totals[0];
    var passivaSum := totals[10];
    data := FinancialData(
      Item(StructureDefs, totals, attached, 18), Item(StructureDefs, totals, attached, 0),
      Item(StructureDefs, totals, attached, 10),
      BalanceCheck(aktivaSum - passivaSum, JsNumber.Abs(aktivaSum - passivaSum) < Tolerance),
      unassigned, renamed, [], totalProfit);
  }

  // ------------------------------------------------------------ the balance check

  /** The positions no account should be routed to for the check to add up:
      the three roots and `ek_ergebnis`, whose accounts the result replaces. */
  predicate Special(k: nat) {
    k == 0 || k == 10 || k == Ergebnis || k == 18
  }

  /** No account of the list is routed to a special position. */
  predicate AvoidsSpecial(routes: seq<Route>) {
    forall i :: 0 <= i < |routes| && routes[i].Attach? ==> routes[i].k < N && !Special(routes[i].k)
  }

  /** A position no account is routed to receives nothing. */
  lemma {:induction false} NotRouted(list: seq<Account>, routes: seq<Route>, k: nat)
    requires |routes| == |list| && forall i :: 0 <= i < |routes| ==> routes[i] != Attach(k)
    ensures RoutedSum(list, routes, k) == 0.0
    decreases |list|
  {
    if list != [] {
      var n := |list| - 1;
      NotRouted(list[..n], routes[..n], k);
    }
  }

  lemma {:induction false} RangeSumAgree(v: seq<real>, w: seq<real>, lo: nat, hi: nat)
    requires hi <= |v| && hi <= |w| && forall m :: lo <= m < hi ==> v[m] == w[m]
    ensures RangeSum(v, lo, hi) == RangeSum(w, lo, hi)
    decreases hi
  {
    if lo < hi {
      RangeSumAgree(v, w, lo, hi - 1);
    }
  }

  lemma {:induction false} RangeSumNegated(v: seq<real>, w: seq<real>, lo: nat, hi: nat)
    requires hi <= |v| && hi <= |w| && forall m :: lo <= m < hi ==> v[m] == -w[m]
    ensures RangeSum(v, lo, hi) == -RangeSum(w, lo, hi)
    decreases hi
  {
    if lo < hi {
      RangeSumNegated(v, w, lo, hi - 1);
    }
  }

  /** Before the first revenue position nothing counts for the profit. */
  lemma {:induction false} GuvRawBelow(att: seq<seq<Account>>, j: nat)
    requires j <= 19 && j <= |att|
    ensures GuvRaw(att, j) == 0.0
  {
    if j > 0 {
      GuvRawBelow(att, j - 1);
    }
  }

  /** The turned-back sum of the profit-and-loss positions is the sum of the
      balances routed to them. */
  lemma {:induction false} GuvRawRouted(list: seq<Account>, routes: seq<Route>, j: nat)
    requires |routes| == |list| && 19 <= j <= N
    ensures GuvRaw(AttachedAll(list, routes), j) == RangeSum(RoutedSums(list, routes), 19, j)
  {
    var att := AttachedAll(list, routes);
    if j == 19 {
      GuvRawBelow(att, j);
    } else {
      var k := j - 1;
      GuvRawRouted(list, routes, k);
      OriginalOfSum(att[k], k);
      AttachedSum(list, routes, k);
    }
  }

  /** The own sums the totals are built from, read off the routes: shown
      routed sums everywhere, the profit on `ek_ergebnis`. */
  lemma OwnRouted(list: seq<Account>, routes: seq<Route>, m: nat)
    requires |routes| == |list| && m < N
    ensures Own(Booked(AttachedAll(list, routes)))[m] ==
      if m == Ergebnis then Profit(AttachedAll(list, routes))
      else Displayed(RoutedSums(list, routes)[m], m)
  {
    if m != Ergebnis {
      AttachedSum(list, routes, m);
    }
  }

  /** The Aktiva total is the sum of the balances routed below it. */
  lemma AktivaSide(list: seq<Account>, routes: seq<Route>)
    requires |routes| == |list|
    ensures Totals(Booked(AttachedAll(list, routes)))[0] == RangeSum(RoutedSums(list, routes), 0, 10)
  {
    var own := Own(Booked(AttachedAll(list, routes)));
    forall m | 0 <= m < 10
      ensures own[m] == RoutedSums(list, routes)[m]
    {
      OwnRouted(list, routes, m);
    }
    TotalRange(own, Booked(AttachedAll(list, routes)), 0);
    RangeSumAgree(own, RoutedSums(list, routes), 0, 10);
  }

  /** The Passiva total is the negated sum of the balances routed below it,
      with the profit in place of what is routed to `ek_ergebnis`, when
      nothing is routed to the root itself. */
  lemma PassivaSide(list: seq<Account>, routes: seq<Route>)
    requires |routes| == |list| && AvoidsSpecial(routes)
    ensures var rs := RoutedSums(list, routes);
      Totals(Booked(AttachedAll(list, routes)))[10] ==
        -RangeSum(rs, 10, Ergebnis) + Profit(AttachedAll(list, routes)) - RangeSum(rs, Ergebnis + 1, 18)
  {
    var att := Booked(AttachedAll(list, routes));
    var own := Own(att);
    var rs := RoutedSums(list, routes);
    NotRouted(list, routes, 10);
    forall m | 10 <= m < 18 && m != Ergebnis
      ensures own[m] == -rs[m]
    {
      OwnRouted(list, routes, m);
    }
    OwnRouted(list, routes, Ergebnis);
    TotalRange(own, att, 10);
    RangeSumNegated(own, rs, 10, Ergebnis);
    RangeSumNegated(own, rs, Ergebnis + 1, 18);
    RangeSumSplit(own, 10, Ergebnis, 18);
    RangeSumSplit(own, Ergebnis, Ergebnis + 1, 18);
  }

  /** When no account is routed to a root or to `ek_ergebnis`, Aktiva
      minus Passiva is the sum of every balance that reaches a position:
      all balances of the list but the unassigned and the skipped ones. */
  lemma CheckDiff(list: seq<Account>, routes: seq<Route>)
    requires |routes| == |list| && AvoidsSpecial(routes)
    ensures var tot := Totals(Booked(AttachedAll(list, routes)));
      tot[0] - tot[10] == SumBalances(list) - SumBalances(UnassignedOf(list, routes)) - SkippedSum(list, routes)
  {
    var rs := RoutedSums(list, routes);
    NotRouted(list, routes, Ergebnis);
    NotRouted(list, routes, 18);
    AktivaSide(list, routes);
    PassivaSide(list, routes);
    GuvRawRouted(list, routes, N);
    RangeSumSplit(rs, 10, Ergebnis, 18);
    RangeSumSplit(rs, Ergebnis, Ergebnis + 1, 18);
    RangeSumSplit(rs, 18, 19, N);
    RangeSumSplit(rs, 0, 10, 18);
    RangeSumSplit(rs, 0, 18, N);
    RoutePartition(list, routes);
  }

  /** The ids of the special positions. */
  predicate SpecialId(id: string) {
    id == "aktiva_root" || id == "passiva_root" || id == "guv_root" || id == "ek_ergebnis"
  }

  lemma SpecialIds(k: nat)
    requires k < N && Special(k)
    ensures SpecialId(StructureDefs[k].id)
  {
    TableSize();
  }

  /** No override names a root or `ek_ergebnis`. */
  predicate NoSpecialOverride(mapping: Mapping) {
    forall a :: a in mapping && mapping[a].structureId.Some? ==> !SpecialId(mapping[a].structureId.value)
  }

  /** An account attached through an override goes to the position its
      override names. */
  lemma OverrideRoute(acc: Account, mapping: Mapping, k: nat)
    requires HasOverride(acc.accountNumber, mapping) && RouteOf(acc, mapping) == Attach(k)
    ensures k < N && mapping[acc.accountNumber].structureId == Some(StructureDefs[k].id)
  {
    RouteAttachSound(acc, mapping, k);
  }

  /** Without such overrides no account reaches a special position: the
      default rules never name one. */
  lemma RouteAvoidsSpecial(acc: Account, mapping: Mapping, k: nat)
    requires NoSpecialOverride(mapping) && RouteOf(acc, mapping) == Attach(k)
    ensures !Special(k)
  {
    if HasOverride(acc.accountNumber, mapping) {
      OverrideRoute(acc, mapping, k);
      if Special(k) {
        SpecialIds(k);
      }
    } else {
      DefaultRoute(acc, mapping);
      RuleTargetsOrdinary(k);
    }
  }

  lemma RoutesAvoidSpecial(list: seq<Account>, mapping: Mapping)
    requires NoSpecialOverride(mapping)
    ensures AvoidsSpecial(Routes(list, mapping))
  {
    var routes := Routes(list, mapping);
    forall i | 0 <= i < |routes| && routes[i].Attach?
      ensures routes[i].k < N && !Special(routes[i].k)
    {
      RouteAvoidsSpecial(list[i], mapping, routes[i].k);
    }
  }

  /** The balance check of the report: when no override names a root or
      `ek_ergebnis`, the difference of Aktiva and Passiva is the sum of all
      balances minus the unassigned and the skipped ones, and the statement
      counts as balanced exactly when it is below the tolerance. */
  lemma ReportBalance(accounts: map<string, Account>, order: seq<string>, mapping: Mapping)
    requires forall i :: 0 <= i < |order| ==> order[i] in accounts
    requires NoSpecialOverride(mapping)
    ensures var r := ReportOf(accounts, order, mapping);
      var list := Listed(Renamed(accounts, mapping), order);
      r.check.diff == SumBalances(list) - SumBalances(r.unassigned) - SkippedSum(list, Routes(list, mapping)) &&
      (r.check.balanced <==> JsNumber.Abs(r.check.diff) < Tolerance)
  {
    var list := Listed(Renamed(accounts, mapping), order);
    RoutesAvoidSpecial(list, mapping);
    CheckDiff(list, Routes(list, mapping));
  }

  // ------------------------------------------------------------ the trees of the report

  /** After `calculateTotals`, every item of the three trees with children
      carries the sum of its children's amounts and of its own accounts'
      balances. */
  lemma ReportConsistent(accounts: map<string, Account>, order: seq<string>, mapping: Mapping)
    requires forall i :: 0 <= i < |order| ==> order[i] in accounts
    ensures var r := ReportOf(accounts, order, mapping);
      Consistent(r.aktiva) && Consistent(r.passiva) && Consistent(r.guv)
  {
    var list := Listed(Renamed(accounts, mapping), order);
    var att := Booked(AttachedAll(list, Routes(list, mapping)));
    TableSize();
    TotalsSumUp(att);
    ItemConsistent(StructureDefs, Totals(att), att, 0);
    ItemConsistent(StructureDefs, Totals(att), att, 10);
    ItemConsistent(StructureDefs, Totals(att), att, 18);
  }

  /** `ek_ergebnis` is the third child of the first child of Passiva. */
  lemma ErgebnisPath(defs: seq<StructureDef>, tot: seq<real>, att: seq<seq<Account>>)
    requires |defs| == N && |tot| == N && |att| == N
    ensures var p := Item(defs, tot, att, 10);
      |p.children| > 0 && |p.children[0].children| > 2 &&
      p.children[0].children[2] == Item(defs, tot, att, Ergebnis)
  {
    ItemShape(defs, tot, att, 10);
    ItemShape(defs, tot, att, 11);
  }

  /** `ek_ergebnis` has no children, so its total is the booked profit. */
  lemma ErgebnisTotal(att: seq<seq<Account>>)
    requires |att| == N
    ensures Totals(Booked(att))[Ergebnis] == Profit(att)
  {
    ChildListsTree();
    assert ChildLists()[Ergebnis] == [];
  }

  /** The item of `ek_ergebnis` in the booked tree shows the profit and
      holds the result account alone. */
  lemma ResultItem(defs: seq<StructureDef>, att: seq<seq<Account>>)
    requires |defs| == N && |att| == N && defs[Ergebnis].id == "ek_ergebnis"
    ensures var booked := Booked(att);
      var p := Item(defs, Totals(booked), booked, 10);
      |p.children| > 0 && |p.children[0].children| > 2 &&
      var e := p.children[0].children[2];
      e.id == "ek_ergebnis" && e.amount == Profit(att) && e.accounts == [ResultAccount(Profit(att))]
  {
    var booked := Booked(att);
    var tot := Totals(booked);
    ErgebnisPath(defs, tot, booked);
    ItemShape(defs, tot, booked, Ergebnis);
    ErgebnisTotal(att);
  }

  /** The profit booked on `ek_ergebnis` is the displayed revenues minus
      the displayed expenses, and the result account is named after its
      sign. */
  lemma ReportProfit(accounts: map<string, Account>, order: seq<string>, mapping: Mapping)
    requires forall i :: 0 <= i < |order| ==> order[i] in accounts
    ensures var r := ReportOf(accounts, order, mapping);
      var list := Listed(Renamed(accounts, mapping), order);
      r.profit == Earned(AttachedAll(list, Routes(list, mapping)), N) &&
      |r.passiva.children| > 0 && |r.passiva.children[0].children| > 2 &&
      var e := r.passiva.children[0].children[2];
      e.id == "ek_ergebnis" && e.amount == r.profit && e.accounts == [ResultAccount(r.profit)]
  {
    var list := Listed(Renamed(accounts, mapping), order);
    var att := AttachedAll(list, Routes(list, mapping));
    ProfitIsEarned(att, N);
    TableSize();
    ErgebnisId();
    ResultItem(StructureDefs, att);
  }
}
