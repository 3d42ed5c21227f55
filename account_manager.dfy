/** The chart-of-accounts editor: it lists the accounts sorted by number,
    filters them by a search term, and edits the override table, one entry
    field at a time. */
module AccountManager {
  import opened Wrappers
  import opened JsText
  import opened Types
  import opened Skr04
  import Report

  // ------------------------------------------------------------ editing

  /** The entry an edit starts from: the account's entry, or an empty one. */
  function Current(mapping: Mapping, id: string): MappingEntry {
    if id in mapping then mapping[id] else MappingEntry(None, None)
  }

  /** `handleNameChange`: the entry of `id` gets the name `newName`; its
      position and every other entry stay. */
  function HandleNameChange(mapping: Mapping, id: string, newName: string): (r: Mapping)
    ensures r.Keys == mapping.Keys + {id}
    ensures r[id].name == Some(newName) && r[id].structureId == Current(mapping, id).structureId
    ensures forall k :: k in mapping && k != id ==> r[k] == mapping[k]
  {
    mapping[id := Current(mapping, id).(name := Some(newName))]
  }

  /** `handleStructureChange`: the entry of `id` gets the position
      `newStructId` (the empty string standing for "automatic"); its name
      and every other entry stay. */
  function HandleStructureChange(mapping: Mapping, id: string, newStructId: string): (r: Mapping)
    ensures r.Keys == mapping.Keys + {id}
    ensures r[id].structureId == Some(newStructId) && r[id].name == Current(mapping, id).name
    ensures forall k :: k in mapping && k != id ==> r[k] == mapping[k]
  {
    mapping[id := Current(mapping, id).(structureId := Some(newStructId))]
  }

  /** Renaming an account never moves any account to another position. */
  lemma NameChangeKeepsPositions(mapping: Mapping, id: string, newName: string, acc: string)
    ensures Classify(acc, HandleNameChange(mapping, id, newName)) == Classify(acc, mapping)
  {
    var r := HandleNameChange(mapping, id, newName);
    assert HasOverride(acc, r) <==> HasOverride(acc, mapping);
  }

  /** After a rename the report shows the new name, or the account's own
      name again when the new name is empty; other accounts keep theirs. */
  lemma NameChangeShown(accounts: map<string, Account>, mapping: Mapping, id: string, newName: string)
    requires id in accounts
    ensures var renamed := Report.Renamed(accounts, HandleNameChange(mapping, id, newName));
      renamed[id].accountName == (if newName != "" then newName else accounts[id].accountName) &&
      forall a :: a in accounts && a != id ==> renamed[a] == Report.Renamed(accounts, mapping)[a]
  {
    var r := HandleNameChange(mapping, id, newName);
    assert Report.HasName(id, r) <==> newName != "";
    assert forall a :: a != id ==> (Report.HasName(a, r) <==> Report.HasName(a, mapping));
  }

  /** Choosing a position moves exactly that account there, and choosing
      "automatic" returns it to the default rules. */
  lemma StructureChangeClassifies(mapping: Mapping, id: string, newStructId: string, acc: string)
    ensures Classify(acc, HandleStructureChange(mapping, id, newStructId)) ==
      if acc != id then Classify(acc, mapping)
      else if newStructId != "" then Some(newStructId)
      else ClassifyNumber(ParseInt(acc))
  {
    var r := HandleStructureChange(mapping, id, newStructId);
    assert acc != id ==> (HasOverride(acc, r) <==> HasOverride(acc, mapping));
    assert acc == id ==> (HasOverride(acc, r) <==> newStructId != "");
  }

  /** Choosing a position renames nothing. */
  lemma StructureChangeKeepsNames(accounts: map<string, Account>, mapping: Mapping, id: string, newStructId: string)
    ensures Report.Renamed(accounts, HandleStructureChange(mapping, id, newStructId)) == Report.Renamed(accounts, mapping)
  {
    var r := HandleStructureChange(mapping, id, newStructId);
    assert forall a :: Report.HasName(a, r) <==> Report.HasName(a, mapping);
  }

  // ------------------------------------------------------------ a row

  /** The name a row shows: the override's name unless it is missing or
      empty, else the account's own. */
  function RowName(acc: Account, mapping: Mapping): string {
    var entry := Current(mapping, acc.accountNumber);
    if entry.name.Some? && entry.name.value != "" then entry.name.value else acc.accountName
  }

  /** The position a row's selector shows, the empty string for
      "automatic". */
  function RowStructure(acc: Account, mapping: Mapping): string {
    var entry := Current(mapping, acc.accountNumber);
    if entry.structureId.Some? then entry.structureId.value else ""
  }

  /** A row shows the name the report gives the account, and "automatic"
      exactly when the default rules decide its position. */
  lemma RowAgreesWithReport(accounts: map<string, Account>, mapping: Mapping, id: string)
    requires id in accounts && accounts[id].accountNumber == id
    ensures RowName(accounts[id], mapping) == Report.Renamed(accounts, mapping)[id].accountName
    ensures RowStructure(accounts[id], mapping) == "" <==> !HasOverride(id, mapping)
    ensures RowStructure(accounts[id], mapping) != "" ==> Classify(id, mapping) == Some(RowStructure(accounts[id], mapping))
  {
  }

  // ------------------------------------------------------------ sorting

  /** The number a comparator reads off an account, `None` for `NaN`. */
  type Key = Account -> Option<int>

  /** The comparator `key(a) - key(b)` is positive: both keys are numbers
      and the first is larger. A `NaN` difference counts as a tie. */
  predicate Greater(a: Account, b: Account, key: Key) {
    key(a).Some? && key(b).Some? && key(a).value > key(b).value
  }

  /** No account is placed before one with a smaller key. */
  predicate SortedBy(s: seq<Account>, key: Key) {
    forall i, j :: 0 <= i < j < |s| ==> !Greater(s[i], s[j], key)
  }

  /** Every key of `s` is a number. */
  predicate Numbered(s: seq<Account>, key: Key) {
    forall k :: 0 <= k < |s| ==> key(s[k]).Some?
  }

  /** `x` placed after every account of `s` that does not come after it. */
  function Insert(s: seq<Account>, x: Account, key: Key): (r: seq<Account>)
    ensures |r| == |s| + 1
    ensures multiset(r) == multiset(s) + multiset{x}
  {
    if s == [] || !Greater(s[|s| - 1], x, key) then s + [x]
    else
      assert s == s[..|s| - 1] + [s[|s| - 1]];
      Insert(s[..|s| - 1], x, key) + [s[|s| - 1]]
  }

  lemma {:induction false} InsertSorted(s: seq<Account>, x: Account, key: Key)
    requires SortedBy(s, key) && Numbered(s, key) && key(x).Some?
    ensures SortedBy(Insert(s, x, key), key)
  {
    if s == [] || !Greater(s[|s| - 1], x, key) {
      var r := s + [x];
      forall i, j | 0 <= i < j < |r| ensures !Greater(r[i], r[j], key) {
        if j == |s| {
          assert r[i] == s[i];
          assert i < |s| - 1 ==> !Greater(s[i], s[|s| - 1], key);
        } else {
          assert r[i] == s[i] && r[j] == s[j];
        }
      }
    } else {
      var n := |s| - 1;
      var last := s[n];
      assert Numbered(s[..n], key);
      InsertSorted(s[..n], x, key);
      var r0 := Insert(s[..n], x, key);
      forall y | y in r0 ensures !Greater(y, last, key) {
        InsertFrom(s[..n], x, key, y);
        if y != x {
          var i :| 0 <= i < n && s[..n][i] == y;
          assert s[i] == y;
        }
      }
      SnocSorted(r0, last, key);
    }
  }

  /** What `Insert` returns is the inserted account or one of `s`. */
  lemma InsertFrom(s: seq<Account>, x: Account, key: Key, y: Account)
    requires y in Insert(s, x, key)
    ensures y == x || y in s
  {
    assert y in multiset(Insert(s, x, key));
  }

  /** A sorted list stays sorted when an account no account of it is
      greater than is appended. */
  lemma SnocSorted(r0: seq<Account>, last: Account, key: Key)
    requires SortedBy(r0, key)
    requires forall y :: y in r0 ==> !Greater(y, last, key)
    ensures SortedBy(r0 + [last], key)
  {
    var r := r0 + [last];
    forall i, j | 0 <= i < j < |r| ensures !Greater(r[i], r[j], key) {
      if j < |r0| {
        assert r[i] == r0[i] && r[j] == r0[j];
      } else {
        assert r[i] in r0;
      }
    }
  }

  /** A stable insertion sort by the comparator on `key`. */
  function SortBy(list: seq<Account>, key: Key): (r: seq<Account>)
    ensures |r| == |list|
    ensures multiset(r) == multiset(list)
  {
    if list == [] then []
    else
      assert list == list[..|list| - 1] + [list[|list| - 1]];
      Insert(SortBy(list[..|list| - 1], key), list[|list| - 1], key)
  }

  /** A list whose keys are all numbers comes out sorted. */
  lemma {:induction false} SortBySorted(list: seq<Account>, key: Key)
    requires Numbered(list, key)
    ensures SortedBy(SortBy(list, key), key)
  {
    if list != [] {
      var n := |list| - 1;
      assert Numbered(list[..n], key);
      SortBySorted(list[..n], key);
      var s := SortBy(list[..n], key);
      forall k | 0 <= k < |s| ensures key(s[k]).Some? {
        assert s[k] in multiset(list[..n]);
      }
      InsertSorted(s, list[n], key);
    }
  }

  /** The accounts of `s` whose key is `k`, in the order of `s`. */
  function OnKey(s: seq<Account>, key: Key, k: Option<int>): seq<Account> {
    if s == [] then []
    else OnKey(s[..|s| - 1], key, k) + (if key(s[|s| - 1]) == k then [s[|s| - 1]] else [])
  }

  lemma OnKeySnoc(s: seq<Account>, x: Account, key: Key, k: Option<int>)
    ensures OnKey(s + [x], key, k) == OnKey(s, key, k) + (if key(x) == k then [x] else [])
  {
    assert (s + [x])[..|s|] == s;
  }

  /** Insertion never moves an account past one with the same key. */
  lemma {:induction false} OnKeyInsert(s: seq<Account>, x: Account, key: Key, k: Option<int>)
    ensures OnKey(Insert(s, x, key), key, k) == OnKey(s, key, k) + (if key(x) == k then [x] else [])
  {
    if s == [] || !Greater(s[|s| - 1], x, key) {
      OnKeySnoc(s, x, key, k);
    } else {
      var n := |s| - 1;
      var init, last := s[..n], s[n];
      assert s == init + [last];
      OnKeyInsert(init, x, key, k);
      OnKeySnoc(Insert(init, x, key), last, key, k);
      OnKeySnoc(init, last, key, k);
      SwapEmpty(OnKey(init, key, k), if key(x) == k then [x] else [], if key(last) == k then [last] else []);
    }
  }

  /** The sort is stable: accounts with the same key, such as numbers that
      parse to the same value, keep their order in the input. */
  lemma {:induction false} SortByStable(list: seq<Account>, key: Key, k: Option<int>)
    ensures OnKey(SortBy(list, key), key, k) == OnKey(list, key, k)
  {
    if list != [] {
      var n := |list| - 1;
      SortByStable(list[..n], key, k);
      OnKeyInsert(SortBy(list[..n], key), list[n], key, k);
      OnKeySnoc(list[..n], list[n], key, k);
      assert list == list[..n] + [list[n]];
    }
  }

  /** `parseInt(accountNumber)` without a radix, the key of the account
      list. */
  function NumberKey(a: Account): Option<int> {
    ParseIntAuto(a.accountNumber)
  }

  /** `Object.values(accounts).sort((a, b) => parseInt(a.accountNumber) -
      parseInt(b.accountNumber))`, for the accounts in the record's order. */
  function SortByNumber(list: seq<Account>): seq<Account> {
    SortBy(list, NumberKey)
  }

  /** Where every key is a number, the sorted list ascends by key. */
  lemma SortedAscends(list: seq<Account>, key: Key, i: nat, j: nat)
    requires Numbered(list, key)
    requires i < j < |list|
    ensures key(SortBy(list, key)[i]).Some? && key(SortBy(list, key)[j]).Some?
    ensures key(SortBy(list, key)[i]).value <= key(SortBy(list, key)[j]).value
  {
    var r := SortBy(list, key);
    SortBySorted(list, key);
    assert r[i] in multiset(list) && r[j] in multiset(list);
    assert !Greater(r[i], r[j], key);
  }

  // ------------------------------------------------------------ search

  /** The search test: the number contains the term as typed, or the
      lower-cased name contains the lower-cased term. */
  predicate Passes(acc: Account, term: string) {
    Contains(acc.accountNumber, term) || Contains(ToLower(acc.accountName), ToLower(term))
  }

  /** The accounts that pass the search: `list.filter(...)`, which keeps
      their order and multiplicity (`FilteredAppend`, `RowsAll`). */
  function Filtered(list: seq<Account>, term: string): (r: seq<Account>)
    ensures forall a {:trigger a in r} :: a in r <==> a in list && Passes(a, term)
    ensures |r| <= |list|
  {
    Filter(list, a => Passes(a, term))
  }

  /** Filtering distributes over concatenation: the accounts that pass keep
      their relative order. */
  lemma FilteredAppend(a: seq<Account>, b: seq<Account>, term: string)
    ensures Filtered(a + b, term) == Filtered(a, term) + Filtered(b, term)
  {
    FilterAppend(a, b, acc => Passes(acc, term));
  }

  /** An empty search term lets every account through. */
  lemma EmptyTermPassesAll(list: seq<Account>)
    ensures Filtered(list, "") == list
  {
    forall i | 0 <= i < |list| ensures Passes(list[i], "") {
      ContainsEmpty(list[i].accountNumber);
    }
    FilterAll(list, a => Passes(a, ""));
  }

  /** The rows of the table: the first 100 of the sorted accounts that pass
      the search, all of them when fewer pass. */
  function Rows(list: seq<Account>, term: string): (r: seq<Account>)
    ensures var f := Filtered(SortByNumber(list), term);
      |r| == (if |f| <= 100 then |f| else 100) && r == f[..|r|]
  {
    Take(Filtered(SortByNumber(list), term), 100)
  }

  /** When at most 100 accounts pass, the table shows every passing account,
      as often as the list holds it. */
  lemma RowsAll(list: seq<Account>, term: string)
    requires |Filtered(list, term)| <= 100
    ensures multiset(Rows(list, term)) == multiset(Filtered(list, term))
  {
    FilterPermutation(SortByNumber(list), list, a => Passes(a, term));
    assert |Filtered(SortByNumber(list), term)| == |Filtered(list, term)| by {
      assert |multiset(Filtered(SortByNumber(list), term))| == |multiset(Filtered(list, term))|;
    }
  }

  /** Every row is an account of the list that passes the search. */
  lemma RowsPass(list: seq<Account>, term: string, a: Account)
    requires a in Rows(list, term)
    ensures a in list && Passes(a, term)
  {
    var sorted := SortByNumber(list);
    var f := Filtered(sorted, term);
    TakeMember(f, 100, a);
    assert a in multiset(sorted);
  }

  lemma TakeMember(s: seq<Account>, n: nat, a: Account)
    requires a in Take(s, n)
    ensures a in s
  {
    var r := Take(s, n);
    var i :| 0 <= i < |r| && r[i] == a;
    assert s[i] == a;
  }

  /** With every account number readable, the rows ascend by number. */
  lemma RowsSorted(list: seq<Account>, term: string)
    requires Numbered(list, NumberKey)
    ensures SortedBy(Rows(list, term), NumberKey)
  {
    var f := Filtered(SortByNumber(list), term);
    var r := Rows(list, term);
    SortBySorted(list, NumberKey);
    FilteredSorted(SortByNumber(list), term, NumberKey);
    forall i, j | 0 <= i < j < |r| ensures !Greater(r[i], r[j], NumberKey) {
      assert r[i] == f[i] && r[j] == f[j];
    }
  }

  /** Filtering keeps a sorted list sorted. */
  lemma {:induction false} FilteredSorted(list: seq<Account>, term: string, key: Key)
    requires SortedBy(list, key)
    ensures SortedBy(Filtered(list, term), key)
  {
    if list != [] {
      FilteredSorted(list[1..], term, key);
      var rest := Filtered(list[1..], term);
      if Passes(list[0], term) {
        forall y | y in rest ensures !Greater(list[0], y, key) {
          var k :| 0 <= k < |list[1..]| && list[1..][k] == y;
          assert list[k + 1] == y;
        }
        ConsSorted(list[0], rest, key);
      }
    }
  }

  /** A sorted list stays sorted when an account no greater than any of it
      is put in front. */
  lemma ConsSorted(x: Account, rest: seq<Account>, key: Key)
    requires SortedBy(rest, key)
    requires forall y :: y in rest ==> !Greater(x, y, key)
    ensures SortedBy([x] + rest, key)
  {
    var r := [x] + rest;
    forall i, j | 0 <= i < j < |r| ensures !Greater(r[i], r[j], key) {
      if i == 0 {
        assert r[j] in rest;
      } else {
        assert r[i] == rest[i - 1] && r[j] == rest[j - 1];
      }
    }
  }
}
