# Bilanztool-SKR04 in Dafny

Bilanztool-SKR04 reads a ledger export and builds a German balance sheet (Bilanz) and profit-and-loss statement (GuV). The statement follows the SKR04 chart of accounts. This project models the computational core of that tool in Dafny and proves properties about it:

- **Ledger ingestion.** `Ledger` and `Journal` model the row loop of `parseExcelFile`. Each row is read into a booking, and the primary account is credited. A mirror booking goes to the contra account. Each account's bookings are then sorted by date. `Journal.AccountBook` is a class whose methods update the account dictionary in place, as the source does.
- **Classifier.** `Skr04` holds the constant taxonomy `structureDefs`. It also holds `mapAccountToStructure`: a custom override first, then a first-match table of account-number ranges.
- **Aggregator.** `Report` and `ReportTree` model `generateFinancialReport`:
  - name overrides;
  - skipping near-zero accounts and routing every other account to a node or to the unassigned list;
  - sign normalisation;
  - profit and its injection into `ek_ergebnis`;
  - linking the tree, recomputing totals bottom-up, and the balance check.
- **KPI board.** `Kpi` models the KPI board:
  - the tree and account lookup behind `{{id}}` placeholders;
  - substitution, the character whitelist and the `null` results;
  - the KPI list edits;
  - drag-and-drop reordering;
  - the autocomplete state and the suggestion lists.
- **Account manager.** `AccountManager` models the override-table editor: name and structure edits, the sorted account list, the search filter and the 100-row cap. Its insertion sort is separate from `Journal`'s date sort. Dates always compare, so `Journal.SortByDate` is sorted for every input. An account number may not parse, and its comparator then ties, so `AccountManager.SortBy` is sorted only under `Numbered`.
- **JavaScript built-ins.** `JsText` and `JsNumber` model the built-ins the core relies on: `trim`, `toLowerCase`, `includes`, `indexOf`, `lastIndexOf`, `split`, `replace`, `parseInt`, `parseFloat` and `String(number)`. Their semantics are reduced to what the core's inputs exercise.

Amounts are exact `real`s. The tolerances 0.01 and 0.05 are the constants `Report.NearZero` and `Report.Tolerance`. A year is `Option<int>`, where `None` stands for JavaScript's `NaN`.

### Behaviour of the code worth knowing (the model follows the code)

- **Per-year amounts on report nodes.** Report nodes carry no per-year amounts: the node type has no such field (types.ts:23-31) and the generator sets none (services/skr04Service.ts:151-158). `getStructureValue` nevertheless reads `item.yearlyAmounts[year]` on a matching node (components/KPIBoard.tsx:93). That read throws, and the `catch` turns it into `null`. So in a generated report, every KPI formula that names a report position evaluates to `null`. `Kpi.GeneratedNoYearly`, `Kpi.GeneratedLookup` and `Kpi.PositionMakesNull` state this. Only account numbers resolve to values.
- **Near-zero test.** An account is skipped when its total balance is negligible; its yearly values play no part (services/skr04Service.ts:162). A skipped account lands neither in the tree nor in the unassigned list.
- **Unknown names.** An unknown placeholder name resolves to 0, except for names inherited from `Object.prototype` (`toString`, `constructor`, …). For those, `data.accounts[id]` is a function, so the yearly lookup throws and the formula becomes `null`.
- **Unrecognised dates.** A date value that is neither dotted text nor a serial above the threshold is shown as `String(val)` (services/excelService.ts:62), not as an empty string.
- **Account-number normalisation.** Normalisation strips only apostrophes, then trims, then strips leading zeros (services/excelService.ts:32-33); other grouping punctuation stays. Because trimming happens before zeros are stripped, normalising twice can differ from normalising once (`Ledger.NormAccTextTwice`). `getAccount` does normalise a second time (services/excelService.ts:82).
- **Not present in the code.** There is no per-year profit, no descending list of fiscal years, and no merging of several imports.
- **Numbers written with an exponent.** A value whose JavaScript string form uses exponent notation (|v| ≥ 1e21 or |v| < 1e-6) contains `e` after substitution. The whitelist then rejects it, and the formula gives `null` (`Kpi.ExponentMakesNull`).

## Model

| member | source | states |
|---|---|---|
| Skr04.IdsUnique | services/skr04Service.ts:3-53 | the 35 taxonomy ids are pairwise distinct |
| Skr04.DefIndex | services/skr04Service.ts:172-178 | looking an id up in the taxonomy finds the entry with that id, or proves that none has it |
| Skr04.DefIndexOf | services/skr04Service.ts:172-178 | the lookup of entry i's id yields i |
| Skr04.ParentIndexSound | services/skr04Service.ts:3-53 | an entry has no parent iff it is a root; otherwise its parent is an earlier entry, whose id is the declared parent |
| Skr04.ChildrenSound | services/skr04Service.ts:221-229 | the child list of p holds exactly the entries whose parent is p, in table order |
| Skr04.KindOfSound | services/skr04Service.ts:3-53 | the node-type helper agrees with the type declared in the table |
| Skr04.NonRoot | components/AccountManager.tsx:67 | an entry is kept iff its type is not ROOT; the result is no longer than the table (order and multiplicity: NonRootAppend, NonRootCount) |
| Skr04.Categories | components/AccountManager.tsx:67 | the selectable categories are exactly the non-ROOT taxonomy entries |
| Skr04.NonRootAppend | components/KPIBoard.tsx:32-33 | filtering out ROOT entries distributes over concatenation, so the kept entries stay in table order |
| Skr04.NonRootCount | components/KPIBoard.tsx:32-33 | every non-ROOT entry is kept as often as it occurs, and no ROOT entry is kept |
| Skr04.Classify | services/skr04Service.ts:57-65 | a custom mapping with a non-empty structureId wins unchanged; otherwise the default rules apply to parseInt of the number |
| Skr04.ClassifyNumberNone | services/skr04Service.ts:64-128 | the default rules give null iff the number does not parse or falls in an uncovered block (below 100, 2980-2999, 3150-3199, 4000-4099, 4500-4799, 8000-9999, or 100000 and above) |
| Skr04.ClassFirstMatch | services/skr04Service.ts:121-123 | within 7000-7999, 7300-7399 go to zinsen and 7600-7649 to steuern_er, ahead of the steuern_sonst rule |
| Skr04.OtherExpenseDetail | services/skr04Service.ts:100-118 | every number in [6300,7000) goes to one of the six children of sonst_aufw |
| Skr04.OtherExpenseRest | services/skr04Service.ts:100-118 | a number in [6300,7000) goes to sonst_aufw_rest iff no more specific sub-rule covers it |
| Skr04.ClassifyNumberIsCategory | services/skr04Service.ts:67-128 | a default classification is always the id of a non-ROOT taxonomy entry |
| Skr04.ClassifyNumberTarget | services/skr04Service.ts:67-128 | a default classification names a table entry, and that entry is one of the rule targets |
| Skr04.RuleTargetsInTable | services/skr04Service.ts:67-128 | every rule target is a non-ROOT table entry |
| Skr04.RuleTargetsOrdinary | services/skr04Service.ts:67-128 | no default rule targets a root or ek_ergebnis |
| Skr04.ErgebnisId | services/skr04Service.ts:210 | the entry receiving the profit is ek_ergebnis |
| Report.Renamed | services/skr04Service.ts:139-146 | accounts with a mapping whose name is non-empty take that name; every other account and the key set are unchanged |
| Report.RenamedIdempotent | services/skr04Service.ts:139-146 | applying the name overrides twice equals applying them once |
| Report.ApplyNameOverrides | services/skr04Service.ts:139-146 | the loop over the mapping's keys yields the renamed accounts |
| Report.RouteSkipSound | services/skr04Service.ts:162 | an account is skipped iff its absolute balance is below 0.01 |
| Report.RouteAttachSound | services/skr04Service.ts:161-177 | an account is attached to entry k iff it is not skipped and its classification is k's id |
| Report.UnassignedSound | services/skr04Service.ts:164-176 | an account is unassigned iff it is not skipped and its classification is null, empty, or names no entry |
| Report.RouteBranches | services/skr04Service.ts:161-179 | the three outcomes of the per-account callback, branch by branch |
| Report.DefaultRoute | services/skr04Service.ts:164-176 | without an override, an attached account always lands on a rule target |
| Report.OverrideRoute | services/skr04Service.ts:59-61 | with an override, an attached account lands on the entry named by the override |
| Report.RouteAccount | services/skr04Service.ts:161-179 | the per-account callback computes the route |
| Report.DisplayedByType | services/skr04Service.ts:181-184 | the displayed amount is the negated balance under PASSIVA and GUV_ERTRAG nodes, and the balance otherwise |
| Report.DisplayedTwice | services/skr04Service.ts:181-184 | sign normalisation is an involution, and it maps opposite balances to opposite amounts |
| Report.Shown | services/skr04Service.ts:187 | the attached copy equals the account except for its balance, which is the displayed amount |
| Report.ApplyRoute | services/skr04Service.ts:167-188 | skip changes nothing; unassigned appends the account; attach appends the copy to node k and adds the displayed amount to k's amount |
| Report.AttachAccounts | services/skr04Service.ts:161-189 | after the loop, each node holds exactly the copies of the accounts routed to it, and its amount is their sum; the unassigned list is exactly the unassigned accounts in order |
| Report.AttachNext | services/skr04Service.ts:161-189 | one more account of the list is attached along its route: each node holds exactly the copies routed to it so far and their sum, and the unassigned list grows only by an unassigned account |
| Report.AttachedSum | services/skr04Service.ts:186-188 | a node's accumulated amount is the sign-normalised sum of the raw balances routed to it |
| Report.AttachedMembers | services/skr04Service.ts:186-187 | an account copy sits under node k iff some account was routed to k and the copy is its shown form |
| Report.UnassignedMembers | services/skr04Service.ts:167-176 | an account is in the unassigned list iff it was routed there |
| Report.RoutePartition | services/skr04Service.ts:161-176 | every account's balance is counted exactly once: in a node, in the unassigned list, or among the skipped ones |
| Report.RoutedByRoutes | services/skr04Service.ts:161-176 | the routes recorded by the loop are the routes of the accounts |
| Report.GuvBalance | services/skr04Service.ts:195-206 | the loop over the GuV entries sums the original (un-normalised) balances of their accounts |
| Report.OriginalOfSum | services/skr04Service.ts:199-203 | undoing sign normalisation per account equals undoing it on the sum |
| Report.ProfitIsEarned | services/skr04Service.ts:208 | profit, the negated raw GuV balance, equals displayed revenue minus displayed expense |
| Report.ResultAccount | services/skr04Service.ts:213-218 | the synthetic account is `JÜ` with the profit as its balance and no bookings, named Jahresüberschuss iff the profit is non-negative |
| Report.Booked | services/skr04Service.ts:210-219 | ek_ergebnis ends with exactly the synthetic account; every other node keeps its accounts |
| Report.AttachAndBook | services/skr04Service.ts:161-219 | attachment, profit and injection together give the booked nodes, their own amounts, the unassigned list and the profit |
| Report.TotalsSumUp | services/skr04Service.ts:235-243 | each node with children ends with the sum of its children's amounts plus its own accounts' balances; each leaf ends with its own amount |
| Report.ItemShape | services/skr04Service.ts:148-158 | the materialised node k has k's id, its total, its accounts and its children in table order |
| Report.ItemConsistent | services/skr04Service.ts:235-243 | the materialised subtree satisfies the totals invariant at every node |
| Report.LinkAndTotal | services/skr04Service.ts:221-245 | linking and calculateTotals give the totals function of the booked accounts |
| Report.GenerateFinancialReport | services/skr04Service.ts:131-277 | the generator's result is the report function of the accounts, their enumeration order and the mapping |
| Report.ReportConsistent | services/skr04Service.ts:235-245 | in every generated report, aktiva, passiva and GuV satisfy the totals invariant |
| Report.ReportProfit | services/skr04Service.ts:191-219 | the reported profit is displayed revenue minus displayed expense, and ek_ergebnis carries it as its amount and as its only account |
| Report.ErgebnisTotal | services/skr04Service.ts:210-212 | recomputing totals leaves ek_ergebnis's amount at the profit |
| Report.ResultItem | services/skr04Service.ts:210-233 | ek_ergebnis is reached under passiva, and it has the profit as its amount and the synthetic account as its only account |
| Report.AktivaSide | services/skr04Service.ts:254 | the aktiva total is the sum of the raw balances routed to aktiva nodes |
| Report.PassivaSide | services/skr04Service.ts:255 | the passiva total is the negated sum routed to passiva nodes, with the profit in place of ek_ergebnis |
| Report.CheckDiff | services/skr04Service.ts:254-269 | when nothing is routed to a root or to ek_ergebnis, aktiva minus passiva is the sum of all balances less the unassigned and the skipped ones |
| Report.RouteAvoidsSpecial | services/skr04Service.ts:59-61 | unless an override names a root or ek_ergebnis, no account is attached there |
| Report.ReportBalance | services/skr04Service.ts:247-271 | the balance check's diff is total balance minus unassigned minus skipped, and balanced holds iff abs(diff) < 0.05 |
| ReportTree.TableSize | services/skr04Service.ts:3-53 | the taxonomy has 35 entries |
| ReportTree.UnderSomeRoot | services/skr04Service.ts:221-233 | every entry lies under one of the roots aktiva_root, passiva_root, guv_root |
| ReportTree.SubtreeSplit | services/skr04Service.ts:221-233 | an entry other than k lies in k's subtree iff it lies in the subtree of one of k's children |
| ReportTree.LinkItems | services/skr04Service.ts:221-233 | the linking loop builds each node's child list in table order, collects the roots, and leaves leaf amounts unchanged |
| ReportTree.LinkAll | services/skr04Service.ts:221-233 | after the loop over all positions, every child list and the root list are complete and leaf amounts are unchanged |
| ReportTree.FindParent | services/skr04Service.ts:222-225 | finds the position of an entry's parent, and none exactly for the roots |
| ReportTree.LinkEnd | services/skr04Service.ts:221-233 | after the last entry, the child lists built are the taxonomy's child lists |
| ReportTree.ChildListsTree | services/skr04Service.ts:221-233 | every child comes later in the table than its parent, and each subtree below its root is the union of its children's subtrees |
| ReportTree.CalculateTotals | services/skr04Service.ts:235-243 | the recursive pass returns the subtree total and overwrites exactly the inner amounts of that subtree with their totals |
| ReportTree.TotalChildren | services/skr04Service.ts:237 | after the reduce over a node's children, every child subtree is recomputed and the sum is the sum of the children's totals |
| ReportTree.TotalRoots | services/skr04Service.ts:245 | after the pass over the roots, every node's amount is its subtree total |
| ReportTree.SameLeavesTotal | services/skr04Service.ts:235-243 | a subtree total depends only on the leaf amounts, not on the partial sums added while linking |
| ReportTree.TotalRange | services/skr04Service.ts:235-245 | a subtree total is the sum of the own amounts over that subtree's contiguous block of the table |
| Ledger.OrElse | services/excelService.ts:112-114 | the result is the cell or the fallback; it is the cell whenever the cell is truthy, and it is truthy iff either of the two is |
| Ledger.Get | services/excelService.ts:112 | reading a column the row lacks gives the empty value (the first matching column wins: GetFirst) |
| Ledger.GetFirst | services/excelService.ts:112 | when several columns have the key, the first one is read |
| Ledger.ParseAmount | services/excelService.ts:5-27 | empty and non-string, non-number cells give 0; numbers are returned unchanged; blank or unparsable strings give 0 |
| Ledger.ParseAmountClean | services/excelService.ts:9-24 | for a trimmed string, the amount is parseFloat of the normalised text, or 0 |
| Ledger.NormalizeCommaAt | services/excelService.ts:20-23 | with only a comma, the comma becomes a dot |
| Ledger.ParseAmountDecimalComma | services/excelService.ts:20-24 | `i,f` parses as the decimal i.f |
| Ledger.NormalizeBothAt | services/excelService.ts:12-19 | with both separators, a last comma makes dots vanish and the first comma a dot; a last dot makes commas vanish |
| Ledger.ParseAmountGerman | services/excelService.ts:12-15 | `a.b,f` parses as the decimal ab.f |
| Ledger.ParseAmountUS | services/excelService.ts:16-19 | `a,b.f` parses as the decimal ab.f |
| Ledger.ParseAmountOfNumberText | services/excelService.ts:5-24 | a number and its JavaScript string form parse to the same amount |
| Ledger.NormAcc | services/excelService.ts:30-34 | the result is never empty, has no apostrophe, starts with 0 only if it is `0`, and is `0` for a falsy cell |
| Ledger.NormAccDigits | services/excelService.ts:30-34 | a digit string normalises to the canonical decimal form of its value |
| Ledger.NormAccDigitsSame | services/excelService.ts:30-34 | two digit strings normalise alike iff they denote the same number |
| Ledger.NormAccTextTwice | services/excelService.ts:32-33 | normalising `0 5` gives ` 5`, and normalising again gives `5` |
| Ledger.ParseDate | services/excelService.ts:37-63 | a falsy value gives an empty display, raw 0 and year 0; dotted text is kept as display with raw 0, its year being radix-less parseInt of the third part when there are exactly three parts, else 0; any other value whose radix-less parseInt exceeds 10000 becomes that serial date; every remaining value is shown as its string with raw 0 and year 0 |
| Ledger.ParseDateSerial | services/excelService.ts:47-59 | a whole number above 10000 is read as a serial date |
| Ledger.DateTextPieces | services/excelService.ts:42 | a DD.MM.YYYY date splits at the dots into day, month and year |
| Ledger.ParseDateOfText | services/excelService.ts:40-44 | DD.MM.YYYY text is displayed as given, with raw 0 and its year read back |
| Ledger.FindKeyFirst | services/excelService.ts:96-98 | the result is the first column whose lower-cased name contains the lower-cased term, or none if no column does |
| Ledger.ResolveColumns | services/excelService.ts:104-110 | the account column is the `konto` match only when no column matches `gegen`, and `Kontonummer` otherwise |
| Ledger.ReadRow | services/excelService.ts:112-141 | a row yields a booking iff its account, debit or credit cell is truthy; the booking's id is that of the row's position |
| Ledger.RowBooking | services/excelService.ts:125-139 | the booking carries the row id and an empty second document reference (the other fields: RowBookingFields) |
| Ledger.RowBookingFields | services/excelService.ts:118-139 | the booking takes date, raw date and year from parseDate of the date column, konto and gegenkonto from normAcc, soll and haben from parseAmount of their columns |
| Ledger.DecimalNumeral | services/excelService.ts:24 | digits, a point and digits read as the decimal they denote |
| Ledger.AdmittedCells | services/excelService.ts:112-116 | a row is kept iff its account, debit or credit cell is truthy |
| Ledger.Mirror | services/excelService.ts:159-167 | the mirror booking swaps accounts and amounts, so its delta is the negated delta; it has id `…-mirror` and the same date and year |
| Ledger.RowIdInjective | services/excelService.ts:125 | different row positions give different booking ids |
| Journal.YearlyOfSums | services/excelService.ts:147-157 | the yearly buckets exist exactly for the years booked, and each holds the sum of that year's deltas |
| Journal.AccountKeyIsNormAcc | services/excelService.ts:82 | accounts are keyed by the normalised account text |
| Journal.NewAccountEmpty | services/excelService.ts:84-90 | a new account is named `Konto <id>` with balance 0, no yearly buckets and no bookings |
| Journal.CreditAccountOf | services/excelService.ts:145-148 | posting a booking to an account gives the account of its bookings extended by that booking |
| Journal.PostingsNonEmpty | services/excelService.ts:144-168 | an account receives postings iff some booking names it as primary account or as a real contra account |
| Journal.SumDeltasPostingsOf | services/excelService.ts:145-157 | one booking adds soll−haben to its primary account and haben−soll to its contra account |
| Journal.BalancesNet | services/excelService.ts:143-168 | summed over all accounts, the postings give the net of the journal: zero for every row with a contra account |
| Journal.SortByDate | services/excelService.ts:172-174 | sorting yields bookings in ascending date order that are a permutation of the input |
| Journal.InsertSorted | services/excelService.ts:173 | inserting into a date-sorted list keeps it sorted |
| Journal.SortByDateStable | services/excelService.ts:173 | sorting keeps the relative order of bookings with the same date |
| Journal.SortByDateSums | services/excelService.ts:172-174 | sorting changes neither the total nor any year's sum of deltas |
| Journal.SortedAccount | services/excelService.ts:172-174 | sorting an account's bookings leaves its balance and yearly buckets as they were |
| Journal.JournalIds | services/excelService.ts:100-125 | the journal's booking ids are the ids of the admitted row positions, in order |
| Journal.JournalIdsDistinct | services/excelService.ts:100-125 | booking ids within one import are pairwise distinct |
| Journal.BookOfAt | services/excelService.ts:81-168 | an account exists iff it received a posting, and it is then the account of exactly its postings |
| Journal.SortedBookAt | services/excelService.ts:172-174 | after sorting, each account is the account of its postings in date order |
| Journal.SortedBookTotal | services/excelService.ts:143-174 | the balances of all accounts sum to the net of the journal |
| Journal.AccountBook.constructor | services/excelService.ts:77-78 | ingestion starts with no bookings, no accounts and row index 0 |
| Journal.AccountBook.GetAccount | services/excelService.ts:81-93 | returns the normalised id and creates the account under it only if it is missing |
| Journal.AccountBook.Post | services/excelService.ts:143-168 | appends the booking to the journal, credits the primary account and, for a real contra account, the mirror; the dictionary stays the account book of the journal |
| Journal.AccountBook.AddRow | services/excelService.ts:101-169 | increments the row index and appends the row's booking, if the row is admitted |
| Journal.AccountBook.TotalBalance | services/excelService.ts:143-168 | the balances of all accounts sum to the net of the journal |
| Journal.AccountBook.SortBookings | services/excelService.ts:171-174 | sorts every account's bookings by date and changes nothing else |
| Journal.SortAll | services/excelService.ts:172-174 | sorting each listed account in turn gives every account its bookings in date order |
| Journal.SortedPrefixStep | services/excelService.ts:172-174 | sorting one more account extends the book sorted so far by exactly that account |
| Journal.AccountBook.CreditTo | services/excelService.ts:144-167 | credits one booking to the normalised account, creating it if missing, and changes neither the journal nor the row index |
| Journal.YearlyTotal | services/excelService.ts:146-147 | summed over any distinct years covering every booking's year, the yearly buckets of a list of bookings give the sum of its deltas |
| Journal.AccountYearlyTotal | services/excelService.ts:146-157 | summed over any distinct years covering its buckets, an account's yearly balances give its balance |
| Journal.AccountBook.BalanceIsYearlySum | services/excelService.ts:146-157 | in the book built by ingestion, every account's yearly balances sum to its balance |
| Journal.ParseRows | services/excelService.ts:100-174 | the row loop yields the journal of the rows and the date-sorted account book of that journal; the account keys are distinct, and the balances sum to the net of the journal |
| JsText.Trim | services/excelService.ts:9 | the result is the slice of the text that starts where the leading whitespace ends, and it neither starts nor ends with whitespace |
| JsText.TrimTail | services/excelService.ts:9 | everything after the trimmed text is whitespace; with Trim and TrimStart this makes the result exactly the text between the leading and the trailing whitespace |
| JsText.TrimIdempotent | services/excelService.ts:9 | trimming a trimmed text changes nothing |
| JsText.ToLower | components/AccountManager.tsx:21 | lower-casing maps every character on its own, through the Basic Latin and Latin-1 case mapping |
| JsText.IndexOf | services/excelService.ts:22 | the first occurrence, or -1 when the text does not occur |
| JsText.LastIndexOf | services/excelService.ts:13 | the last occurrence, or -1 |
| JsText.ContainsIff | components/AccountManager.tsx:20 | includes holds iff the text occurs at some position |
| JsText.RemoveAll | services/excelService.ts:15-18 | a global replace by the empty string removes that character and keeps every other one |
| JsText.ReplaceFirst | services/excelService.ts:15-22 | a non-global replace changes only the first occurrence |
| JsText.StripLeadingZeros | services/excelService.ts:33 | removes exactly the leading zeros |
| JsText.SplitJoin | services/excelService.ts:42 | joining the parts of a split restores the text |
| JsText.SplitCount | services/excelService.ts:42-43 | a split gives one more part than there are separators |
| JsText.ParseInt | services/skr04Service.ts:55 | parseInt fails iff no digit follows the optional whitespace and sign |
| JsText.ParseIntDigits | services/skr04Service.ts:55 | a string of decimal digits is read as their value |
| JsText.ParseIntMinus | services/skr04Service.ts:55 | a minus sign before decimal digits negates their value |
| JsText.ParseIntAuto | components/AccountManager.tsx:16 | parseInt without a radix fails on a 0x prefix iff no hexadecimal digit follows it |
| JsText.ParseIntAutoOfString | components/AccountManager.tsx:16 | parseInt without a radix reads back the string of any whole number |
| JsText.ParseIntAutoHex | services/excelService.ts:43 | a 0x year is read in hexadecimal (0x7E8 is 2024), where parseInt with radix 10 reads 0 |
| JsText.Filter | components/AccountManager.tsx:19 | an element is kept iff it satisfies the predicate; the result is no longer than the input |
| JsText.FilterAppend | components/AccountManager.tsx:19 | Array.prototype.filter distributes over concatenation |
| JsText.FilterCount | components/AccountManager.tsx:19 | a kept element occurs as often as in the input; a rejected one not at all |
| JsText.FilterAll | components/AccountManager.tsx:19 | when every element satisfies the predicate, nothing is removed |
| JsText.FilterPermutation | components/AccountManager.tsx:16-19 | filtering permutations of a list gives permutations of the result |
| JsText.SplitFirst | services/excelService.ts:42 | splitting at the first separator gives the text before it, then the split of the rest |
| JsText.ParseIntOfString | services/skr04Service.ts:55 | parseInt reads back the decimal form of every integer |
| JsText.Take | components/AccountManager.tsx:106 | slice(0, n) keeps the first min(n, length) elements |
| JsNumber.ParseFloat | services/excelService.ts:24 | parseFloat fails iff no digits precede or follow the decimal point |
| JsNumber.ParseFloatMinus | services/excelService.ts:24 | a leading minus sign negates the value the rest reads as |
| JsNumber.StringOfWhole | components/KPIBoard.tsx:120 | a positive whole number below 1e21 is written as its decimal digits |
| JsNumber.NumberToStringAlphabet | components/KPIBoard.tsx:120-123 | in the fixed range, String(v) uses only digits, `.` and `-`; outside it, it contains `e` |
| JsNumber.ParseFloatOfNumberToString | components/KPIBoard.tsx:120 | parseFloat reads back String(v) for every decimal v in the fixed range |
| JsNumber.FixedValue | components/KPIBoard.tsx:120 | the integer and fraction digits of the fixed form denote v |
| Kpi.FirstMatch | components/KPIBoard.tsx:92-100 | the search misses iff no node in the list has the id |
| Kpi.FindIsFirstMatch | components/KPIBoard.tsx:92-101 | the recursive search returns the first node, in pre-order, whose id matches |
| Kpi.FindMissIff | components/KPIBoard.tsx:92-101 | the search returns null iff no node of the tree has the id |
| Kpi.TreeLookupOrder | components/KPIBoard.tsx:103-105 | the `??` chain searches aktiva, then passiva, then GuV, as one pre-order list |
| Kpi.StructureValue | components/KPIBoard.tsx:91-115 | a matching node gives its yearly amount (0 if the year is absent) or throws without per-year amounts; otherwise the account's yearly balance (0 if absent); names inherited from Object.prototype throw; otherwise 0 |
| Kpi.ItemNoYearly | services/skr04Service.ts:151-158 | no generated node carries per-year amounts |
| Kpi.GeneratedNoYearly | services/skr04Service.ts:151-158 | none of a generated report's trees carries per-year amounts |
| Kpi.NoYearlyNoHit | components/KPIBoard.tsx:93 | in such a tree the search never yields a value |
| Kpi.GeneratedLookup | components/KPIBoard.tsx:91-115 | on generated trees the lookup fails iff the name is a node id or an inherited name not among the accounts |
| Kpi.PlaceholderAt | components/KPIBoard.tsx:119 | a recognised placeholder is `{{name}}` with a non-empty name of letters, digits and `_` |
| Kpi.PlaceholderAtFinds | components/KPIBoard.tsx:119 | every such placeholder at the start of the text is recognised |
| Kpi.Segments | components/KPIBoard.tsx:119 | cutting the formula into text and placeholders loses nothing, and every reference is a valid name |
| Kpi.SegmentsPlain | components/KPIBoard.tsx:119 | a formula without placeholders is all text |
| Kpi.RenderFails | components/KPIBoard.tsx:119-121 | substitution throws iff some placeholder's lookup throws |
| Kpi.SubstitutePlain | components/KPIBoard.tsx:119-121 | a formula without placeholders is left unchanged |
| Kpi.RenderKeepsExponent | components/KPIBoard.tsx:120 | a value printed with an exponent leaves an `e` in the substituted text |
| Kpi.EvaluateFormula | components/KPIBoard.tsx:117-130 | a failed lookup or a character outside the whitelist gives null; a result is the evaluator's value of the whitelisted text |
| Kpi.ArithmeticFormula | components/KPIBoard.tsx:123-126 | a whitelisted formula without placeholders is handed to the evaluator unchanged |
| Kpi.PositionMakesNull | components/KPIBoard.tsx:91-129 | on a generated report, a formula naming any report position gives null |
| Kpi.ExponentMakesNull | components/KPIBoard.tsx:120-123 | a value outside String's fixed-notation range makes the formula null |
| Kpi.WithField | components/KPIBoard.tsx:167 | setting a field changes that field only |
| Kpi.UpdateKpi | components/KPIBoard.tsx:166-168 | the list keeps its length; KPIs with the id get the new field value; every other field and KPI is unchanged |
| Kpi.UpdateIdempotent | components/KPIBoard.tsx:166-168 | updating twice equals updating once |
| Kpi.Without | components/KPIBoard.tsx:172 | a KPI remains iff it was in the list and its id differs |
| Kpi.WithoutCounts | components/KPIBoard.tsx:172 | KPIs with other ids keep their multiplicity; those with the id are gone |
| Kpi.WithoutAppend | components/KPIBoard.tsx:172 | filtering distributes over concatenation, so the remaining order is kept |
| Kpi.DeleteKpi | components/KPIBoard.tsx:170-174 | without confirmation nothing changes; with it, exactly the KPIs with the id are removed |
| Kpi.Moved | components/KPIBoard.tsx:212-214 | the moved list has the same length and has the dragged item at the drop index |
| Kpi.MovedIsSplices | components/KPIBoard.tsx:212-214 | removing at the source and inserting at the target gives the moved list |
| Kpi.MovedPermutes | components/KPIBoard.tsx:212-214 | moving keeps the multiset of KPIs |
| Kpi.MovedKeepsOrder | components/KPIBoard.tsx:212-214 | the other KPIs keep their relative order |
| Kpi.MovedBack | components/KPIBoard.tsx:212-214 | dragging back from the target to the source restores the list |
| Kpi.PerformDrop | components/KPIBoard.tsx:209-219 | with nothing dragged or with source equal to target, nothing changes; otherwise the list is the moved list and the drag state is cleared |
| Kpi.Before | components/KPIBoard.tsx:66 | slice(0, pos) is the prefix of length min(pos, length) |
| Kpi.After | components/KPIBoard.tsx:84 | the prefix and slice(pos) make up the text |
| Kpi.OpenQuerySpec | components/KPIBoard.tsx:68 | the regex matches iff some `{{` is followed by no `}` up to the end; the query is the rest after the leftmost such `{{` |
| Kpi.OpenQueryEnds | components/KPIBoard.tsx:68-71 | the text before the cursor ends with `{{` and the query, and the query has no `}` |
| Kpi.HandleInputCheck | components/KPIBoard.tsx:59-75 | the formula is updated and the cursor stored; the board is active with the query iff the regex matches, and inactive otherwise |
| Kpi.Completed | components/KPIBoard.tsx:79-82 | completion is impossible iff no `{{` precedes the cursor |
| Kpi.CompletedShape | components/KPIBoard.tsx:79-85 | the text from the last `{{` before the cursor up to the cursor is replaced by `{{id}}`, with prefix and suffix kept |
| Kpi.HandleSuggestionClick | components/KPIBoard.tsx:77-89 | with a `{{` before the cursor the formula is completed; otherwise it is unchanged; in both cases the board becomes inactive |
| Kpi.TypeThenComplete | components/KPIBoard.tsx:59-89 | after typing an open query, clicking a suggestion replaces exactly `{{` and the query |
| Kpi.StructureOptions | components/KPIBoard.tsx:32-34 | one structure suggestion per non-ROOT entry, in table order, with its id and label |
| Kpi.AccountOptions | components/KPIBoard.tsx:36-40 | one account suggestion per account, with its number and name |
| Kpi.SuggestionsSound | components/KPIBoard.tsx:31-43 | every suggestion comes from a non-ROOT entry or from an account, with matching id and label |
| Kpi.Matching | components/KPIBoard.tsx:54-55 | a suggestion is kept iff its lower-cased id or label contains the query; the result is no longer than the input (order: MatchingAppend) |
| Kpi.MatchingAppend | components/KPIBoard.tsx:54-55 | matching distributes over concatenation, so the matches keep the suggestion order |
| Kpi.FilteredSuggestions | components/KPIBoard.tsx:45-57 | no active KPI (absent or empty id) gives none; an empty query gives the first 50 suggestions in order; otherwise the first 10 matches of the lower-cased query, in order |
| Kpi.FilteredSound | components/KPIBoard.tsx:53-56 | with an active KPI and a query, at most 10 suggestions, all matching; when there are at most 10 matches, every match is shown |
| AccountManager.HandleNameChange | components/AccountManager.tsx:24-30 | only key id changes: its name becomes the new name, and its structureId (or none) is kept |
| AccountManager.HandleStructureChange | components/AccountManager.tsx:32-38 | only key id changes: its structureId becomes the new value, and its name is kept |
| AccountManager.NameChangeKeepsPositions | components/AccountManager.tsx:24-30 | renaming never changes any account's classification |
| AccountManager.NameChangeShown | components/AccountManager.tsx:24-30 | the report shows the new name for id (the old one if the new name is empty) and leaves every other account as it was |
| AccountManager.StructureChangeClassifies | components/AccountManager.tsx:32-38 | id is classified to the new structure, or by the default rules when the value is empty; other accounts are unaffected |
| AccountManager.StructureChangeKeepsNames | components/AccountManager.tsx:32-38 | a structure change leaves every displayed name as it was |
| AccountManager.RowAgreesWithReport | components/AccountManager.tsx:107-109 | the row shows the name the report uses; its structure is empty iff no override applies, and otherwise is the classification |
| AccountManager.Insert | components/AccountManager.tsx:16 | insertion adds exactly the one account |
| AccountManager.InsertSorted | components/AccountManager.tsx:16 | inserting an account with a number into a sorted list of numbered accounts keeps it sorted |
| AccountManager.SortBy | components/AccountManager.tsx:16 | sorting yields a permutation of the accounts |
| AccountManager.SortBySorted | components/AccountManager.tsx:16 | when every account number parses, the result ascends by number |
| AccountManager.SortByStable | components/AccountManager.tsx:16 | the sort is stable: accounts whose numbers parse to the same value, such as `1200` and `1200A`, keep their input order |
| AccountManager.SortedAscends | components/AccountManager.tsx:16 | any two positions of the sorted list are in ascending parseInt order |
| AccountManager.Filtered | components/AccountManager.tsx:19-22 | an account passes iff its number contains the term or its lower-cased name contains the lower-cased term; the result is no longer than the list (order: FilteredAppend) |
| AccountManager.FilteredAppend | components/AccountManager.tsx:19-22 | filtering distributes over concatenation, so passing accounts keep their order |
| AccountManager.EmptyTermPassesAll | components/AccountManager.tsx:19-22 | an empty search shows every account |
| AccountManager.FilteredSorted | components/AccountManager.tsx:16-22 | filtering keeps the list sorted |
| AccountManager.Rows | components/AccountManager.tsx:106 | the rows are the first 100 (or all, if fewer) of the filtered, number-sorted list, in order |
| AccountManager.RowsAll | components/AccountManager.tsx:106 | when at most 100 accounts pass, the rows are exactly the passing accounts, each as often as it occurs |
| AccountManager.RowsPass | components/AccountManager.tsx:19-22 | every shown row is an account that passes the filter |
| AccountManager.RowsSorted | components/AccountManager.tsx:16 | shown rows ascend by account number when all numbers parse |

## Left out

- **Spreadsheet decoding and async plumbing** (`XLSX.read`, `sheet_to_json`, `FileReader`, `Promise`). The model starts from the tabulated rows: a row is an ordered list of (column name, cell) pairs, because `findKey` depends on key order.
- **Serial-date conversion through `Date`.** It depends on the time zone and calendar. The conversion is the parameter `calendar`. Only the threshold, the epoch offset and the zero-padded display are modelled.
- **Floating-point behaviour** of `parseFloat`, `String(number)` and summation. Amounts are exact reals. Infinity and NaN values are not represented: a number is either a real or absent.
- **`parseFloat` and `String(number)`** are modelled for decimal numerals with an optional exponent (`5e3` and `5.e3` read as 5000), but without `Infinity`. `String(v)` is exact for decimals in [1e-6, 1e21) and is only known to contain `e` outside that range.
- Kpi.Before, Kpi.After, Kpi.HandleInputCheck, Kpi.HandleSuggestionClick: the cursor position and `slice` count characters (Unicode scalar values), where JavaScript counts UTF-16 code units. On a formula with a character outside the Basic Multilingual Plane before the cursor, such as an emoji, the model cuts the text at a different place than the program does. The same holds for every string position in `JsText` (`indexOf`, `lastIndexOf`, `slice`).
- **`new Function` evaluation** is foreign dynamic code. It is the evaluator parameter `run`, applied only to whitelisted text. Division by zero and syntax errors are whatever `run` returns.
- **Number formatting with `Intl`** (`formatValue`) is left out.
- **Rendering and UI:** JSX, drag visuals and `onDragStart`/`onDragOver`/`onDragEnd` are left out. `confirm` in `deleteKPI` is the parameter `confirmed`; `alert` is left out.
- **JSON import and export** of KPI definitions and of the mapping are left out, and so is `addKPI`, whose only logic is a `Date.now()` id.
- **Enumeration order.** `Object.values` order of the account dictionary is the parameter `order` (aggregator) or the order of the given account list (suggestions, account manager).
- **Mutating the caller's dictionary.** The generator renames the caller's accounts in place. The model returns the renamed accounts and uses them for the report's `accounts`.
- **Partial link-time sums.** The amounts added to parents while linking are not kept: `calculateTotals` overwrites every inner node, and `ReportTree.SameLeavesTotal` shows that only leaf amounts matter. The tree is materialised from index tables after the totals are known.
- **Unreachable guard.** The guard `if (!def) return;` (services/skr04Service.ts:179) cannot fire, because the item lookup already succeeded, so it has no model.
- **The synthetic `JÜ` account** has empty yearly balances: the source gives it no `yearlyBalances` field.
- **Prototype keys.** Account keys such as `__proto__`, which JavaScript objects treat specially, are ordinary map keys here.
- Kpi.PerformDrop: requires both indices to be inside the list when a move happens; out-of-range `splice` behaviour is not modelled.
- AccountManager.SortBy: when some account number does not parse, the comparator returns NaN and the JavaScript order is implementation-defined. The model treats NaN as a tie. It proves the permutation and stability for every list, and sortedness only when every number parses.
- **Per-year report totals, merging of imports and the year axis** are not in the code, so they are not modelled.
- JsText.ToLower: maps only Basic Latin and Latin-1 capitals (À–Þ except ×); other Unicode case mappings, including those that change the string's length (such as İ), are not modelled.
- JsNumber.SmallForm: the exponent digits are searched up to the constant bound 324 (the smallest JavaScript number is about 5e-324); a smaller exact real would be written with that bound reached rather than its true exponent.
- JsText.ParseIntAuto: the `0x` prefix is the only radix detection modelled; leading `0` does not mean octal, as in current JavaScript.
- AccountManager.NumberKey: the sort key is radix-less `parseInt`, so `0x`-prefixed account numbers sort by their hexadecimal value.
