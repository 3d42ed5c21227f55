/** The KPI board: user-defined ratios whose formulas name report positions
    or accounts in double braces, `{{id}}`. A formula is evaluated per year
    by looking every name up in the generated statement, writing the values
    into the text and handing the text, if it consists of arithmetic
    characters only, to the script engine. The board also edits its list of
    KPIs: reordering by drag and drop, name completion, update and delete. */
module Kpi {
  import opened Wrappers
  import opened JsText
  import opened JsNumber
  import opened Types
  import Skr04
  import Report
  import ReportTree

  // ------------------------------------------------------------ tree lookup

  /** The outcome of searching a tree for a position: not there, its value,
      or a `TypeError`, thrown when the position has no per-year amounts. */
  datatype Search = Miss | Hit(v: real) | Fault

  /** What a matching position yields for `year`: its per-year amount, 0
      when that year is missing; reading a position without per-year
      amounts throws. */
  function NodeValue(node: ReportItem, year: int): Search {
    match node.yearlyAmounts
    case None => Fault
    case Some(m) => Hit(if year in m then m[year] else 0.0)
  }

  /** The recursive tree search: the node itself, then its children in
      order, the first result other than "not there" winning. */
  function FindInTree(item: ReportItem, id: string, year: int): Search
    decreases item
  {
    if item.id == id then NodeValue(item, year)
    else FindInChildren(item.children, id, year)
  }

  function FindInChildren(cs: seq<ReportItem>, id: string, year: int): Search
    decreases cs
  {
    if cs == [] then Miss
    else
      var res := FindInTree(cs[0], id, year);
      if !res.Miss? then res else FindInChildren(cs[1..], id, year)
  }

  /** The tree contains a position with identifier `id`. */
  predicate HasId(item: ReportItem, id: string)
    decreases item
  {
    item.id == id || exists i :: 0 <= i < |item.children| && HasId(item.children[i], id)
  }

  /** The positions of a tree in pre-order: each node before its children. */
  function Preorder(item: ReportItem): (r: seq<ReportItem>)
    ensures r != [] && r[0] == item
    decreases item
  {
    [item] + PreorderAll(item.children)
  }

  function PreorderAll(cs: seq<ReportItem>): seq<ReportItem>
    decreases cs
  {
    if cs == [] then [] else Preorder(cs[0]) + PreorderAll(cs[1..])
  }

  /** A linear scan: the value of the first node of `nodes` named `id`. */
  function FirstMatch(nodes: seq<ReportItem>, id: string, year: int): (r: Search)
    ensures r.Miss? <==> forall i :: 0 <= i < |nodes| ==> nodes[i].id != id
  {
    if nodes == [] then Miss
    else if nodes[0].id == id then NodeValue(nodes[0], year)
    else FirstMatch(nodes[1..], id, year)
  }

  lemma {:induction false} FirstMatchAppend(a: seq<ReportItem>, b: seq<ReportItem>, id: string, year: int)
    ensures FirstMatch(a + b, id, year) ==
      (if FirstMatch(a, id, year).Miss? then FirstMatch(b, id, year) else FirstMatch(a, id, year))
    decreases |a|
  {
    if a != [] {
      assert (a + b)[0] == a[0];
      assert (a + b)[1..] == a[1..] + b;
      FirstMatchAppend(a[1..], b, id, year);
    } else {
      assert a + b == b;
    }
  }

  /** The search finds what a scan of the pre-order finds: the first node
      named `id`, a node before its children, left subtrees before right. */
  lemma {:induction false} FindIsFirstMatch(item: ReportItem, id: string, year: int)
    ensures FindInTree(item, id, year) == FirstMatch(Preorder(item), id, year)
    decreases item
  {
    var rest := PreorderAll(item.children);
    assert Preorder(item)[1..] == rest;
    if item.id != id {
      FindAllIsFirstMatch(item.children, id, year);
    }
  }

  lemma {:induction false} FindAllIsFirstMatch(cs: seq<ReportItem>, id: string, year: int)
    ensures FindInChildren(cs, id, year) == FirstMatch(PreorderAll(cs), id, year)
    decreases cs
  {
    if cs != [] {
      FindIsFirstMatch(cs[0], id, year);
      FindAllIsFirstMatch(cs[1..], id, year);
      FirstMatchAppend(Preorder(cs[0]), PreorderAll(cs[1..]), id, year);
    }
  }

  /** The search comes back empty exactly when no position has the name. */
  lemma {:induction false} FindMissIff(item: ReportItem, id: string, year: int)
    ensures FindInTree(item, id, year).Miss? <==> !HasId(item, id)
    decreases item
  {
    if item.id != id {
      FindAllMissIff(item.children, id, year);
    }
  }

  lemma {:induction false} FindAllMissIff(cs: seq<ReportItem>, id: string, year: int)
    ensures FindInChildren(cs, id, year).Miss? <==> forall i :: 0 <= i < |cs| ==> !HasId(cs[i], id)
    decreases cs
  {
    if cs != [] {
      FindMissIff(cs[0], id, year);
      FindAllMissIff(cs[1..], id, year);
      assert forall i :: 1 <= i < |cs| ==> cs[i] == cs[1..][i - 1];
    }
  }

  /** No position of the tree carries per-year amounts. */
  predicate NoYearly(item: ReportItem)
    decreases item
  {
    item.yearlyAmounts.None? && forall i :: 0 <= i < |item.children| ==> NoYearly(item.children[i])
  }

  /** In a tree without per-year amounts a search never yields a value. */
  lemma {:induction false} NoYearlyNoHit(item: ReportItem, id: string, year: int)
    requires NoYearly(item)
    ensures !FindInTree(item, id, year).Hit?
    decreases item
  {
    if item.id != id {
      NoYearlyNoHitAll(item.children, id, year);
    }
  }

  lemma {:induction false} NoYearlyNoHitAll(cs: seq<ReportItem>, id: string, year: int)
    requires forall i :: 0 <= i < |cs| ==> NoYearly(cs[i])
    ensures !FindInChildren(cs, id, year).Hit?
    decreases cs
  {
    if cs != [] {
      NoYearlyNoHit(cs[0], id, year);
      NoYearlyNoHitAll(cs[1..], id, year);
    }
  }

  /** The generator builds its positions without per-year amounts. */
  lemma {:induction false} ItemNoYearly(defs: seq<Skr04.StructureDef>, tot: seq<real>, att: seq<seq<Account>>, k: nat)
    requires |defs| == ReportTree.N && |tot| == ReportTree.N && |att| == ReportTree.N && k < ReportTree.N
    ensures NoYearly(Report.Item(defs, tot, att, k))
    decreases ReportTree.N - k
  {
    var cs := Skr04.Children(k);
    Report.ItemShape(defs, tot, att, k);
    forall i | 0 <= i < |cs|
      ensures NoYearly(Report.Item(defs, tot, att, k).children[i])
    {
      ItemNoYearly(defs, tot, att, cs[i]);
    }
  }

  /** None of the three trees the generator returns carries per-year
      amounts. */
  lemma GeneratedNoYearly(accounts: map<string, Account>, order: seq<string>, mapping: Skr04.Mapping)
    requires forall i :: 0 <= i < |order| ==> order[i] in accounts
    ensures var r := Report.ReportOf(accounts, order, mapping);
      NoYearly(r.aktiva) && NoYearly(r.passiva) && NoYearly(r.guv)
  {
    var renamed := Report.Renamed(accounts, mapping);
    var list := Report.Listed(renamed, order);
    var routes := Report.Routes(list, mapping);
    var att := Report.Booked(Report.AttachedAll(list, routes));
    var tot := Report.Totals(att);
    ItemNoYearly(Skr04.StructureDefs, tot, att, 0);
    ItemNoYearly(Skr04.StructureDefs, tot, att, 10);
    ItemNoYearly(Skr04.StructureDefs, tot, att, 18);
  }

  // ------------------------------------------------------------ value of a name

  /** The search over the statement: Aktiva, then Passiva, then the profit
      and loss tree; a value or a fault ends the search. */
  function TreeLookup(data: FinancialData, id: string, year: int): Search {
    var a := FindInTree(data.aktiva, id, year);
    if !a.Miss? then a
    else
      var p := FindInTree(data.passiva, id, year);
      if !p.Miss? then p else FindInTree(data.guv, id, year)
  }

  /** The three trees are searched as one pre-order scan, Aktiva first,
      then Passiva, then the profit and loss tree. */
  lemma TreeLookupOrder(data: FinancialData, id: string, year: int)
    ensures TreeLookup(data, id, year) ==
      FirstMatch(Preorder(data.aktiva) + Preorder(data.passiva) + Preorder(data.guv), id, year)
  {
    var a, p, g := Preorder(data.aktiva), Preorder(data.passiva), Preorder(data.guv);
    FindIsFirstMatch(data.aktiva, id, year);
    FindIsFirstMatch(data.passiva, id, year);
    FindIsFirstMatch(data.guv, id, year);
    FirstMatchAppend(a, p, id, year);
    FirstMatchAppend(a + p, g, id, year);
  }

  /** The names every plain JavaScript object inherits; looking one up in
      the account record finds a function or the prototype, not an account. */
  const InheritedNames: set<string> := {
    "constructor", "hasOwnProperty", "isPrototypeOf", "propertyIsEnumerable",
    "toString", "toLocaleString", "valueOf", "__proto__",
    "__defineGetter__", "__defineSetter__", "__lookupGetter__", "__lookupSetter__"
  }

  /** An account's balance in `year`, 0 when it has none for that year. */
  function YearBalance(acc: Account, year: int): real {
    if Some(year) in acc.yearlyBalances then acc.yearlyBalances[Some(year)] else 0.0
  }

  /** The value of a name in `year`: the first position with that name in
      the three trees, else the year's balance of the account with that
      number, else 0. `None` stands for a thrown `TypeError`: a position
      without per-year amounts, or an inherited name that is no account. */
  function StructureValue(data: FinancialData, id: string, year: int): (r: Option<real>)
    ensures TreeLookup(data, id, year).Hit? ==> r == Some(TreeLookup(data, id, year).v)
    ensures TreeLookup(data, id, year).Fault? ==> r.None?
    ensures TreeLookup(data, id, year).Miss? && id in data.accounts ==> r == Some(YearBalance(data.accounts[id], year))
    ensures TreeLookup(data, id, year).Miss? && id !in data.accounts ==> (r.None? <==> id in InheritedNames)
    ensures TreeLookup(data, id, year).Miss? && id !in data.accounts && id !in InheritedNames ==> r == Some(0.0)
  {
    match TreeLookup(data, id, year)
    case Hit(v) => Some(v)
    case Fault => None
    case Miss =>
      if id in data.accounts then Some(YearBalance(data.accounts[id], year))
      else if id in InheritedNames then None
      else Some(0.0)
  }

  /** In a statement from the generator, a name of a position makes the
      lookup throw; only account numbers and unknown names have values. */
  lemma GeneratedLookup(data: FinancialData, id: string, year: int)
    requires NoYearly(data.aktiva) && NoYearly(data.passiva) && NoYearly(data.guv)
    ensures StructureValue(data, id, year).None? <==>
      HasId(data.aktiva, id) || HasId(data.passiva, id) || HasId(data.guv, id) ||
      (id !in data.accounts && id in InheritedNames)
  {
    FindMissIff(data.aktiva, id, year);
    FindMissIff(data.passiva, id, year);
    FindMissIff(data.guv, id, year);
    NoYearlyNoHit(data.aktiva, id, year);
    NoYearlyNoHit(data.passiva, id, year);
    NoYearlyNoHit(data.guv, id, year);
  }

  // ------------------------------------------------------------ placeholders

  /** The characters of `[a-zA-Z0-9_]`. */
  predicate IsNameChar(c: char) {
    'a' <= c <= 'z' || 'A' <= c <= 'Z' || '0' <= c <= '9' || c == '_'
  }

  /** A name a placeholder may carry: one or more name characters. */
  predicate IsName(s: string) {
    |s| > 0 && forall i :: 0 <= i < |s| ==> IsNameChar(s[i])
  }

  /** The length of the run of name characters `s` starts with. */
  function NameRun(s: string): (n: nat)
    ensures n <= |s|
    ensures forall i :: 0 <= i < n ==> IsNameChar(s[i])
    ensures n < |s| ==> !IsNameChar(s[n])
  {
    if s == [] || !IsNameChar(s[0]) then 0 else 1 + NameRun(s[1..])
  }

  /** The text of a placeholder. */
  function Placeholder(id: string): string {
    "{{" + id + "}}"
  }

  /** The name of the placeholder `{{name}}` that `s` starts with, if any. */
  function PlaceholderAt(s: string): (r: Option<string>)
    ensures r.Some? ==> IsName(r.value) && IsPrefix(Placeholder(r.value), s)
  {
    if |s| >= 2 && s[0] == '{' && s[1] == '{' then
      var n := NameRun(s[2..]);
      if n > 0 && n + 4 <= |s| && s[n + 2] == '}' && s[n + 3] == '}' then
        assert s[..n + 4] == Placeholder(s[2..n + 2]);
        Some(s[2..n + 2])
      else
        None
    else
      None
  }

  lemma {:induction false} NameRunIs(t: string, n: nat)
    requires n <= |t| && forall i :: 0 <= i < n ==> IsNameChar(t[i])
    requires n < |t| ==> !IsNameChar(t[n])
    ensures NameRun(t) == n
    decreases n
  {
    if n > 0 {
      NameRunIs(t[1..], n - 1);
    }
  }

  /** Whatever placeholder `s` starts with is the one the scan takes: a
      name ends at the first `}`, so there is never a choice. */
  lemma PlaceholderAtFinds(id: string, s: string)
    requires IsName(id) && IsPrefix(Placeholder(id), s)
    ensures PlaceholderAt(s) == Some(id)
  {
    var n := |id|;
    assert s[..n + 4] == Placeholder(id);
    assert s[0] == '{' && s[1] == '{';
    forall i | 0 <= i < n ensures s[2..][i] == id[i] {
      assert s[2 + i] == Placeholder(id)[2 + i];
    }
    assert s[n + 2] == Placeholder(id)[n + 2];
    assert s[n + 3] == Placeholder(id)[n + 3];
    NameRunIs(s[2..], n);
    assert s[2..n + 2] == id;
  }

  /** A piece of a formula: a character left as it is, or a placeholder. */
  datatype Segment = Text(c: char) | Ref(id: string)

  function SegmentText(g: Segment): string {
    match g
    case Text(c) => [c]
    case Ref(id) => Placeholder(id)
  }

  /** The text a list of pieces spells. */
  function Unparse(segs: seq<Segment>): string {
    if segs == [] then [] else SegmentText(segs[0]) + Unparse(segs[1..])
  }

  /** The global scan of `/\{\{([a-zA-Z0-9_]+)\}\}/g`: at each position a
      placeholder is taken if one starts there, and the scan goes on after
      it; otherwise one character is kept. The pieces spell `s` again. */
  function Segments(s: string): (r: seq<Segment>)
    ensures Unparse(r) == s
    ensures forall i :: 0 <= i < |r| && r[i].Ref? ==> IsName(r[i].id)
    decreases |s|
  {
    if s == [] then []
    else
      match PlaceholderAt(s)
      case Some(id) =>
        var rest := Segments(s[|id| + 4..]);
        SplitAtLength(s, |id| + 4);
        UnparseCons(Ref(id), rest);
        [Ref(id)] + rest
      case None =>
        var rest := Segments(s[1..]);
        SplitAtLength(s, 1);
        UnparseCons(Text(s[0]), rest);
        [Text(s[0])] + rest
  }

  lemma SplitAtLength(s: string, n: nat)
    requires n <= |s|
    ensures s == s[..n] + s[n..]
  {
  }

  lemma UnparseCons(g: Segment, rest: seq<Segment>)
    ensures Unparse([g] + rest) == SegmentText(g) + Unparse(rest)
  {
    assert ([g] + rest)[1..] == rest;
  }

  /** A text in which no placeholder starts anywhere is one plain piece per
      character. */
  lemma {:induction false} SegmentsPlain(s: string)
    requires forall i :: 0 <= i <= |s| ==> PlaceholderAt(s[i..]).None?
    ensures forall i :: 0 <= i < |Segments(s)| ==> Segments(s)[i].Text?
    decreases |s|
  {
    if s != [] {
      assert s[0..] == s;
      forall i | 0 <= i <= |s[1..]| ensures PlaceholderAt(s[1..][i..]).None? {
        assert s[1..][i..] == s[i + 1..];
      }
      SegmentsPlain(s[1..]);
    }
  }

  /** The text of one piece once its name is replaced by `String(value)`;
      `None` when the lookup throws. */
  function Rendered(g: Segment, data: FinancialData, year: int): Option<string> {
    match g
    case Text(c) => Some([c])
    case Ref(id) =>
      match StructureValue(data, id, year)
      case None => None
      case Some(v) => Some(NumberToString(v))
  }

  function Render(segs: seq<Segment>, data: FinancialData, year: int): Option<string> {
    if segs == [] then Some([])
    else
      var head := Rendered(segs[0], data, year);
      var tail := Render(segs[1..], data, year);
      if head.None? || tail.None? then None else Some(head.value + tail.value)
  }

  /** `formula.replace(/\{\{([a-zA-Z0-9_]+)\}\}/g, id => String(value(id)))`;
      `None` when one of the lookups throws. */
  function Substitute(formula: string, data: FinancialData, year: int): Option<string> {
    Render(Segments(formula), data, year)
  }

  /** Rendering fails exactly when the lookup of one of the placeholders
      throws. */
  lemma {:induction false} RenderFails(segs: seq<Segment>, data: FinancialData, year: int)
    ensures Render(segs, data, year).None? <==>
      exists i :: 0 <= i < |segs| && segs[i].Ref? && StructureValue(data, segs[i].id, year).None?
  {
    if segs != [] {
      RenderFails(segs[1..], data, year);
      assert forall i :: 1 <= i < |segs| ==> segs[i] == segs[1..][i - 1];
      if exists i :: 0 <= i < |segs[1..]| && segs[1..][i].Ref? && StructureValue(data, segs[1..][i].id, year).None? {
        var i :| 0 <= i < |segs[1..]| && segs[1..][i].Ref? && StructureValue(data, segs[1..][i].id, year).None?;
        assert segs[i + 1] == segs[1..][i];
      }
    }
  }

  /** Pieces without placeholders render as the text they spell. */
  lemma {:induction false} RenderPlain(segs: seq<Segment>, data: FinancialData, year: int)
    requires forall i :: 0 <= i < |segs| ==> segs[i].Text?
    ensures Render(segs, data, year) == Some(Unparse(segs))
  {
    if segs != [] {
      RenderPlain(segs[1..], data, year);
    }
  }

  /** When a placeholder's value is written with an exponent, the text
      after substitution contains an `e`. */
  lemma {:induction false} RenderKeepsExponent(segs: seq<Segment>, data: FinancialData, year: int, i: nat, v: real)
    requires i < |segs| && segs[i].Ref?
    requires StructureValue(data, segs[i].id, year) == Some(v) && 'e' in NumberToString(v)
    requires Render(segs, data, year).Some?
    ensures 'e' in Render(segs, data, year).value
  {
    var head := Rendered(segs[0], data, year);
    var tail := Render(segs[1..], data, year);
    if i == 0 {
      assert head == Some(NumberToString(v));
    } else {
      assert segs[1..][i - 1] == segs[i];
      RenderKeepsExponent(segs[1..], data, year, i - 1, v);
    }
    InAppend(head.value, tail.value, 'e');
  }

  lemma InAppend(a: string, b: string, c: char)
    ensures c in a + b <==> c in a || c in b
  {
  }

  /** A text without placeholders is left as it is. */
  lemma SubstitutePlain(formula: string, data: FinancialData, year: int)
    requires forall i :: 0 <= i <= |formula| ==> PlaceholderAt(formula[i..]).None?
    ensures Substitute(formula, data, year) == Some(formula)
  {
    SegmentsPlain(formula);
    RenderPlain(Segments(formula), data, year);
  }

  // ------------------------------------------------------------ evaluation

  /** The characters of `[\d\.\+\-\*\/\(\)\s]`. */
  predicate Allowed(c: char) {
    IsDigit(c) || c == '.' || c == '+' || c == '-' || c == '*' || c == '/' || c == '(' || c == ')' || IsSpace(c)
  }

  /** The test `/^[\d\.\+\-\*\/\(\)\s]+$/`: not empty, arithmetic
      characters only. */
  predicate Whitelisted(s: string) {
    |s| > 0 && forall i :: 0 <= i < |s| ==> Allowed(s[i])
  }

  /** The value of a formula in `year`, or `None` for JavaScript's `null`.
      `run` stands for evaluating `return (<text>)` with the script engine,
      `None` when that throws. */
  function EvaluateFormula(formula: string, data: FinancialData, year: int, run: string -> Option<real>): (r: Option<real>)
    ensures Substitute(formula, data, year).None? ==> r.None?
    ensures Substitute(formula, data, year).Some? && !Whitelisted(Substitute(formula, data, year).value) ==> r.None?
    ensures r.Some? ==> Whitelisted(Substitute(formula, data, year).value) && r == run(Substitute(formula, data, year).value)
  {
    match Substitute(formula, data, year)
    case None => None
    case Some(parsed) => if Whitelisted(parsed) then run(parsed) else None
  }

  /** A formula of arithmetic characters only is handed to the engine as
      it is. */
  lemma ArithmeticFormula(formula: string, data: FinancialData, year: int, run: string -> Option<real>)
    requires Whitelisted(formula)
    ensures EvaluateFormula(formula, data, year, run) == run(formula)
  {
    forall i | 0 <= i <= |formula| ensures PlaceholderAt(formula[i..]).None? {
      if i < |formula| {
        assert formula[i..][0] == formula[i];
      }
    }
    SubstitutePlain(formula, data, year);
  }

  /** A formula naming a position of the generated statement evaluates to
      `null`: the generator fills in no per-year amounts, so the lookup
      throws. */
  lemma PositionMakesNull(formula: string, data: FinancialData, year: int, run: string -> Option<real>, i: nat)
    requires NoYearly(data.aktiva) && NoYearly(data.passiva) && NoYearly(data.guv)
    requires i < |Segments(formula)| && Segments(formula)[i].Ref?
    requires var id := Segments(formula)[i].id; HasId(data.aktiva, id) || HasId(data.passiva, id) || HasId(data.guv, id)
    ensures EvaluateFormula(formula, data, year, run).None?
  {
    GeneratedLookup(data, Segments(formula)[i].id, year);
    RenderFails(Segments(formula), data, year);
  }

  /** A name whose value `String` writes with an exponent (below 1e-6 or
      from 1e21 on in magnitude) makes the formula `null`: the `e` fails
      the character test. */
  lemma ExponentMakesNull(formula: string, data: FinancialData, year: int, run: string -> Option<real>, i: nat, v: real)
    requires i < |Segments(formula)| && Segments(formula)[i].Ref?
    requires StructureValue(data, Segments(formula)[i].id, year) == Some(v) && !InFixedRange(v)
    ensures EvaluateFormula(formula, data, year, run).None?
  {
    NumberToStringAlphabet(v);
    var p := Substitute(formula, data, year);
    if p.Some? {
      RenderKeepsExponent(Segments(formula), data, year, i, v);
      var k :| 0 <= k < |p.value| && p.value[k] == 'e';
      assert !Allowed(p.value[k]);
    }
  }

  // ------------------------------------------------------------ the KPI list

  /** A KPI: identifier, caption, formula and display format. */
  datatype KpiDefinition = KpiDefinition(id: string, caption: string, formula: string, format: string)
  {
    function Get(f: Field): string {
      match f
      case Id => id
      case Label => caption
      case Formula => formula
      case Format => format
    }

    function With(f: Field, value: string): KpiDefinition {
      match f
      case Id => this.(id := value)
      case Label => this.(caption := value)
      case Formula => this.(formula := value)
      case Format => this.(format := value)
    }
  }

  /** The fields of a KPI an edit may name. */
  datatype Field = Id | Label | Formula | Format

  /** Setting a field changes that field and no other. */
  lemma WithField(k: KpiDefinition, f: Field, value: string, g: Field)
    ensures k.With(f, value).Get(g) == if g == f then value else k.Get(g)
  {
  }

  /** `updateKPI`: every KPI with identifier `id` gets `value` in field `f`. */
  function UpdateKpi(kpis: seq<KpiDefinition>, id: string, f: Field, value: string): (r: seq<KpiDefinition>)
    ensures |r| == |kpis|
    ensures forall i :: 0 <= i < |kpis| && kpis[i].id == id ==> r[i].Get(f) == value
    ensures forall i, g :: 0 <= i < |kpis| && (kpis[i].id != id || g != f) ==> r[i].Get(g) == kpis[i].Get(g)
  {
    seq(|kpis|, i requires 0 <= i < |kpis| => if kpis[i].id == id then kpis[i].With(f, value) else kpis[i])
  }

  /** Repeating an update changes nothing more, even one that renames. */
  lemma UpdateIdempotent(kpis: seq<KpiDefinition>, id: string, f: Field, value: string)
    ensures UpdateKpi(UpdateKpi(kpis, id, f, value), id, f, value) == UpdateKpi(kpis, id, f, value)
  {
    var once := UpdateKpi(kpis, id, f, value);
    var twice := UpdateKpi(once, id, f, value);
    forall i | 0 <= i < |kpis| ensures twice[i] == once[i] {
      if once[i].id == id {
        assert kpis[i].id == id || (f == Id && value == id);
      }
    }
  }

  /** The test `k => k.id !== id` that keeps the KPIs with other ids. */
  function OtherId(id: string): KpiDefinition -> bool {
    (k: KpiDefinition) => k.id != id
  }

  /** The KPIs without those with identifier `id`, in their order. */
  function Without(kpis: seq<KpiDefinition>, id: string): (r: seq<KpiDefinition>)
    ensures forall k {:trigger k in r} :: k in r <==> k in kpis && k.id != id
    ensures forall i :: 0 <= i < |r| ==> r[i].id != id
  {
    var r := Filter(kpis, OtherId(id));
    assert forall i :: 0 <= i < |r| ==> r[i] in r;
    r
  }

  /** Exactly the KPIs with identifier `id` go, every other one stays as
      often as it was there. */
  lemma WithoutCounts(kpis: seq<KpiDefinition>, id: string, k: KpiDefinition)
    ensures multiset(Without(kpis, id))[k] == if k.id == id then 0 else multiset(kpis)[k]
  {
    FilterCount(kpis, OtherId(id), k);
  }

  /** Removing distributes over concatenation, so the survivors keep their
      order. */
  lemma WithoutAppend(a: seq<KpiDefinition>, b: seq<KpiDefinition>, id: string)
    ensures Without(a + b, id) == Without(a, id) + Without(b, id)
  {
    FilterAppend(a, b, OtherId(id));
  }

  /** `deleteKPI` once the user has confirmed; unconfirmed, the list stays. */
  function DeleteKpi(kpis: seq<KpiDefinition>, id: string, confirmed: bool): (r: seq<KpiDefinition>)
    ensures !confirmed ==> r == kpis
    ensures confirmed ==> forall i :: 0 <= i < |r| ==> r[i].id != id
    ensures confirmed ==> forall k :: k in kpis && k.id != id ==> k in r
  {
    if confirmed then Without(kpis, id) else kpis
  }

  // ------------------------------------------------------------ reordering

  /** The list with the item at `from` taken out and put back at `to`, the
      others closing up around it. */
  function Moved<T>(s: seq<T>, from: nat, to: nat): (r: seq<T>)
    requires from < |s| && to < |s|
    ensures |r| == |s| && r[to] == s[from]
  {
    seq(|s|, j requires 0 <= j < |s| =>
      if j == to then s[from]
      else if from < to && from <= j < to then s[j + 1]
      else if to < from && to < j <= from then s[j - 1]
      else s[j])
  }

  /** `s.splice(i, 1)` on a copy: the list without its `i`-th item. */
  function Removed<T>(s: seq<T>, i: nat): seq<T>
    requires i < |s|
  {
    s[..i] + s[i + 1..]
  }

  /** `s.splice(i, 0, x)` on a copy: `x` inserted before position `i`. */
  function Inserted<T>(s: seq<T>, i: nat, x: T): seq<T>
    requires i <= |s|
  {
    s[..i] + [x] + s[i..]
  }

  /** Taking the item out and inserting it at the target is the move. */
  lemma MovedIsSplices<T>(s: seq<T>, from: nat, to: nat)
    requires from < |s| && to < |s|
    ensures Inserted(Removed(s, from), to, s[from]) == Moved(s, from, to)
  {
    var rem := Removed(s, from);
    var r := Inserted(rem, to, s[from]);
    assert |r| == |s|;
    forall j | 0 <= j < |s| ensures r[j] == Moved(s, from, to)[j] {
      if j < to {
        assert r[j] == rem[j];
      } else if j > to {
        assert r[j] == rem[j - 1];
      }
    }
  }

  /** A move keeps every item, as often as it occurs. */
  lemma MovedPermutes<T>(s: seq<T>, from: nat, to: nat)
    requires from < |s| && to < |s|
    ensures multiset(Moved(s, from, to)) == multiset(s)
  {
    var x := s[from];
    var rem := Removed(s, from);
    MovedIsSplices(s, from, to);
    assert rem == s[..from] + s[from + 1..];
    assert Inserted(rem, to, x) == rem[..to] + [x] + rem[to..];
    assert rem == rem[..to] + rem[to..];
    assert multiset(Inserted(rem, to, x)) == multiset(rem[..to]) + multiset([x]) + multiset(rem[to..]);
    assert multiset(rem) == multiset(rem[..to]) + multiset(rem[to..]);
    assert s == s[..from] + [x] + s[from + 1..];
    assert multiset(s) == multiset(s[..from]) + multiset([x]) + multiset(s[from + 1..]);
    assert multiset(rem) == multiset(s[..from]) + multiset(s[from + 1..]);
    assert multiset(Inserted(rem, to, x)) == multiset(rem) + multiset([x]);
    assert Moved(s, from, to) == Inserted(rem, to, x);
  }

  /** Apart from the moved item, the order is the old one. */
  lemma MovedKeepsOrder<T>(s: seq<T>, from: nat, to: nat)
    requires from < |s| && to < |s|
    ensures Removed(Moved(s, from, to), to) == Removed(s, from)
  {
    var m := Moved(s, from, to);
    var a, b := Removed(m, to), Removed(s, from);
    assert |a| == |b|;
    forall j | 0 <= j < |a| ensures a[j] == b[j] {
      if j < to {
        assert a[j] == m[j];
      } else {
        assert a[j] == m[j + 1];
      }
      if j < from {
        assert b[j] == s[j];
      } else {
        assert b[j] == s[j + 1];
      }
    }
  }

  /** Dragging the item back undoes the move. */
  lemma MovedBack<T>(s: seq<T>, from: nat, to: nat)
    requires from < |s| && to < |s|
    ensures Moved(Moved(s, from, to), to, from) == s
  {
    var m := Moved(s, from, to);
    var back := Moved(m, to, from);
    forall j | 0 <= j < |s| ensures back[j] == s[j] {
      if j != from {
        if from < to && from < j <= to {
          assert back[j] == m[j - 1];
        } else if to < from && from > j >= to {
          assert back[j] == m[j + 1];
        }
      }
    }
  }

  // ------------------------------------------------------------ the board

  /** The kind of a completion: a position or an account. */
  datatype SuggestionKind = Structure | AccountRef

  datatype Suggestion = Suggestion(id: string, caption: string, kind: SuggestionKind)

  /** The board's state: the KPI list, the row being dragged and the row
      under it, the KPI whose formula has an open completion, the text typed
      after its `{{`, and the cursor position in the formula. */
  datatype Board = Board(
    kpis: seq<KpiDefinition>,
    draggedIdx: Option<nat>,
    dragOverIdx: Option<nat>,
    activeKpiId: Option<string>,
    suggestionQuery: string,
    cursorPos: nat)

  /** `performDrop`: the dragged row is moved to the drop row on a copy of
      the list, by two splices; dropping a row on itself, or with nothing
      dragged, changes nothing. */
  method PerformDrop(b: Board, dropIndex: nat) returns (r: Board)
    requires b.draggedIdx.Some? ==> b.draggedIdx.value < |b.kpis|
    requires b.draggedIdx.Some? && b.draggedIdx.value != dropIndex ==> dropIndex < |b.kpis|
    ensures b.draggedIdx.None? || b.draggedIdx.value == dropIndex ==> r == b
    ensures b.draggedIdx.Some? && b.draggedIdx.value != dropIndex ==>
      r == b.(kpis := Moved(b.kpis, b.draggedIdx.value, dropIndex), draggedIdx := None, dragOverIdx := None)
  {
    if b.draggedIdx.None? || b.draggedIdx.value == dropIndex {
      return b;
    }
    var from := b.draggedIdx.value;
    var newKpis := b.kpis;
    var dragged := newKpis[from];
    newKpis := Removed(newKpis, from);
    newKpis := Inserted(newKpis, dropIndex, dragged);
    MovedIsSplices(b.kpis, from, dropIndex);
    r := b.(kpis := newKpis, draggedIdx := None, dragOverIdx := None);
  }

  /** `text.slice(0, pos)`: the first `pos` characters, all of them when
      `pos` is past the end. */
  function Before(text: string, pos: nat): (r: string)
    ensures IsPrefix(r, text) && |r| == if pos <= |text| then pos else |text|
  {
    if pos <= |text| then text[..pos] else text
  }

  /** `text.slice(pos)`: what follows the first `pos` characters. */
  function After(text: string, pos: nat): (r: string)
    ensures Before(text, pos) + r == text
  {
    if pos <= |text| then text[pos..] else []
  }

  /** An unclosed `{{` at `i`: no `}` follows it. */
  predicate OpenAt(text: string, i: int) {
    OccursAt(text, "{{", i) && '}' !in text[i + 2..]
  }

  /** The match of `/\{\{([^}]*)$/`: the text after the leftmost `{{` that
      no `}` follows. */
  function OpenQuery(text: string): (r: Option<string>)
    ensures r.Some? ==> |r.value| + 2 <= |text|
    decreases |text|
  {
    if |text| < 2 then None
    else if OpenAt(text, 0) then Some(text[2..])
    else OpenQuery(text[1..])
  }

  /** The query is found exactly when there is an unclosed `{{`, and it is
      what follows the leftmost one. */
  lemma {:induction false} OpenQuerySpec(text: string)
    ensures OpenQuery(text).None? <==> forall i :: !OpenAt(text, i)
    ensures OpenQuery(text).Some? ==> exists i :: (OpenAt(text, i) && OpenQuery(text).value == text[i + 2..] &&
      forall j :: 0 <= j < i ==> !OpenAt(text, j))
    decreases |text|
  {
    if |text| >= 2 && !OpenAt(text, 0) {
      var t := text[1..];
      OpenQuerySpec(t);
      forall i | 1 <= i ensures OpenAt(text, i) <==> OpenAt(t, i - 1) {
        if 0 <= i - 1 <= |t| - 2 {
          assert text[i..i + 2] == t[i - 1..i + 1];
          assert text[i + 2..] == t[i + 1..];
        }
      }
      if OpenQuery(t).Some? {
        var i :| OpenAt(t, i) && OpenQuery(t).value == t[i + 2..] && forall j :: 0 <= j < i ==> !OpenAt(t, j);
        assert OpenAt(text, i + 1);
        assert t[i + 2..] == text[i + 3..];
      }
    } else if |text| >= 2 {
      assert text[2..] == text[0 + 2..];
    }
  }

  /** The open query is the end of the text: `{{` followed by it, with no
      `}` in it. */
  lemma OpenQueryEnds(text: string)
    requires OpenQuery(text).Some?
    ensures var q := OpenQuery(text).value;
      |q| + 2 <= |text| && text[|text| - |q| - 2..] == "{{" + q && '}' !in q
  {
    OpenQuerySpec(text);
    var q := OpenQuery(text).value;
    var i :| OpenAt(text, i) && q == text[i + 2..];
    assert text[i..] == text[i..i + 2] + text[i + 2..];
  }

  /** `handleInputCheck`: stores the typed formula and the cursor; an open
      `{{` before the cursor activates the completion for this KPI with the
      text after it as query, anything else closes the completion. */
  function HandleInputCheck(b: Board, id: string, value: string, pos: nat): (r: Board)
    ensures r.kpis == UpdateKpi(b.kpis, id, Formula, value) && r.cursorPos == pos
    ensures r.draggedIdx == b.draggedIdx && r.dragOverIdx == b.dragOverIdx
    ensures r.activeKpiId.Some? <==> exists i :: OpenAt(Before(value, pos), i)
    ensures OpenQuery(Before(value, pos)).Some? ==>
      r.activeKpiId == Some(id) && r.suggestionQuery == OpenQuery(Before(value, pos)).value
    ensures OpenQuery(Before(value, pos)).None? ==> r.activeKpiId.None? && r.suggestionQuery == b.suggestionQuery
  {
    OpenQuerySpec(Before(value, pos));
    var kpis := UpdateKpi(b.kpis, id, Formula, value);
    match OpenQuery(Before(value, pos))
    case Some(q) => b.(kpis := kpis, cursorPos := pos, activeKpiId := Some(id), suggestionQuery := q)
    case None => b.(kpis := kpis, cursorPos := pos, activeKpiId := None)
  }

  /** The formula once the completion `id` is chosen: the text from the last
      `{{` before the cursor up to the cursor becomes `{{id}}`; `None` when
      there is no `{{` before the cursor. */
  function Completed(formula: string, cursor: nat, id: string): (r: Option<string>)
    ensures r.None? <==> forall i :: !OccursAt(Before(formula, cursor), "{{", i)
  {
    var before := Before(formula, cursor);
    var lastOpen := LastIndexOf(before, "{{");
    if lastOpen != -1 then
      Some(formula[..lastOpen] + Placeholder(id) + After(formula, cursor))
    else
      None
  }

  /** A completion keeps the text before the last `{{` ahead of the cursor
      and the text after the cursor, and puts `{{id}}` in between. */
  lemma CompletedShape(formula: string, cursor: nat, id: string)
    requires Completed(formula, cursor, id).Some?
    ensures exists p :: (OccursAt(Before(formula, cursor), "{{", p) &&
      (forall i :: p < i ==> !OccursAt(Before(formula, cursor), "{{", i)) &&
      Completed(formula, cursor, id).value == Before(formula, cursor)[..p] + Placeholder(id) + After(formula, cursor))
  {
    var before := Before(formula, cursor);
    var p := LastIndexOf(before, "{{");
    assert formula[..p] == before[..p];
  }

  /** `handleSuggestionClick`: completes the formula of KPI `kpiId` if there
      is a `{{` before the cursor, and closes the completion either way. */
  function HandleSuggestionClick(b: Board, s: Suggestion, kpiId: string, formula: string): (r: Board)
    ensures Completed(formula, b.cursorPos, s.id).None? ==> r == b.(activeKpiId := None)
    ensures Completed(formula, b.cursorPos, s.id).Some? ==>
      r == b.(kpis := UpdateKpi(b.kpis, kpiId, Formula, Completed(formula, b.cursorPos, s.id).value), activeKpiId := None)
  {
    match Completed(formula, b.cursorPos, s.id)
    case None => b.(activeKpiId := None)
    case Some(f) => b.(kpis := UpdateKpi(b.kpis, kpiId, Formula, f), activeKpiId := None)
  }

  /** The last `{{` of a text that ends in `{{q`, `q` without `{`, is
      the one right before `q`. */
  lemma LastOpenBeforeQuery(before: string, q: string)
    requires |q| + 2 <= |before| && before[|before| - |q| - 2..] == "{{" + q && '{' !in q
    ensures LastIndexOf(before, "{{") == |before| - |q| - 2
  {
    var p := |before| - |q| - 2;
    OpenAtQuery(before, q);
    forall i | p < i ensures !OccursAt(before, "{{", i) {
      NoOpenInQuery(before, q, i);
    }
    var last := LastIndexOf(before, "{{");
    assert last >= p;
  }

  lemma OpenAtQuery(before: string, q: string)
    requires |q| + 2 <= |before| && before[|before| - |q| - 2..] == "{{" + q
    ensures OccursAt(before, "{{", |before| - |q| - 2)
  {
    var p := |before| - |q| - 2;
    assert before[p..p + 2] == before[p..][..2];
  }

  lemma NoOpenInQuery(before: string, q: string, i: int)
    requires |q| + 2 <= |before| && before[|before| - |q| - 2..] == "{{" + q && '{' !in q
    requires |before| - |q| - 2 < i
    ensures !OccursAt(before, "{{", i)
  {
    var p := |before| - |q| - 2;
    if i <= |before| - 2 {
      assert before[i + 1] == before[p..][i + 1 - p];
      assert before[i + 1] == q[i - p - 1];
      assert before[i..i + 2][1] == before[i + 1];
    }
  }

  /** Typing `{{q` and then choosing `id` turns `{{q` into `{{id}}` and keeps
      everything around it, as long as `q` has no `{` of its own. */
  lemma TypeThenComplete(value: string, pos: nat, id: string)
    requires OpenQuery(Before(value, pos)).Some?
    requires '{' !in OpenQuery(Before(value, pos)).value
    ensures var before := Before(value, pos);
      var q := OpenQuery(before).value;
      Completed(value, pos, id) == Some(before[..|before| - |q| - 2] + Placeholder(id) + After(value, pos))
  {
    var before := Before(value, pos);
    var q := OpenQuery(before).value;
    OpenQueryEnds(before);
    var p := |before| - |q| - 2;
    LastOpenBeforeQuery(before, q);
    CompletedAt(value, pos, id, p);
    PrefixOfPrefix(before, value, p);
  }

  /** The completion when the last `{{` before the cursor is at `p`. */
  lemma CompletedAt(formula: string, cursor: nat, id: string, p: nat)
    requires LastIndexOf(Before(formula, cursor), "{{") == p
    ensures Completed(formula, cursor, id) == Some(formula[..p] + Placeholder(id) + After(formula, cursor))
  {
  }

  /** A prefix of a prefix of `b` is a prefix of `b`. */
  lemma PrefixOfPrefix(a: string, b: string, p: nat)
    requires IsPrefix(a, b) && p <= |a|
    ensures b[..p] == a[..p]
  {
  }

  // ------------------------------------------------------------ completions

  /** The completions for the positions `cats`, in their order. */
  function StructureOptions(cats: seq<Skr04.StructureDef>): (r: seq<Suggestion>)
    ensures |r| == |cats| && forall i :: 0 <= i < |cats| ==> r[i] == Suggestion(cats[i].id, cats[i].title, Structure)
  {
    seq(|cats|, i requires 0 <= i < |cats| => Suggestion(cats[i].id, cats[i].title, Structure))
  }

  /** The completions for the accounts, in their order. */
  function AccountOptions(accounts: seq<Account>): (r: seq<Suggestion>)
    ensures |r| == |accounts| && forall i :: 0 <= i < |accounts| ==>
      r[i] == Suggestion(accounts[i].accountNumber, accounts[i].accountName, AccountRef)
  {
    seq(|accounts|, i requires 0 <= i < |accounts| => Suggestion(accounts[i].accountNumber, accounts[i].accountName, AccountRef))
  }

  /** Every completion: the positions of `defs` other than the roots, in
      table order, then the accounts in the order of the account record. */
  function Suggestions(defs: seq<Skr04.StructureDef>, accounts: seq<Account>): seq<Suggestion> {
    StructureOptions(Skr04.NonRoot(defs)) + AccountOptions(accounts)
  }

  /** The completions of the board, built from the position table. */
  function AllSuggestions(accounts: seq<Account>): seq<Suggestion> {
    Suggestions(Skr04.StructureDefs, accounts)
  }

  /** A position completion names a position of the table other than a
      root, with its caption; an account completion names an account with
      its name. */
  lemma SuggestionsSound(defs: seq<Skr04.StructureDef>, accounts: seq<Account>, s: Suggestion)
    requires s in Suggestions(defs, accounts)
    ensures s.kind == Structure ==> exists d :: d in defs && d.kind != Skr04.Root && d.id == s.id && d.title == s.caption
    ensures s.kind == AccountRef ==> exists a :: a in accounts && a.accountNumber == s.id && a.accountName == s.caption
  {
    var cats := Skr04.NonRoot(defs);
    var st, ac := StructureOptions(cats), AccountOptions(accounts);
    if s in st {
      var i :| 0 <= i < |st| && st[i] == s;
      assert cats[i] in cats;
    } else {
      assert s in ac;
      var i :| 0 <= i < |ac| && ac[i] == s;
      assert accounts[i] in accounts;
    }
  }

  /** The completion's identifier or caption contains `q` once lower-cased. */
  predicate Matches(s: Suggestion, q: string) {
    Contains(ToLower(s.id), q) || Contains(ToLower(s.caption), q)
  }

  /** The completions that match `q`: `all.filter(...)`, which keeps their
      order and multiplicity (`MatchingAppend`). */
  function Matching(all: seq<Suggestion>, q: string): (r: seq<Suggestion>)
    ensures forall s {:trigger s in r} :: s in r <==> s in all && Matches(s, q)
    ensures |r| <= |all|
  {
    Filter(all, s => Matches(s, q))
  }

  /** Matching distributes over concatenation: matches keep their order,
      and one list's matches come before the next list's. */
  lemma MatchingAppend(a: seq<Suggestion>, b: seq<Suggestion>, q: string)
    ensures Matching(a + b, q) == Matching(a, q) + Matching(b, q)
  {
    FilterAppend(a, b, s => Matches(s, q));
  }

  /** The completions offered: none while no KPI is active (`null` or the
      empty id), the first 50 for an empty query, else the first 10 that
      match it. */
  function FilteredSuggestions(all: seq<Suggestion>, query: string, active: Option<string>): (r: seq<Suggestion>)
    ensures active.None? || active.value == "" ==> r == []
    ensures active.Some? && active.value != "" && query == "" ==>
      |r| == (if |all| <= 50 then |all| else 50) && r == all[..|r|]
    ensures active.Some? && active.value != "" && query != "" ==>
      var m := Matching(all, ToLower(query));
      |r| == (if |m| <= 10 then |m| else 10) && r == m[..|r|]
  {
    if active.None? || active.value == "" then []
    else if query == "" then Take(all, 50)
    else Take(Matching(all, ToLower(query)), 10)
  }

  /** What is offered for a typed query: at most ten completions, each
      matching it; and all of the matches when there are at most ten. */
  lemma FilteredSound(all: seq<Suggestion>, query: string, id: string)
    requires query != "" && id != ""
    ensures var r := FilteredSuggestions(all, query, Some(id));
      |r| <= 10 && forall s :: s in r ==> s in all && Matches(s, ToLower(query))
    ensures var m := Matching(all, ToLower(query));
      |m| <= 10 ==> forall s :: s in all && Matches(s, ToLower(query)) ==> s in FilteredSuggestions(all, query, Some(id))
  {
    var m := Matching(all, ToLower(query));
    var r := FilteredSuggestions(all, query, Some(id));
    forall s | s in r ensures s in m {
      var i :| 0 <= i < |r| && r[i] == s;
      assert m[i] == s;
    }
  }
}
