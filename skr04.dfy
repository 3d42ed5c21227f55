/** The SKR04 chart of accounts as a report structure: the constant table
    of balance-sheet and profit-and-loss positions, and the classifier that
    assigns an account number to one of them. */
module Skr04 {
  import opened Wrappers
  import opened JsText

  /** The side of the statement a position belongs to. */
  datatype NodeType = Root | Aktiva | Passiva | GuvErtrag | GuvAufwand

  /** One position of the statement: its id, its caption, the id of the
      position it belongs under (none for the three roots), its side and its
      sort key. */
  datatype StructureDef = StructureDef(id: string, title: string, parent: Option<string>, kind: NodeType, order: int)

  /** The positions of the balance sheet (Aktiva, Passiva) and of the
      profit-and-loss statement in total-cost format, each parent listed
      before its children. */
  const StructureDefs: seq<StructureDef> := AktivaDefs + PassivaDefs + GuvDefs

  /** The balance sheet, assets. */
  const AktivaDefs: seq<StructureDef> := [
    StructureDef("aktiva_root", "AKTIVA", None, Root, 1),
    StructureDef("av", "A. Anlagevermögen", Some("aktiva_root"), Aktiva, 10),
    StructureDef("av_immat", "I. Immaterielle Vermögensgegenstände", Some("av"), Aktiva, 11),
    StructureDef("av_sach", "I. Sachanlagen", Some("av"), Aktiva, 12),
    StructureDef("av_finanz", "II. Finanzanlagen", Some("av"), Aktiva, 13),
    StructureDef("uv", "B. Umlaufvermögen", Some("aktiva_root"), Aktiva, 20),
    StructureDef("uv_vorrat", "I. Vorräte", Some("uv"), Aktiva, 21),
    StructureDef("uv_ford", "II. Forderungen und sonstige Vermögensgegenstände", Some("uv"), Aktiva, 22),
    StructureDef("uv_kasse", "III. Kassenbestand, Guthaben bei Kreditinstituten", Some("uv"), Aktiva, 23),
    StructureDef("rap_akt", "C. Rechnungsabgrenzungsposten", Some("aktiva_root"), Aktiva, 30)
  ]

  /** The balance sheet, equity and liabilities. */
  const PassivaDefs: seq<StructureDef> := [
    StructureDef("passiva_root", "PASSIVA", None, Root, 2),
    StructureDef("ek", "A. Eigenkapital", Some("passiva_root"), Passiva, 10),
    StructureDef("ek_kapital", "I. Kapitalanteile", Some("ek"), Passiva, 11),
    StructureDef("ek_vortrag", "II. Gewinn-/Verlustvortrag", Some("ek"), Passiva, 12),
    StructureDef("ek_ergebnis", "III. Jahresergebnis", Some("ek"), Passiva, 99),
    StructureDef("rs", "B. Rückstellungen", Some("passiva_root"), Passiva, 20),
    StructureDef("verb", "C. Verbindlichkeiten", Some("passiva_root"), Passiva, 30),
    StructureDef("rap_pass", "D. Rechnungsabgrenzungsposten", Some("passiva_root"), Passiva, 40)
  ]

  /** The profit and loss statement. */
  const GuvDefs: seq<StructureDef> := [
    StructureDef("guv_root", "Gewinn- und Verlustrechnung", None, Root, 3),
    StructureDef("umsatz", "1. Umsatzerlöse", Some("guv_root"), GuvErtrag, 10),
    StructureDef("bestandsva", "2. Bestandsveränderungen", Some("guv_root"), GuvErtrag, 20),
    StructureDef("sonst_ertrag", "3. Sonstige betriebliche Erträge", Some("guv_root"), GuvErtrag, 30),
    StructureDef("material", "4. Materialaufwand", Some("guv_root"), GuvAufwand, 40),
    StructureDef("personal", "5. Personalaufwand", Some("guv_root"), GuvAufwand, 50),
    StructureDef("abschr", "6. Abschreibungen", Some("guv_root"), GuvAufwand, 60),
    StructureDef("sonst_aufw", "7. Sonstige betriebliche Aufwendungen", Some("guv_root"), GuvAufwand, 70),
    StructureDef("sonst_aufw_raum", "a) Raumkosten", Some("sonst_aufw"), GuvAufwand, 71),
    StructureDef("sonst_aufw_vers", "b) Versicherungen, Beiträge", Some("sonst_aufw"), GuvAufwand, 72),
    StructureDef("sonst_aufw_kfz", "c) Fahrzeugkosten", Some("sonst_aufw"), GuvAufwand, 73),
    StructureDef("sonst_aufw_werb", "d) Werbe- und Reisekosten", Some("sonst_aufw"), GuvAufwand, 74),
    StructureDef("sonst_aufw_rep", "e) Reparaturen/Instandhaltung", Some("sonst_aufw"), GuvAufwand, 75),
    StructureDef("sonst_aufw_rest", "f) Übrige betriebliche Aufwendungen", Some("sonst_aufw"), GuvAufwand, 79),
    StructureDef("zinsen", "8. Zinsen und ähnliche Aufwendungen", Some("guv_root"), GuvAufwand, 80),
    StructureDef("steuern_er", "9. Steuern vom Einkommen und Ertrag", Some("guv_root"), GuvAufwand, 90),
    StructureDef("steuern_sonst", "10. Sonstige Steuern", Some("guv_root"), GuvAufwand, 100)
  ]

  /** The index of the first position with the given id (`structureDefs.find`
      and the lookup in the report generator's item map). */
  function DefIndex(id: string): (r: Option<nat>)
    ensures r.Some? ==> r.value < |StructureDefs| && StructureDefs[r.value].id == id
    ensures r.None? ==> forall j :: 0 <= j < |StructureDefs| ==> StructureDefs[j].id != id
  {
    IndexFrom(StructureDefs, id, 0)
  }

  /** The first position at or after `i` in `defs` with the given id. */
  function IndexFrom(defs: seq<StructureDef>, id: string, i: nat): (r: Option<nat>)
    requires i <= |defs|
    ensures r.Some? ==> i <= r.value < |defs| && defs[r.value].id == id
    ensures r.None? ==> forall j :: i <= j < |defs| ==> defs[j].id != id
    decreases |defs| - i
  {
    if i == |defs| then None
    else if defs[i].id == id then Some(i)
    else IndexFrom(defs, id, i + 1)
  }

  /** No two positions share an id. */
  lemma IdsUnique()
    ensures forall i, j :: 0 <= i < j < |StructureDefs| ==> StructureDefs[i].id != StructureDefs[j].id
  {
    IdsUniqueRow0();
    IdsUniqueRow1();
    IdsUniqueRow2();
    IdsUniqueRow3();
    IdsUniqueRow4();
    IdsUniqueFrom5();
    IdsUniqueFrom8();
    IdsUniqueFrom11();
    IdsUniqueFrom14();
    IdsUniqueFrom17();
    IdsUniqueFrom20();
    IdsUniqueFrom25();
    IdsUniqueFrom30();
  }

  // The pairwise comparison is split by rows of the table so that each
  // part stays small for the solver.
  lemma IdsUniqueRow0()
    ensures forall j :: 0 < j < |StructureDefs| ==> StructureDefs[0].id != StructureDefs[j].id
  {
  }
  lemma IdsUniqueRow1()
    ensures forall j :: 1 < j < |StructureDefs| ==> StructureDefs[1].id != StructureDefs[j].id
  {
  }
  lemma IdsUniqueRow2()
    ensures forall j :: 2 < j < |StructureDefs| ==> StructureDefs[2].id != StructureDefs[j].id
  {
  }
  lemma IdsUniqueRow3()
    ensures forall j :: 3 < j < |StructureDefs| ==> StructureDefs[3].id != StructureDefs[j].id
  {
  }
  lemma IdsUniqueRow4()
    ensures forall j :: 4 < j < |StructureDefs| ==> StructureDefs[4].id != StructureDefs[j].id
  {
  }

  lemma IdsUniqueFrom5()
    ensures forall i, j :: 5 <= i < 8 && i < j < |StructureDefs| ==> StructureDefs[i].id != StructureDefs[j].id
  {
  }

  lemma IdsUniqueFrom8()
    ensures forall i, j :: 8 <= i < 11 && i < j < |StructureDefs| ==> StructureDefs[i].id != StructureDefs[j].id
  {
  }

  lemma IdsUniqueFrom11()
    ensures forall i, j :: 11 <= i < 14 && i < j < |StructureDefs| ==> StructureDefs[i].id != StructureDefs[j].id
  {
  }

  lemma IdsUniqueFrom14()
    ensures forall i, j :: 14 <= i < 17 && i < j < |StructureDefs| ==> StructureDefs[i].id != StructureDefs[j].id
  {
  }

  lemma IdsUniqueFrom17()
    ensures forall i, j :: 17 <= i < 20 && i < j < |StructureDefs| ==> StructureDefs[i].id != StructureDefs[j].id
  {
  }

  lemma IdsUniqueFrom20()
    ensures forall i, j :: 20 <= i < 25 && i < j < |StructureDefs| ==> StructureDefs[i].id != StructureDefs[j].id
  {
  }

  lemma IdsUniqueFrom25()
    ensures forall i, j :: 25 <= i < 30 && i < j < |StructureDefs| ==> StructureDefs[i].id != StructureDefs[j].id
  {
  }

  lemma IdsUniqueFrom30()
    ensures forall i, j :: 30 <= i < j < |StructureDefs| ==> StructureDefs[i].id != StructureDefs[j].id
  {
  }

  /** Every position is found under its own id. */
  lemma DefIndexOf(i: nat)
    requires i < |StructureDefs|
    ensures DefIndex(StructureDefs[i].id) == Some(i)
  {
    IdsUnique();
  }

  /** No position has the empty id. */
  lemma IdNonEmpty(k: nat)
    requires k < |StructureDefs|
    ensures StructureDefs[k].id != ""
  {
  }

  /** The table index of a position's parent, -1 for the three roots. */
  function ParentIndex(k: nat): (r: int)
    ensures r < k
  {
    if k == 0 || k == 10 || k == 18 then -1
    else if 2 <= k <= 4 then 1
    else if 6 <= k <= 8 then 5
    else if k < 10 then 0
    else if 12 <= k <= 14 then 11
    else if k < 18 then 10
    else if 26 <= k <= 31 then 25
    else 18
  }

  /** `ParentIndex` finds the entry the table names as parent, which comes
      earlier in the table. */
  lemma ParentIndexSound(k: nat)
    requires k < |StructureDefs|
    ensures ParentIndex(k) == -1 <==> StructureDefs[k].parent.None?
    ensures ParentIndex(k) >= 0 ==> ParentIndex(k) < k && StructureDefs[k].parent == Some(StructureDefs[ParentIndex(k)].id)
  {
    if k < 10 {
      AktivaParents(k);
    } else if k < 18 {
      PassivaParents(k);
    } else {
      GuvParents(k);
    }
  }

  lemma AktivaParents(k: nat)
    requires k < 10
    ensures ParentIndex(k) == -1 <==> StructureDefs[k].parent.None?
    ensures ParentIndex(k) >= 0 ==> ParentIndex(k) < k && StructureDefs[k].parent == Some(StructureDefs[ParentIndex(k)].id)
  {
  }

  lemma PassivaParents(k: nat)
    requires 10 <= k < 18
    ensures ParentIndex(k) == -1 <==> StructureDefs[k].parent.None?
    ensures ParentIndex(k) >= 0 ==> ParentIndex(k) < k && StructureDefs[k].parent == Some(StructureDefs[ParentIndex(k)].id)
  {
  }

  lemma GuvParents(k: nat)
    requires 18 <= k < |StructureDefs|
    ensures ParentIndex(k) == -1 <==> StructureDefs[k].parent.None?
    ensures ParentIndex(k) >= 0 ==> ParentIndex(k) < k && StructureDefs[k].parent == Some(StructureDefs[ParentIndex(k)].id)
  {
  }

  /** The table indices of a position's children, in table order. */
  function Children(p: nat): (r: seq<nat>)
    ensures forall i :: 0 <= i < |r| ==> p < r[i] < 35
  {
    if p == 0 then [1, 5, 9]
    else if p == 1 then [2, 3, 4]
    else if p == 5 then [6, 7, 8]
    else if p == 10 then [11, 15, 16, 17]
    else if p == 11 then [12, 13, 14]
    else if p == 18 then [19, 20, 21, 22, 23, 24, 25, 32, 33, 34]
    else if p == 25 then [26, 27, 28, 29, 30, 31]
    else []
  }

  /** The children lists hold exactly the positions whose parent is `p`,
      in increasing order. */
  lemma ChildrenSound(p: nat)
    ensures forall c :: 0 <= c < 35 ==> (c in Children(p) <==> ParentIndex(c) == p)
    ensures forall i, j :: 0 <= i < j < |Children(p)| ==> Children(p)[i] < Children(p)[j]
  {
  }

  /** The side of the position at table index `k`. */
  function KindOf(k: nat): NodeType {
    if k == 0 || k == 10 || k == 18 then Root
    else if k < 10 then Aktiva
    else if k < 18 then Passiva
    else if k < 22 then GuvErtrag
    else GuvAufwand
  }

  /** `KindOf` reads the side off the table.  The table is compared in
      blocks of rows of one side each, which keeps each part small. */
  lemma KindOfSound(k: nat)
    requires k < |StructureDefs|
    ensures StructureDefs[k].kind == KindOf(k)
  {
    if k == 0 || k == 10 || k == 18 {
      RootKinds(k);
    } else if k < 10 {
      AktivaKinds(k);
    } else if k < 18 {
      PassivaKinds(k);
    } else if k < 22 {
      ErtragKinds(k);
    } else {
      AufwandKinds(k);
    }
  }

  lemma RootKinds(k: nat)
    requires k == 0 || k == 10 || k == 18
    ensures StructureDefs[k].kind == Root
  {
  }

  lemma AktivaKinds(k: nat)
    requires 1 <= k < 10
    ensures StructureDefs[k].kind == Aktiva
  {
  }

  lemma PassivaKinds(k: nat)
    requires 11 <= k < 18
    ensures StructureDefs[k].kind == Passiva
  {
  }

  lemma ErtragKinds(k: nat)
    requires 19 <= k < 22
    ensures StructureDefs[k].kind == GuvErtrag
  {
  }

  lemma AufwandKinds(k: nat)
    requires 22 <= k < |StructureDefs|
    ensures StructureDefs[k].kind == GuvAufwand
  {
  }

  /** The lookup of a position's parent by id finds the parent's index. */
  lemma ParentLookup(k: nat)
    requires k < |StructureDefs| && StructureDefs[k].parent.Some?
    ensures DefIndex(StructureDefs[k].parent.value) == Some(ParentIndex(k))
  {
    ParentIndexSound(k);
    DefIndexOf(ParentIndex(k));
  }

  /** A position that may be chosen in the account manager and that the
      classifier may return: any position but the three roots. */
  predicate IsCategory(id: string) {
    var k := DefIndex(id);
    k.Some? && StructureDefs[k.value].kind != Root
  }

  /** The positions offered as categories, in table order. */
  function Categories(): (r: seq<StructureDef>)
    ensures forall d {:trigger d in r} :: d in r <==> d in StructureDefs && d.kind != Root
  {
    NonRoot(StructureDefs)
  }

  /** `defs.filter(d => d.type !== 'ROOT')`. */
  function NonRoot(defs: seq<StructureDef>): (r: seq<StructureDef>)
    ensures forall d {:trigger d in r} :: d in r <==> d in defs && d.kind != Root
    ensures |r| <= |defs|
  {
    if defs == [] then []
    else
      assert forall d :: d in defs <==> d == defs[0] || d in defs[1..];
      if defs[0].kind == Root then NonRoot(defs[1..])
      else [defs[0]] + NonRoot(defs[1..])
  }

  /** The categories keep the relative order of the table: the categories
      of a table split in two are those of the first part, then those of
      the second. */
  lemma {:induction false} NonRootAppend(a: seq<StructureDef>, b: seq<StructureDef>)
    ensures NonRoot(a + b) == NonRoot(a) + NonRoot(b)
  {
    if a == [] {
      assert a + b == b;
    } else {
      var ab := a + b;
      assert ab[0] == a[0];
      assert ab[1..] == a[1..] + b;
      NonRootAppend(a[1..], b);
      if a[0].kind == Root {
        assert NonRoot(ab) == NonRoot(a[1..] + b);
      } else {
        assert NonRoot(ab) == [a[0]] + NonRoot(a[1..] + b);
        assert NonRoot(a) == [a[0]] + NonRoot(a[1..]);
      }
    }
  }

  /** Each position occurs among the categories as often as in the table
      when it is not a root, and not at all otherwise. */
  lemma {:induction false} NonRootCount(defs: seq<StructureDef>, d: StructureDef)
    ensures multiset(NonRoot(defs))[d] == if d.kind != Root then multiset(defs)[d] else 0
  {
    if defs != [] {
      assert defs == [defs[0]] + defs[1..];
      NonRootCount(defs[1..], d);
    }
  }

  // ------------------------------------------------------------ classifier

  /** A user's override for one account number: a display name and a
      position id, each optional; an empty position id means "automatic". */
  datatype MappingEntry = MappingEntry(name: Option<string>, structureId: Option<string>)

  type Mapping = map<string, MappingEntry>

  /** The override for `acc` that the classifier obeys: an entry with a
      non-empty position id. */
  predicate HasOverride(acc: string, mapping: Mapping) {
    acc in mapping && mapping[acc].structureId.Some? && mapping[acc].structureId.value != ""
  }

  /** The position an account number belongs to, or `None` for an account
      that the report lists as unassigned. */
  function Classify(acc: string, mapping: Mapping): (r: Option<string>)
    ensures HasOverride(acc, mapping) ==> r == mapping[acc].structureId
    ensures !HasOverride(acc, mapping) ==> r == ClassifyNumber(ParseInt(acc))
  {
    if HasOverride(acc, mapping) then mapping[acc].structureId
    else ClassifyNumber(ParseInt(acc))
  }

  /** The default SKR04 rules: the first range that contains the number
      decides. */
  function ClassifyNumber(num: Option<int>): (r: Option<string>)
  {
    match num
    case None => None
    case Some(n) =>
      if 100 <= n < 200 then Some("av_immat")
      else if 200 <= n < 700 then Some("av_sach")
      else if 700 <= n < 1000 then Some("av_finanz")
      else if 1000 <= n < 1200 then Some("uv_vorrat")
      else if (1200 <= n < 1600) || (10000 <= n < 70000) then Some("uv_ford")
      else if 1600 <= n < 1900 then Some("uv_kasse")
      else if 1900 <= n < 2000 then Some("rap_akt")
      else if 2000 <= n < 2900 then Some("ek_kapital")
      else if 2900 <= n < 2980 then Some("ek_vortrag")
      else if 3000 <= n < 3150 then Some("rs")
      else if (3200 <= n < 3900) || (70000 <= n <= 99999) then Some("verb")
      else if 3900 <= n < 4000 then Some("rap_pass")
      else if n in [4105, 4106, 4107, 4108] || (4100 <= n < 4500) then Some("umsatz")
      else if 4800 <= n < 4830 then Some("bestandsva")
      else if (4830 <= n < 5000) || n == 5730 then Some("sonst_ertrag")
      else if 5000 <= n < 6000 then Some("material")
      else if 6000 <= n < 6200 then Some("personal")
      else if 6200 <= n < 6300 then Some("abschr")
      else if 6300 <= n < 7000 then Some(OtherExpense(n))
      else if 7300 <= n < 7400 then Some("zinsen")
      else if 7600 <= n < 7650 then Some("steuern_er")
      else if 7000 <= n < 8000 then Some("steuern_sonst")
      else None
  }

  /** The detail position of an other operating expense (accounts 6300 to
      6999); the remainder is the catch-all. */
  function OtherExpense(n: int): string
    requires 6300 <= n < 7000
  {
    if n in [6315, 6320, 6325, 6330, 6345, 6350] || (6310 <= n <= 6350) then "sonst_aufw_raum"
    else if n in [6400, 6420, 6436, 6437] || (6400 <= n < 6440) then "sonst_aufw_vers"
    else if n in [6450, 6460, 6490] || (6450 <= n < 6495) then "sonst_aufw_rep"
    else if 6500 <= n < 6600 then "sonst_aufw_kfz"
    else if 6600 <= n < 6700 then "sonst_aufw_werb"
    else "sonst_aufw_rest"
  }

  /** The numbers no default rule covers. */
  predicate Uncovered(n: int) {
    n < 100 || 2980 <= n < 3000 || 3150 <= n < 3200 || 4000 <= n < 4100
    || 4500 <= n < 4800 || 8000 <= n < 10000 || n >= 100000
  }

  /** Without an override, an account is unassigned exactly when its number
      does not parse or falls in a block no rule covers. */
  lemma ClassifyNumberNone(num: Option<int>)
    ensures ClassifyNumber(num).None? <==> num.None? || Uncovered(num.value)
  {
  }

  /** The rules are tried in order: interest (7300 to 7399) and income
      taxes (7600 to 7649) win over the other-taxes block 7000 to 7999 that
      contains them. */
  lemma ClassFirstMatch(n: int)
    requires 7000 <= n < 8000
    ensures 7300 <= n < 7400 ==> ClassifyNumber(Some(n)) == Some("zinsen")
    ensures 7600 <= n < 7650 ==> ClassifyNumber(Some(n)) == Some("steuern_er")
    ensures !(7300 <= n < 7400) && !(7600 <= n < 7650) ==> ClassifyNumber(Some(n)) == Some("steuern_sonst")
  {
  }

  /** Every number from 6300 to 6999 lands on one of the six detail
      positions of the other operating expenses; what no detail rule covers
      goes to the remainder. */
  lemma OtherExpenseDetail(n: int)
    requires 6300 <= n < 7000
    ensures ClassifyNumber(Some(n)) == Some(OtherExpense(n))
    ensures var k := DefIndex(OtherExpense(n));
      k.Some? && ParentIndex(k.value) == 25 && StructureDefs[25].id == "sonst_aufw"
  {
    var id := OtherExpense(n);
    var t: nat := if id == "sonst_aufw_raum" then 26 else if id == "sonst_aufw_vers" then 27
                  else if id == "sonst_aufw_kfz" then 28 else if id == "sonst_aufw_werb" then 29
                  else if id == "sonst_aufw_rep" then 30 else 31;
    assert StructureDefs[t].id == id;
    DefIndexOf(t);
  }

  /** The remainder takes exactly the numbers no detail rule covers. */
  lemma OtherExpenseRest(n: int)
    requires 6300 <= n < 7000
    ensures !(6310 <= n <= 6350) && !(6400 <= n < 6440) && !(6450 <= n < 6495) && !(6500 <= n < 6700)
            <==> OtherExpense(n) == "sonst_aufw_rest"
  {
  }

  /** The ids the default rules produce, and their positions in the table. */
  const RuleTargets: seq<string> := [
    "av_immat", "av_sach", "av_finanz", "uv_vorrat", "uv_ford", "uv_kasse", "rap_akt",
    "ek_kapital", "ek_vortrag", "rs", "verb", "rap_pass",
    "umsatz", "bestandsva", "sonst_ertrag", "material", "personal", "abschr",
    "sonst_aufw_raum", "sonst_aufw_vers", "sonst_aufw_kfz", "sonst_aufw_werb", "sonst_aufw_rep", "sonst_aufw_rest",
    "zinsen", "steuern_er", "steuern_sonst"]
  const RuleTargetIndices: seq<nat> := [
    2, 3, 4, 6, 7, 8, 9,
    12, 13, 15, 16, 17,
    19, 20, 21, 22, 23, 24,
    26, 27, 28, 29, 30, 31,
    32, 33, 34]

  /** Every rule target is a position of the table that is not a root. */
  lemma RuleTargetsInTable()
    ensures |RuleTargets| == |RuleTargetIndices|
    ensures forall t :: 0 <= t < |RuleTargets| ==>
      RuleTargetIndices[t] < |StructureDefs| && StructureDefs[RuleTargetIndices[t]].id == RuleTargets[t]
      && StructureDefs[RuleTargetIndices[t]].kind != Root
  {
    BalanceRuleTargets();
    IncomeRuleTargets();
    ExpenseRuleTargets();
  }

  lemma BalanceRuleTargets()
    ensures |RuleTargets| == |RuleTargetIndices| == 27
    ensures forall t :: 0 <= t < 12 ==>
      RuleTargetIndices[t] < |StructureDefs| && StructureDefs[RuleTargetIndices[t]].id == RuleTargets[t]
      && StructureDefs[RuleTargetIndices[t]].kind != Root
  {
    AssetTargets();
    LiabilityTargets();
  }

  lemma IncomeRuleTargets()
    ensures |RuleTargets| == |RuleTargetIndices| == 27
    ensures forall t :: 12 <= t < 18 ==>
      RuleTargetIndices[t] < |StructureDefs| && StructureDefs[RuleTargetIndices[t]].id == RuleTargets[t]
      && StructureDefs[RuleTargetIndices[t]].kind != Root
  {
    IncomeTargets();
  }

  lemma ExpenseRuleTargets()
    ensures |RuleTargets| == |RuleTargetIndices| == 27
    ensures forall t :: 18 <= t < 27 ==>
      RuleTargetIndices[t] < |StructureDefs| && StructureDefs[RuleTargetIndices[t]].id == RuleTargets[t]
      && StructureDefs[RuleTargetIndices[t]].kind != Root
  {
    ExpenseTargets();
  }

  /** The rule targets of the asset side of the balance sheet. */
  lemma AssetTargets()
    ensures |StructureDefs| == 35
    ensures StructureDefs[2].id == "av_immat" && StructureDefs[2].kind != Root
    ensures StructureDefs[3].id == "av_sach" && StructureDefs[3].kind != Root
    ensures StructureDefs[4].id == "av_finanz" && StructureDefs[4].kind != Root
    ensures StructureDefs[6].id == "uv_vorrat" && StructureDefs[6].kind != Root
    ensures StructureDefs[7].id == "uv_ford" && StructureDefs[7].kind != Root
    ensures StructureDefs[8].id == "uv_kasse" && StructureDefs[8].kind != Root
    ensures StructureDefs[9].id == "rap_akt" && StructureDefs[9].kind != Root
  {
  }

  /** The rule targets of equity and liabilities. */
  lemma LiabilityTargets()
    ensures |StructureDefs| == 35
    ensures StructureDefs[12].id == "ek_kapital" && StructureDefs[12].kind != Root
    ensures StructureDefs[13].id == "ek_vortrag" && StructureDefs[13].kind != Root
    ensures StructureDefs[15].id == "rs" && StructureDefs[15].kind != Root
    ensures StructureDefs[16].id == "verb" && StructureDefs[16].kind != Root
    ensures StructureDefs[17].id == "rap_pass" && StructureDefs[17].kind != Root
  {
  }

  /** The rule targets of the profit and loss statement up to the other expenses. */
  lemma IncomeTargets()
    ensures |StructureDefs| == 35
    ensures StructureDefs[19].id == "umsatz" && StructureDefs[19].kind != Root
    ensures StructureDefs[20].id == "bestandsva" && StructureDefs[20].kind != Root
    ensures StructureDefs[21].id == "sonst_ertrag" && StructureDefs[21].kind != Root
    ensures StructureDefs[22].id == "material" && StructureDefs[22].kind != Root
    ensures StructureDefs[23].id == "personal" && StructureDefs[23].kind != Root
    ensures StructureDefs[24].id == "abschr" && StructureDefs[24].kind != Root
  {
  }

  /** The rule targets of the other operating expenses, interest and taxes. */
  lemma ExpenseTargets()
    ensures |StructureDefs| == 35
    ensures StructureDefs[26].id == "sonst_aufw_raum" && StructureDefs[26].kind != Root
    ensures StructureDefs[27].id == "sonst_aufw_vers" && StructureDefs[27].kind != Root
    ensures StructureDefs[28].id == "sonst_aufw_kfz" && StructureDefs[28].kind != Root
    ensures StructureDefs[29].id == "sonst_aufw_werb" && StructureDefs[29].kind != Root
    ensures StructureDefs[30].id == "sonst_aufw_rep" && StructureDefs[30].kind != Root
    ensures StructureDefs[31].id == "sonst_aufw_rest" && StructureDefs[31].kind != Root
    ensures StructureDefs[32].id == "zinsen" && StructureDefs[32].kind != Root
    ensures StructureDefs[33].id == "steuern_er" && StructureDefs[33].kind != Root
    ensures StructureDefs[34].id == "steuern_sonst" && StructureDefs[34].kind != Root
  {
  }

  /** Without an override, the classifier names a category of the table. */
  lemma ClassifyNumberIsCategory(num: Option<int>)
    requires ClassifyNumber(num).Some?
    ensures IsCategory(ClassifyNumber(num).value)
  {
    var id := ClassifyNumber(num).value;
    assert id in RuleTargets;
    RuleTargetsInTable();
    var t :| 0 <= t < |RuleTargets| && RuleTargets[t] == id;
    DefIndexOf(RuleTargetIndices[t]);
  }

  /** Without an override, the classifier names a position that the table
      has, and that position is one of the rule targets. */
  lemma ClassifyNumberTarget(num: Option<int>)
    requires ClassifyNumber(num).Some?
    ensures DefIndex(ClassifyNumber(num).value).Some?
    ensures DefIndex(ClassifyNumber(num).value).value in RuleTargetIndices
  {
    var id := ClassifyNumber(num).value;
    assert id in RuleTargets;
    RuleTargetsInTable();
    var t :| 0 <= t < |RuleTargets| && RuleTargets[t] == id;
    DefIndexOf(RuleTargetIndices[t]);
  }

  /** The default rules never name a root or `ek_ergebnis`. */
  lemma RuleTargetsOrdinary(k: nat)
    requires k in RuleTargetIndices
    ensures k != 0 && k != 10 && k != 14 && k != 18
  {
  }

  lemma ErgebnisId()
    ensures |StructureDefs| > 14 && StructureDefs[14].id == "ek_ergebnis"
  {
  }
}
