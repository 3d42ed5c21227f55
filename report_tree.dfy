/** The shape of the statement tree that the SKR04 table defines, and the
    bottom-up recomputation of position amounts (`calculateTotals` in the
    report generator). Positions are addressed by their table index. */
module ReportTree {
  import opened Wrappers
  import opened Types
  import opened Skr04

  /** The number of positions in the table. */
  const N: nat := 35

  /** The table index of the three roots, in table order. */
  const Roots: seq<nat> := [0, 10, 18]

  lemma TableSize()
    ensures |StructureDefs| == N
  {
  }

  // ------------------------------------------------------------ subtrees

  /** `m` lies in the subtree rooted at `k`: following parents from `m`
      reaches `k`. */
  predicate InSubtree(m: nat, k: nat)
    decreases m
  {
    m == k || (ParentIndex(m) >= 0 && InSubtree(ParentIndex(m) as nat, k))
  }

  /** `m` lies in the subtree of one of `cs`. */
  predicate InAny(m: nat, cs: seq<nat>) {
    cs != [] && (InAny(m, cs[..|cs| - 1]) || InSubtree(m, cs[|cs| - 1]))
  }

  lemma {:induction false} InAnyExists(m: nat, cs: seq<nat>)
    ensures InAny(m, cs) <==> exists j :: 0 <= j < |cs| && InSubtree(m, cs[j])
  {
    if cs != [] {
      var init := cs[..|cs| - 1];
      InAnyExists(m, init);
      if InAny(m, cs) && !InSubtree(m, cs[|cs| - 1]) {
        var j :| 0 <= j < |init| && InSubtree(m, init[j]);
        assert cs[j] == init[j];
      }
      if exists j :: 0 <= j < |cs| && InSubtree(m, cs[j]) {
        var j :| 0 <= j < |cs| && InSubtree(m, cs[j]);
        if j < |init| {
          assert init[j] == cs[j];
        }
      }
    }
  }

  /** Every position of a subtree comes at or after its root. */
  lemma {:induction false} SubtreeAbove(m: nat, k: nat)
    requires InSubtree(m, k)
    ensures k <= m
    decreases m
  {
    if m != k {
      SubtreeAbove(ParentIndex(m) as nat, k);
    }
  }

  /** A subtree hangs below its root's parent. */
  lemma {:induction false} SubtreeTrans(m: nat, c: nat, k: nat)
    requires InSubtree(m, c) && ParentIndex(c) == k
    ensures InSubtree(m, k)
    decreases m
  {
    if m != c {
      SubtreeTrans(ParentIndex(m) as nat, c, k);
    }
  }

  /** Below its root, a subtree is the union of its children's subtrees. */
  lemma {:induction false} SubtreeSplit(m: nat, k: nat)
    requires m < N && m != k
    ensures InSubtree(m, k) <==> InAny(m, Children(k))
    decreases m
  {
    InAnyExists(m, Children(k));
    ChildrenSound(k);
    if InSubtree(m, k) {
      var p := ParentIndex(m) as nat;
      if p == k {
        assert m in Children(k);
        var j :| 0 <= j < |Children(k)| && Children(k)[j] == m;
        assert InSubtree(m, Children(k)[j]);
      } else {
        SubtreeSplit(p, k);
        InAnyExists(p, Children(k));
        var j :| 0 <= j < |Children(k)| && InSubtree(p, Children(k)[j]);
        assert InSubtree(m, Children(k)[j]);
      }
    }
    if InAny(m, Children(k)) {
      var j :| 0 <= j < |Children(k)| && InSubtree(m, Children(k)[j]);
      var c := Children(k)[j];
      assert ParentIndex(c) == k;
      SubtreeTrans(m, c, k);
    }
  }

  /** Every position lies below one of the three roots. */
  lemma {:induction false} UnderSomeRoot(m: nat)
    requires m < N
    ensures InAny(m, Roots)
    decreases m
  {
    InAnyExists(m, Roots);
    var p := ParentIndex(m);
    if p < 0 {
      assert m == Roots[0] || m == Roots[1] || m == Roots[2];
    } else {
      UnderSomeRoot(p as nat);
      InAnyExists(p as nat, Roots);
      var j :| 0 <= j < |Roots| && InSubtree(p as nat, Roots[j]);
      assert InSubtree(m, Roots[j]);
    }
  }

  // ------------------------------------------------------------ linking

  /** The elements of `s` below `j`, in order: the children a position has
      collected once the link loop has passed the first `j` positions. */
  function Below(s: seq<nat>, j: nat): (r: seq<nat>)
    ensures |r| <= |s|
  {
    if s == [] then []
    else if s[|s| - 1] < j then Below(s[..|s| - 1], j) + [s[|s| - 1]]
    else Below(s[..|s| - 1], j)
  }

  predicate Increasing(s: seq<nat>) {
    forall i, i' :: 0 <= i < i' < |s| ==> s[i] < s[i']
  }

  lemma {:induction false} BelowNone(s: seq<nat>)
    ensures Below(s, 0) == []
  {
    if s != [] {
      BelowNone(s[..|s| - 1]);
    }
  }

  lemma {:induction false} BelowAll(s: seq<nat>, j: nat)
    requires forall i :: 0 <= i < |s| ==> s[i] < j
    ensures Below(s, j) == s
  {
    if s != [] {
      BelowAll(s[..|s| - 1], j);
    }
  }

  lemma BelowSnoc(init: seq<nat>, x: nat, j: nat)
    ensures Below(init + [x], j) == if x < j then Below(init, j) + [x] else Below(init, j)
  {
    assert (init + [x])[..|init|] == init;
  }

  lemma IncreasingInit(s: seq<nat>)
    requires s != [] && Increasing(s)
    ensures Increasing(s[..|s| - 1])
    ensures forall i :: 0 <= i < |s| - 1 ==> s[i] < s[|s| - 1]
  {
  }

  /** Passing position `j` appends `j` exactly when it belongs to `s`. */
  lemma {:induction false} BelowStep(s: seq<nat>, j: nat)
    requires Increasing(s)
    ensures Below(s, j + 1) == if j in s then Below(s, j) + [j] else Below(s, j)
  {
    if s != [] {
      var init := s[..|s| - 1];
      var x := s[|s| - 1];
      IncreasingInit(s);
      assert s == init + [x];
      if x <= j {
        BelowAll(init, j);
        BelowAll(init, j + 1);
        assert j !in init;
        BelowStepAtEnd(init, x, j);
      } else {
        BelowStep(init, j);
        BelowStepPast(init, x, j);
      }
    }
  }

  lemma BelowStepAtEnd(init: seq<nat>, x: nat, j: nat)
    requires Below(init, j) == init && Below(init, j + 1) == init && j !in init
    requires x <= j
    ensures Below(init + [x], j + 1) == if j in init + [x] then Below(init + [x], j) + [j] else Below(init + [x], j)
  {
    BelowSnoc(init, x, j);
    BelowSnoc(init, x, j + 1);
    assert j in init + [x] <==> x == j;
  }

  lemma BelowStepPast(init: seq<nat>, x: nat, j: nat)
    requires j < x
    requires Below(init, j + 1) == if j in init then Below(init, j) + [j] else Below(init, j)
    ensures Below(init + [x], j + 1) == if j in init + [x] then Below(init + [x], j) + [j] else Below(init + [x], j)
  {
    BelowSnoc(init, x, j);
    BelowSnoc(init, x, j + 1);
    assert j in init + [x] <==> j in init;
  }

  /** The children lists after the link loop has passed the first `j`
      positions. */
  lemma LinkStep(j: nat, q: nat)
    requires j < N
    ensures Below(Children(q), j + 1) == if ParentIndex(j) == q then Below(Children(q), j) + [j] else Below(Children(q), j)
  {
    ChildrenSound(q);
    BelowStep(Children(q), j);
  }

  /** The roots recorded once the link loop has passed the first `j`
      positions. */
  lemma RootStep(j: nat)
    requires j < N
    ensures Below(Roots, j + 1) == if ParentIndex(j) < 0 then Below(Roots, j) + [j] else Below(Roots, j)
  {
    BelowStep(Roots, j);
  }

  /** `children` holds, for every position, its children among the first
      `j` positions. */
  predicate LinkedUpTo(children: seq<seq<nat>>, j: nat) {
    |children| == N && forall p :: 0 <= p < N ==> children[p] == Below(Children(p), j)
  }

  lemma LinkStart()
    ensures LinkedUpTo(seq(N, p => []), 0)
  {
    forall p | 0 <= p < N
      ensures Below(Children(p), 0) == []
    {
      BelowNone(Children(p));
    }
  }

  /** Linking position `j` under its parent. */
  lemma LinkAdd(children: seq<seq<nat>>, j: nat)
    requires j < N && ParentIndex(j) >= 0 && LinkedUpTo(children, j)
    ensures Children(ParentIndex(j) as nat) != []
    ensures LinkedUpTo(children[ParentIndex(j) := children[ParentIndex(j)] + [j]], j + 1)
  {
    var p := ParentIndex(j) as nat;
    ChildrenSound(p);
    assert j in Children(p);
    forall q | 0 <= q < N
      ensures children[p := children[p] + [j]][q] == Below(Children(q), j + 1)
    {
      LinkStep(j, q);
    }
  }

  /** Passing a root leaves the children lists unchanged. */
  lemma LinkSkip(children: seq<seq<nat>>, j: nat)
    requires j < N && ParentIndex(j) < 0 && LinkedUpTo(children, j)
    ensures LinkedUpTo(children, j + 1)
  {
    forall q | 0 <= q < N
      ensures children[q] == Below(Children(q), j + 1)
    {
      LinkStep(j, q);
    }
  }

  lemma LinkEnd(children: seq<seq<nat>>)
    requires LinkedUpTo(children, N)
    ensures children == ChildLists()
  {
    forall p | 0 <= p < N
      ensures children[p] == Children(p)
    {
      BelowAll(Children(p), N);
    }
  }

  /** `a` and `b` agree on every position without children. */
  predicate LeavesAgree(a: seq<real>, b: seq<real>) {
    |a| == N && |b| == N && forall m :: 0 <= m < N && Children(m) == [] ==> a[m] == b[m]
  }

  lemma KeepLeaves(a: seq<real>, b: seq<real>, p: nat, x: real)
    requires LeavesAgree(a, b) && p < N && Children(p) != []
    ensures LeavesAgree(a[p := x], b)
  {
  }

  /** The parent named in the table is found where `ParentIndex` says. */
  lemma ParentStep(j: nat)
    requires j < N
    ensures StructureDefs[j].parent.Some? <==> ParentIndex(j) >= 0
    ensures StructureDefs[j].parent.Some? ==> DefIndex(StructureDefs[j].parent.value) == Some(ParentIndex(j) as nat)
  {
    ParentIndexSound(j);
    if StructureDefs[j].parent.Some? {
      ParentLookup(j);
    }
  }

  /** Links every position under its parent, in table order, and adds the
      amount it has at that moment to the parent's amount; the positions
      without parent are collected as roots. Leaves keep their amounts. */
  method LinkItems(amounts: seq<real>) returns (linked: seq<real>, children: seq<seq<nat>>, roots: seq<nat>)
    requires |amounts| == N
    ensures |linked| == N && |children| == N
    ensures children == ChildLists()
    ensures roots == Roots
    ensures LeavesAgree(linked, amounts)
  {
    linked, children, roots := LinkAll(amounts);
    LinkEnd(children);
    BelowAll(Roots, N);
  }

  /** The linking loop: after `j` steps the first `j` positions are linked. */
  method LinkAll(amounts: seq<real>) returns (linked: seq<real>, children: seq<seq<nat>>, roots: seq<nat>)
    requires |amounts| == N
    ensures LinkedUpTo(children, N) && roots == Below(Roots, N) && LeavesAgree(linked, amounts)
  {
    linked := amounts;
    children := seq(N, p => []);
    roots := [];
    LinkStart();
    BelowNone(Roots);
    var j := 0;
    while j < N
      invariant 0 <= j <= N
      invariant LinkedUpTo(children, j)
      invariant roots == Below(Roots, j)
      invariant LeavesAgree(linked, amounts)
    {
      linked, children, roots := LinkOne(amounts, linked, children, roots, j);
      j := j + 1;
    }
  }

  /** The position of `j`'s parent, found by looking its id up among the
      positions; none for the three roots. */
  method FindParent(j: nat) returns (parent: Option<nat>)
    requires j < N
    ensures parent.Some? <==> ParentIndex(j) >= 0
    ensures parent.Some? ==> parent.value == ParentIndex(j) as nat
  {
    ParentStep(j);
    var def := StructureDefs[j];
    if def.parent.Some? {
      parent := DefIndex(def.parent.value);
    } else {
      parent := None;
    }
  }

  /** Linking a position with a parent: the parent's list and amount grow,
      the roots stay. */
  lemma LinkUnder(amounts: seq<real>, linked: seq<real>, children: seq<seq<nat>>, roots: seq<nat>, j: nat)
    requires j < N && ParentIndex(j) >= 0
    requires LinkedUpTo(children, j) && roots == Below(Roots, j) && LeavesAgree(linked, amounts)
    ensures var p := ParentIndex(j) as nat;
      LinkedUpTo(children[p := children[p] + [j]], j + 1) && roots == Below(Roots, j + 1)
      && LeavesAgree(linked[p := linked[p] + linked[j]], amounts)
  {
    var p := ParentIndex(j) as nat;
    RootStep(j);
    LinkAdd(children, j);
    KeepLeaves(linked, amounts, p, linked[p] + linked[j]);
  }

  /** Linking a root: only the roots grow. */
  lemma LinkRoot(children: seq<seq<nat>>, roots: seq<nat>, j: nat)
    requires j < N && ParentIndex(j) < 0 && LinkedUpTo(children, j) && roots == Below(Roots, j)
    ensures LinkedUpTo(children, j + 1) && roots + [j] == Below(Roots, j + 1)
  {
    RootStep(j);
    LinkSkip(children, j);
  }

  /** One step of `LinkItems`: position `j` goes under its parent, whose
      amount grows by `j`'s amount, or among the roots. */
  method LinkOne(amounts: seq<real>, linked: seq<real>, children: seq<seq<nat>>, roots: seq<nat>, j: nat)
    returns (linked': seq<real>, children': seq<seq<nat>>, roots': seq<nat>)
    requires j < N && LinkedUpTo(children, j) && roots == Below(Roots, j) && LeavesAgree(linked, amounts)
    ensures LinkedUpTo(children', j + 1) && roots' == Below(Roots, j + 1) && LeavesAgree(linked', amounts)
    ensures linked' == if ParentIndex(j) >= 0 then linked[ParentIndex(j) := linked[ParentIndex(j)] + linked[j]] else linked
  {
    var parent := FindParent(j);
    if parent.Some? {
      var p := parent.value;
      LinkUnder(amounts, linked, children, roots, j);
      children' := children[p := children[p] + [j]];
      linked' := linked[p := linked[p] + linked[j]];
      roots' := roots;
    } else {
      LinkRoot(children, roots, j);
      linked', children', roots' := linked, children, roots + [j];
    }
  }

  // ------------------------------------------------------------ totals

  /** The children lists of the table, by position. */
  function ChildLists(): (r: seq<seq<nat>>)
    ensures |r| == N
  {
    seq(N, p requires 0 <= p => Children(p))
  }

  /** `ch` is a children table over the positions in which every child
      comes after its parent. */
  predicate ChildTable(ch: seq<seq<nat>>) {
    |ch| == N && forall p, i :: 0 <= p < N && 0 <= i < |ch[p]| ==> p < ch[p][i] < N
  }

  /** `ch` lists the children of the table: below its root, every subtree
      is the union of the subtrees of the root's children. */
  predicate TreeOf(ch: seq<seq<nat>>) {
    ChildTable(ch) &&
    forall m, k :: 0 <= m < N && 0 <= k < N && m != k ==> (InSubtree(m, k) <==> InAny(m, ch[k]))
  }

  lemma ChildListsTree()
    ensures ChildTable(ChildLists()) && TreeOf(ChildLists())
  {
    var ch := ChildLists();
    forall m, k | 0 <= m < N && 0 <= k < N && m != k
      ensures InSubtree(m, k) <==> InAny(m, ch[k])
    {
      SubtreeSplit(m, k);
    }
  }

  /** The sum of a list of amounts, added from the left (`reduce`). */
  function SumReals(xs: seq<real>): real {
    if xs == [] then 0.0 else SumReals(xs[..|xs| - 1]) + xs[|xs| - 1]
  }

  /** The amount `calculateTotals` gives position `k`: the sum of its
      children's totals and of its own accounts' balances when it has
      children, its current amount otherwise. */
  function Total(a: seq<real>, att: seq<seq<Account>>, ch: seq<seq<nat>>, k: nat): real
    requires |a| == N && |att| == N && ChildTable(ch) && k < N
    decreases N - k, 1
  {
    if ch[k] == [] then a[k]
    else SumReals(ChildTotals(a, att, ch, k)) + SumBalances(att[k])
  }

  /** The totals of the children of `k`, in order. */
  function ChildTotals(a: seq<real>, att: seq<seq<Account>>, ch: seq<seq<nat>>, k: nat): (r: seq<real>)
    requires |a| == N && |att| == N && ChildTable(ch) && k < N
    ensures |r| == |ch[k]|
    decreases N - k, 0
  {
    seq(|ch[k]|, i requires 0 <= i < |ch[k]| => Total(a, att, ch, ch[k][i]))
  }

  /** Two amount vectors that agree on the leaves give every position the
      same total. */
  lemma {:induction false} SameLeavesTotal(a: seq<real>, b: seq<real>, att: seq<seq<Account>>, ch: seq<seq<nat>>, k: nat)
    requires |a| == N && |b| == N && |att| == N && ChildTable(ch) && k < N
    requires forall m :: 0 <= m < N && ch[m] == [] ==> a[m] == b[m]
    ensures Total(a, att, ch, k) == Total(b, att, ch, k)
    decreases N - k
  {
    if ch[k] != [] {
      forall i | 0 <= i < |ch[k]|
        ensures ChildTotals(a, att, ch, k)[i] == ChildTotals(b, att, ch, k)[i]
      {
        SameLeavesTotal(a, b, att, ch, ch[k][i]);
      }
      assert ChildTotals(a, att, ch, k) == ChildTotals(b, att, ch, k);
    }
  }

  /** `after` is `before` with every position with children in the subtrees
      of `cs` set to its total. */
  predicate UpdatedOver(after: seq<real>, before: seq<real>, att: seq<seq<Account>>, ch: seq<seq<nat>>, cs: seq<nat>)
    requires |before| == N && |att| == N && ChildTable(ch)
  {
    |after| == N &&
    forall m :: 0 <= m < N ==>
      after[m] == (if InAny(m, cs) && ch[m] != [] then Total(before, att, ch, m) else before[m])
  }

  /** Recomputing one more subtree extends the set of updated subtrees. */
  lemma UpdatedStep(a0: seq<real>, mid: seq<real>, after: seq<real>, att: seq<seq<Account>>, ch: seq<seq<nat>>, cs: seq<nat>, c: nat)
    requires |a0| == N && |att| == N && ChildTable(ch) && c < N
    requires UpdatedOver(mid, a0, att, ch, cs)
    requires UpdatedOver(after, mid, att, ch, [c])
    ensures UpdatedOver(after, a0, att, ch, cs + [c])
    ensures Total(mid, att, ch, c) == Total(a0, att, ch, c)
  {
    assert (cs + [c])[..|cs|] == cs;
    assert [c][..0] == [];
    assert forall m :: 0 <= m < N && ch[m] == [] ==> mid[m] == a0[m];
    forall m | 0 <= m < N
      ensures after[m] == (if InAny(m, cs + [c]) && ch[m] != [] then Total(a0, att, ch, m) else a0[m])
    {
      assert InAny(m, cs + [c]) <==> InAny(m, cs) || InSubtree(m, c);
      assert InAny(m, [c]) <==> InSubtree(m, c);
      SameLeavesTotal(mid, a0, att, ch, m);
    }
    SameLeavesTotal(mid, a0, att, ch, c);
  }

  lemma SumRealsStep(xs: seq<real>, i: nat)
    requires i < |xs|
    ensures SumReals(xs[..i + 1]) == SumReals(xs[..i]) + xs[i]
  {
    assert xs[..i + 1][..i] == xs[..i];
  }

  /** Once the subtrees of all children of `k` are updated, setting `k` to
      its total updates the whole subtree of `k`. */
  lemma FinishSubtree(a: seq<real>, mid: seq<real>, att: seq<seq<Account>>, ch: seq<seq<nat>>, k: nat)
    requires |a| == N && |att| == N && TreeOf(ch) && k < N && ch[k] != []
    requires UpdatedOver(mid, a, att, ch, ch[k])
    ensures UpdatedOver(mid[k := Total(a, att, ch, k)], a, att, ch, [k])
  {
    assert [k][..0] == [];
    if InAny(k, ch[k]) {
      InAnyExists(k, ch[k]);
      var j :| 0 <= j < |ch[k]| && InSubtree(k, ch[k][j]);
      SubtreeAbove(k, ch[k][j]);
    }
    var t := Total(a, att, ch, k);
    forall m | 0 <= m < N
      ensures mid[k := t][m] == (if InAny(m, [k]) && ch[m] != [] then Total(a, att, ch, m) else a[m])
    {
      assert InAny(m, [k]) <==> InSubtree(m, k);
      if m != k {
        assert InSubtree(m, k) <==> InAny(m, ch[k]);
      }
    }
  }

  /** `calculateTotals`: recomputes the amounts in the subtree of `k`
      bottom-up and returns the total of `k`. Exactly the positions with
      children in that subtree change, each to its total. */
  method CalculateTotals(a: seq<real>, att: seq<seq<Account>>, children: seq<seq<nat>>, k: nat)
    returns (after: seq<real>, total: real)
    requires |a| == N && |att| == N && TreeOf(children) && k < N
    ensures UpdatedOver(after, a, att, children, [k])
    ensures total == Total(a, att, children, k)
    decreases N - k, 1
  {
    if children[k] == [] {
      assert [k][..0] == [];
      return a, a[k];
    }
    var sum;
    after, sum := TotalChildren(a, att, children, k);
    var own := SumBalances(att[k]);
    total := sum + own;
    FinishSubtree(a, after, att, children, k);
    after := after[k := total];
  }

  /** The `reduce` over the children of `k`: recomputes each child's
      subtree in turn and sums the children's totals. */
  method TotalChildren(a: seq<real>, att: seq<seq<Account>>, children: seq<seq<nat>>, k: nat)
    returns (after: seq<real>, sum: real)
    requires |a| == N && |att| == N && TreeOf(children) && k < N
    ensures UpdatedOver(after, a, att, children, children[k])
    ensures sum == SumReals(ChildTotals(a, att, children, k))
    decreases N - k, 0
  {
    var cs := children[k];
    after := a;
    sum := 0.0;
    var i := 0;
    while i < |cs|
      invariant 0 <= i <= |cs|
      invariant UpdatedOver(after, a, att, children, cs[..i])
      invariant sum == SumReals(ChildTotals(a, att, children, k)[..i])
    {
      var mid := after;
      var t;
      after, t := CalculateTotals(mid, att, children, cs[i]);
      ChildStep(a, mid, after, att, children, k, i, sum, t);
      sum := sum + t;
      i := i + 1;
    }
    assert cs[..i] == cs;
    assert ChildTotals(a, att, children, k)[..i] == ChildTotals(a, att, children, k);
  }

  /** One turn of the `reduce`: the subtree of the `i`-th child is updated
      and its total joins the sum. */
  lemma ChildStep(a: seq<real>, mid: seq<real>, after: seq<real>, att: seq<seq<Account>>, children: seq<seq<nat>>,
                  k: nat, i: nat, sum: real, t: real)
    requires |a| == N && |att| == N && TreeOf(children) && k < N && i < |children[k]|
    requires UpdatedOver(mid, a, att, children, children[k][..i])
    requires sum == SumReals(ChildTotals(a, att, children, k)[..i])
    requires UpdatedOver(after, mid, att, children, [children[k][i]])
    requires t == Total(mid, att, children, children[k][i])
    ensures UpdatedOver(after, a, att, children, children[k][..i + 1])
    ensures sum + t == SumReals(ChildTotals(a, att, children, k)[..i + 1])
  {
    var cs := children[k];
    UpdatedStep(a, mid, after, att, children, cs[..i], cs[i]);
    assert cs[..i + 1] == cs[..i] + [cs[i]];
    SumRealsStep(ChildTotals(a, att, children, k), i);
  }

  /** Runs `calculateTotals` on every root, in order; afterwards every
      position carries its total. */
  method TotalRoots(a: seq<real>, att: seq<seq<Account>>, children: seq<seq<nat>>, roots: seq<nat>)
    returns (after: seq<real>)
    requires |a| == N && |att| == N && TreeOf(children)
    requires roots == Roots
    ensures |after| == N
    ensures forall m :: 0 <= m < N ==> after[m] == Total(a, att, children, m)
  {
    after := a;
    var i := 0;
    assert roots[..0] == [];
    while i < |roots|
      invariant 0 <= i <= |roots|
      invariant UpdatedOver(after, a, att, children, roots[..i])
    {
      var mid := after;
      var rootTotal;
      after, rootTotal := CalculateTotals(mid, att, children, roots[i]);
      UpdatedStep(a, mid, after, att, children, roots[..i], roots[i]);
      assert roots[..i + 1] == roots[..i] + [roots[i]];
      i := i + 1;
    }
    assert roots[..i] == Roots;
    forall m | 0 <= m < N
      ensures after[m] == Total(a, att, children, m)
    {
      UnderSomeRoot(m);
    }
  }

  // ------------------------------------------------------------ subtree blocks

  /** The sum of `v` over the positions `lo` to `hi - 1`. */
  function RangeSum(v: seq<real>, lo: nat, hi: nat): real
    requires hi <= |v|
    decreases hi
  {
    if hi <= lo then 0.0 else RangeSum(v, lo, hi - 1) + v[hi - 1]
  }

  lemma {:induction false} RangeSumSplit(v: seq<real>, lo: nat, mid: nat, hi: nat)
    requires lo <= mid <= hi <= |v|
    ensures RangeSum(v, lo, hi) == RangeSum(v, lo, mid) + RangeSum(v, mid, hi)
    decreases hi
  {
    if hi > mid {
      RangeSumSplit(v, lo, mid, hi - 1);
    }
  }

  /** The table lists every subtree as one block of consecutive positions;
      `End(k)` is the position just after the block of `k`. */
  function End(k: nat): (r: nat)
    ensures k < r
  {
    if k == 0 then 10
    else if k == 1 then 5
    else if k == 5 then 9
    else if k == 10 then 18
    else if k == 11 then 15
    else if k == 18 then 35
    else if k == 25 then 32
    else k + 1
  }

  /** The blocks of `cs`, one after the other, cover `lo` to `hi - 1`. */
  predicate Tiles(cs: seq<nat>, lo: nat, hi: nat) {
    if cs == [] then lo == hi
    else Tiles(cs[..|cs| - 1], lo, cs[|cs| - 1]) && End(cs[|cs| - 1]) == hi
  }

  lemma TilesSnoc(cs: seq<nat>, lo: nat, x: nat)
    requires Tiles(cs, lo, x)
    ensures Tiles(cs + [x], lo, End(x))
  {
    assert (cs + [x])[..|cs|] == cs;
  }

  /** The blocks of a position's children follow the position itself and
      fill the rest of its block. */
  lemma ChildrenTile(k: nat)
    requires k < N
    ensures Tiles(Children(k), k + 1, End(k))
    ensures End(k) <= N
  {
    if k == 0 {
      AktivaTiles();
    } else if k == 1 {
      FixedAssetTiles();
    } else if k == 5 {
      CurrentAssetTiles();
    } else if k == 10 {
      PassivaTiles();
    } else if k == 11 {
      EquityTiles();
    } else if k == 18 {
      GuvTiles();
    } else if k == 25 {
      OtherExpenseTiles();
    }
  }

  lemma AktivaTiles()
    ensures Tiles(Children(0), 1, 10)
  {
    var s0: seq<nat> := [];
    TilesSnoc(s0, 1, 1);
    var s1 := s0 + [1];
    TilesSnoc(s1, 1, 5);
    var s2 := s1 + [5];
    TilesSnoc(s2, 1, 9);
    var s3 := s2 + [9];
    assert s3 == Children(0);
  }

  lemma FixedAssetTiles()
    ensures Tiles(Children(1), 2, 5)
  {
    var s0: seq<nat> := [];
    TilesSnoc(s0, 2, 2);
    var s1 := s0 + [2];
    TilesSnoc(s1, 2, 3);
    var s2 := s1 + [3];
    TilesSnoc(s2, 2, 4);
    var s3 := s2 + [4];
    assert s3 == Children(1);
  }

  lemma CurrentAssetTiles()
    ensures Tiles(Children(5), 6, 9)
  {
    var s0: seq<nat> := [];
    TilesSnoc(s0, 6, 6);
    var s1 := s0 + [6];
    TilesSnoc(s1, 6, 7);
    var s2 := s1 + [7];
    TilesSnoc(s2, 6, 8);
    var s3 := s2 + [8];
    assert s3 == Children(5);
  }

  lemma PassivaTiles()
    ensures Tiles(Children(10), 11, 18)
  {
    var s0: seq<nat> := [];
    TilesSnoc(s0, 11, 11);
    var s1 := s0 + [11];
    TilesSnoc(s1, 11, 15);
    var s2 := s1 + [15];
    TilesSnoc(s2, 11, 16);
    var s3 := s2 + [16];
    TilesSnoc(s3, 11, 17);
    var s4 := s3 + [17];
    assert s4 == Children(10);
  }

  lemma EquityTiles()
    ensures Tiles(Children(11), 12, 15)
  {
    var s0: seq<nat> := [];
    TilesSnoc(s0, 12, 12);
    var s1 := s0 + [12];
    TilesSnoc(s1, 12, 13);
    var s2 := s1 + [13];
    TilesSnoc(s2, 12, 14);
    var s3 := s2 + [14];
    assert s3 == Children(11);
  }

  lemma GuvTiles()
    ensures Tiles(Children(18), 19, 35)
  {
    var s7: seq<nat> := [19, 20, 21, 22, 23, 24, 25];
    GuvRevenueTiles();
    TilesSnoc(s7, 19, 32);
    var s8 := s7 + [32];
    TilesSnoc(s8, 19, 33);
    var s9 := s8 + [33];
    TilesSnoc(s9, 19, 34);
    var s10 := s9 + [34];
    assert s10 == Children(18);
  }

  lemma GuvRevenueTiles()
    ensures Tiles([19, 20, 21, 22, 23, 24, 25], 19, 32)
  {
    var s0: seq<nat> := [];
    TilesSnoc(s0, 19, 19);
    var s1 := s0 + [19];
    TilesSnoc(s1, 19, 20);
    var s2 := s1 + [20];
    TilesSnoc(s2, 19, 21);
    var s3 := s2 + [21];
    TilesSnoc(s3, 19, 22);
    var s4 := s3 + [22];
    TilesSnoc(s4, 19, 23);
    var s5 := s4 + [23];
    TilesSnoc(s5, 19, 24);
    var s6 := s5 + [24];
    TilesSnoc(s6, 19, 25);
    assert s6 + [25] == [19, 20, 21, 22, 23, 24, 25];
  }

  lemma OtherExpenseTiles()
    ensures Tiles(Children(25), 26, 32)
  {
    var s0: seq<nat> := [];
    TilesSnoc(s0, 26, 26);
    var s1 := s0 + [26];
    TilesSnoc(s1, 26, 27);
    var s2 := s1 + [27];
    TilesSnoc(s2, 26, 28);
    var s3 := s2 + [28];
    TilesSnoc(s3, 26, 29);
    var s4 := s3 + [29];
    TilesSnoc(s4, 26, 30);
    var s5 := s4 + [30];
    TilesSnoc(s5, 26, 31);
    var s6 := s5 + [31];
    assert s6 == Children(25);
  }

  /** The range sums of the blocks of `cs`. */
  function BlockSums(v: seq<real>, cs: seq<nat>): (r: seq<real>)
    requires |v| == N
    requires forall i :: 0 <= i < |cs| ==> End(cs[i]) <= N
    ensures |r| == |cs|
  {
    seq(|cs|, i requires 0 <= i < |cs| => RangeSum(v, cs[i], End(cs[i])))
  }

  /** Adding up the blocks of a tiling adds up the whole range. */
  lemma {:induction false} TileSum(v: seq<real>, cs: seq<nat>, lo: nat, hi: nat)
    requires |v| == N && hi <= N
    requires forall i :: 0 <= i < |cs| ==> End(cs[i]) <= N
    requires Tiles(cs, lo, hi)
    ensures lo <= hi
    ensures SumReals(BlockSums(v, cs)) == RangeSum(v, lo, hi)
  {
    if cs != [] {
      var init := cs[..|cs| - 1];
      var last := cs[|cs| - 1];
      TileSum(v, init, lo, last);
      assert BlockSums(v, cs)[..|cs| - 1] == BlockSums(v, init);
      RangeSumSplit(v, lo, last, hi);
    }
  }

  /** The own accounts' sum of every position. */
  function Own(att: seq<seq<Account>>): (r: seq<real>)
    requires |att| == N
    ensures |r| == N
  {
    seq(N, m requires 0 <= m < N => SumBalances(att[m]))
  }

  /** Every position without children carries the sum of its own
      accounts. */
  predicate LeavesOwn(a: seq<real>, att: seq<seq<Account>>) {
    |a| == N && |att| == N &&
    forall m :: 0 <= m < N && Children(m) == [] ==> a[m] == SumBalances(att[m])
  }

  /** When every leaf carries the sum of its own accounts, the total of a
      position is the sum of the own accounts over its block. */
  lemma {:induction false} TotalRange(a: seq<real>, att: seq<seq<Account>>, k: nat)
    requires LeavesOwn(a, att) && k < N
    ensures End(k) <= N
    ensures Total(a, att, ChildLists(), k) == RangeSum(Own(att), k, End(k))
    decreases N - k
  {
    ChildrenTile(k);
    ChildListsTree();
    var cs := Children(k);
    if cs == [] {
      assert ChildLists()[k] == [];
    } else {
      forall i | 0 <= i < |cs|
        ensures End(cs[i]) <= N
        ensures Total(a, att, ChildLists(), cs[i]) == RangeSum(Own(att), cs[i], End(cs[i]))
      {
        TotalRange(a, att, cs[i]);
      }
      assert ChildLists()[k] == cs;
      InternalRange(a, att, ChildLists(), k);
    }
  }

  lemma InternalRange(a: seq<real>, att: seq<seq<Account>>, ch: seq<seq<nat>>, k: nat)
    requires |a| == N && |att| == N && ChildTable(ch) && k < N && ch[k] != []
    requires Tiles(ch[k], k + 1, End(k)) && End(k) <= N
    requires forall i :: 0 <= i < |ch[k]| ==> End(ch[k][i]) <= N
    requires forall i :: 0 <= i < |ch[k]| ==>
      Total(a, att, ch, ch[k][i]) == RangeSum(Own(att), ch[k][i], End(ch[k][i]))
    ensures Total(a, att, ch, k) == RangeSum(Own(att), k, End(k))
  {
    assert ChildTotals(a, att, ch, k) == BlockSums(Own(att), ch[k]);
    TileSum(Own(att), ch[k], k + 1, End(k));
    RangeSumSplit(Own(att), k, k + 1, End(k));
  }
}
