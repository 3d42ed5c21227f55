/** The JavaScript string built-ins the application relies on: `trim`,
    `toLowerCase`, `includes`, `indexOf`/`lastIndexOf`, `replace` with a
    plain or global pattern, `split`, and `parseInt(s, 10)`. Strings are
    sequences of Unicode characters, and positions count characters,
    where JavaScript counts UTF-16 code units; the two agree on text
    inside the Basic Multilingual Plane. */
module JsText {
  import opened Wrappers

  /** The characters JavaScript treats as white space in `trim`, `parseInt`,
      `parseFloat` and the regular-expression class `\s`: the WhiteSpace and
      LineTerminator code points. */
  predicate IsSpace(c: char) {
    || c == '\t' || c == '\n' || c == '\U{000B}' || c == '\U{000C}' || c == '\r' || c == ' '
    || c == '\U{00A0}' || c == '\U{1680}' || ('\U{2000}' <= c <= '\U{200A}')
    || c == '\U{2028}' || c == '\U{2029}' || c == '\U{202F}' || c == '\U{205F}'
    || c == '\U{3000}' || c == '\U{FEFF}'
  }

  predicate IsDigit(c: char) {
    '0' <= c <= '9'
  }

  predicate AllDigits(s: string) {
    forall i :: 0 <= i < |s| ==> IsDigit(s[i])
  }

  // ---------------------------------------------------------------- trim

  /** `s` without its leading white space. */
  function TrimStart(s: string): (r: string)
    ensures |r| <= |s| && r == s[|s| - |r|..]
    ensures r == [] || !IsSpace(r[0])
    ensures forall i :: 0 <= i < |s| - |r| ==> IsSpace(s[i])
  {
    if s != [] && IsSpace(s[0]) then TrimStart(s[1..]) else s
  }

  /** `s` without its trailing white space. */
  function TrimEnd(s: string): (r: string)
    ensures |r| <= |s| && r == s[..|r|]
    ensures r == [] || !IsSpace(r[|r| - 1])
    ensures forall i :: |r| <= i < |s| ==> IsSpace(s[i])
  {
    if s != [] && IsSpace(s[|s| - 1]) then TrimEnd(s[..|s| - 1]) else s
  }

  /** Concatenation is associative. */
  lemma AppendAssoc(a: string, b: string, c: string)
    ensures a + (b + c) == a + b + c
  {
  }

  /** JavaScript's `s.trim()`: the slice of `s` between its leading and
      trailing white space. */
  function Trim(s: string): (r: string)
    ensures var a := |s| - |TrimStart(s)|; 0 <= a <= |s| - |r| && r == s[a..a + |r|]
    ensures r == [] || (!IsSpace(r[0]) && !IsSpace(r[|r| - 1]))
  {
    var t := TrimStart(s);
    var r := TrimEnd(t);
    SliceOfSuffix(s, |s| - |t|, |r|);
    assert r != [] ==> r[0] == t[0];
    r
  }

  /** Everything after the trimmed text is white space; with the contract
      of `Trim` and of `TrimStart`, the trimmed text is exactly what lies
      between the leading and the trailing white space. */
  lemma TrimTail(s: string)
    ensures var a := |s| - |TrimStart(s)|; forall i :: a + |Trim(s)| <= i < |s| ==> IsSpace(s[i])
  {
    SuffixSpace(s, TrimStart(s), Trim(s));
  }

  /** White space after `r` in `t`, a suffix of `s`, is white space in `s`. */
  lemma SuffixSpace(s: string, t: string, r: string)
    requires |t| <= |s| && t == s[|s| - |t|..]
    requires |r| <= |t| && forall i :: |r| <= i < |t| ==> IsSpace(t[i])
    ensures forall i :: |s| - |t| + |r| <= i < |s| ==> IsSpace(s[i])
  {
    forall i | |s| - |t| + |r| <= i < |s| ensures IsSpace(s[i]) {
      assert t[i - (|s| - |t|)] == s[i];
    }
  }

  /** Trimming a trimmed text changes nothing. */
  lemma TrimIdempotent(s: string)
    ensures Trim(Trim(s)) == Trim(s)
  {
    var r := Trim(s);
    assert TrimStart(r) == r;
    assert TrimEnd(r) == r;
  }

  /** Two pieces of which one is empty can be appended in either order. */
  lemma SwapEmpty<T>(a: seq<T>, x: seq<T>, y: seq<T>)
    requires x == [] || y == []
    ensures a + x + y == a + y + x
  {
    if x == [] {
      assert a + x == a && a + y + x == a + y;
    } else {
      assert a + y == a && a + x + y == a + x;
    }
  }

  /** A prefix of a suffix is a slice. */
  lemma SliceOfSuffix(s: string, a: nat, n: nat)
    requires a + n <= |s|
    ensures s[a..][..n] == s[a..a + n]
  {
  }

  lemma {:induction false} TrimStartIdle(s: string)
    requires s == [] || !IsSpace(s[0])
    ensures TrimStart(s) == s
  {
  }

  /** Trimming a string that has no white space at either end changes nothing. */
  lemma TrimIdle(s: string)
    requires s == [] || (!IsSpace(s[0]) && !IsSpace(s[|s| - 1]))
    ensures Trim(s) == s
  {
  }

  /** A leading white-space character is removed by `trim`. */
  lemma TrimSkipsSpace(c: char, t: string)
    requires IsSpace(c)
    ensures Trim([c] + t) == Trim(t)
  {
    assert ([c] + t)[1..] == t;
  }

  /** A string of digits is left alone by `trim`. */
  lemma TrimDigits(ds: string)
    requires AllDigits(ds)
    ensures Trim(ds) == ds
  {
    if ds != [] {
      TrimIdle(ds);
    }
  }

  /** Every character of a string of spaces is removed by `trim`. */
  lemma {:induction false} TrimAllSpace(s: string)
    requires forall i :: 0 <= i < |s| ==> IsSpace(s[i])
    ensures Trim(s) == []
  {
    if s != [] {
      TrimAllSpace(s[1..]);
    }
  }

  // --------------------------------------------------------- lower case

  /** `toLowerCase` on one character, for the Basic Latin and Latin-1 letters. */
  function ToLowerChar(c: char): (r: char)
    ensures 'A' <= c <= 'Z' ==> 'a' <= r <= 'z'
    ensures !('A' <= c <= 'Z') && !('\U{00C0}' <= c <= '\U{00DE}' && c != '\U{00D7}') ==> r == c
  {
    if 'A' <= c <= 'Z' || ('\U{00C0}' <= c <= '\U{00DE}' && c != '\U{00D7}') then
      (c as int + 32) as char
    else
      c
  }

  /** JavaScript's `s.toLowerCase()`, character by character. */
  function ToLower(s: string): (r: string)
    ensures |r| == |s|
    ensures forall i :: 0 <= i < |s| ==> r[i] == ToLowerChar(s[i])
  {
    if s == [] then [] else [ToLowerChar(s[0])] + ToLower(s[1..])
  }

  /** Lower-casing distributes over concatenation. */
  lemma ToLowerAppend(s: string, t: string)
    ensures ToLower(s + t) == ToLower(s) + ToLower(t)
  {
  }

  /** A string whose characters have no upper-case form is its own lower case. */
  lemma ToLowerIdle(s: string)
    requires forall i :: 0 <= i < |s| ==> ToLowerChar(s[i]) == s[i]
    ensures ToLower(s) == s
  {
  }

  // ------------------------------------------------------------ search

  predicate IsPrefix(p: string, s: string) {
    |p| <= |s| && s[..|p|] == p
  }

  /** `t` occurs in `s` at position `i`. */
  predicate OccursAt(s: string, t: string, i: int) {
    0 <= i <= |s| - |t| && s[i..i + |t|] == t
  }

  /** JavaScript's `s.indexOf(t)`: the first position of `t` in `s`, or -1. */
  function IndexOf(s: string, t: string): (r: int)
    ensures r == -1 || OccursAt(s, t, r)
    ensures r == -1 ==> forall i :: !OccursAt(s, t, i)
    ensures forall i :: 0 <= i < r ==> !OccursAt(s, t, i)
  {
    if IsPrefix(t, s) then
      assert OccursAt(s, t, 0);
      0
    else if s == [] then
      assert forall i :: !OccursAt(s, t, i);
      -1
    else
      var k := IndexOf(s[1..], t);
      assert forall i :: 1 <= i ==> (OccursAt(s, t, i) <==> OccursAt(s[1..], t, i - 1));
      if k < 0 then -1 else k + 1
  }

  /** JavaScript's `s.lastIndexOf(t)`: the last position of `t` in `s`, or -1. */
  function LastIndexOf(s: string, t: string): (r: int)
    ensures r == -1 || OccursAt(s, t, r)
    ensures forall i :: r < i ==> !OccursAt(s, t, i)
  {
    if |t| <= |s| && s[|s| - |t|..] == t then
      assert OccursAt(s, t, |s| - |t|);
      |s| - |t|
    else if s == [] then
      -1
    else
      var k := LastIndexOf(s[..|s| - 1], t);
      assert forall i :: i < |s| - |t| ==> (OccursAt(s, t, i) <==> OccursAt(s[..|s| - 1], t, i));
      k
  }

  /** The first position of a character is the one with no occurrence before it. */
  lemma IndexOfChar(s: string, c: char, k: int)
    requires 0 <= k < |s| && s[k] == c
    requires forall j :: 0 <= j < k ==> s[j] != c
    ensures IndexOf(s, [c]) == k
  {
    assert s[k..k + 1] == [c];
    assert OccursAt(s, [c], k);
    forall i | 0 <= i < k
      ensures !OccursAt(s, [c], i)
    {
      assert s[i..i + 1][0] == s[i];
    }
  }

  /** The last position of a character is the one with no occurrence after it. */
  lemma LastIndexOfChar(s: string, c: char, k: int)
    requires 0 <= k < |s| && s[k] == c
    requires forall j :: k < j < |s| ==> s[j] != c
    ensures LastIndexOf(s, [c]) == k
  {
    assert s[k..k + 1] == [c];
    assert OccursAt(s, [c], k);
    forall i | k < i
      ensures !OccursAt(s, [c], i)
    {
      if i < |s| {
        assert s[i..i + 1][0] == s[i];
      }
    }
  }

  /** JavaScript's `s.includes(t)`. */
  predicate Contains(s: string, t: string) {
    IndexOf(s, t) >= 0
  }

  /** `includes` means "occurs somewhere". */
  lemma ContainsIff(s: string, t: string)
    ensures Contains(s, t) <==> exists i :: OccursAt(s, t, i)
  {
  }

  /** The empty string is contained in every string. */
  lemma ContainsEmpty(s: string)
    ensures Contains(s, [])
  {
    assert OccursAt(s, [], 0);
  }

  /** A string contains itself. */
  lemma ContainsSelf(s: string)
    ensures Contains(s, s)
  {
    assert OccursAt(s, s, 0);
  }

  /** A one-character needle is contained exactly when the character occurs. */
  lemma ContainsChar(s: string, c: char)
    ensures Contains(s, [c]) <==> c in s
  {
    if c in s {
      var i :| 0 <= i < |s| && s[i] == c;
      assert OccursAt(s, [c], i);
    }
    if Contains(s, [c]) {
      var i := IndexOf(s, [c]);
      assert s[i..i + 1] == [c];
      assert s[i] == c;
    }
  }

  // ----------------------------------------------------------- replace

  /** `s.replace(/c/g, '')`: every occurrence of `c` deleted. */
  function RemoveAll(s: string, c: char): (r: string)
    ensures c !in r
    ensures forall d :: d != c ==> (d in r <==> d in s)
    ensures |r| <= |s|
    ensures c !in s ==> r == s
  {
    if s == [] then []
    else if s[0] == c then RemoveAll(s[1..], c)
    else [s[0]] + RemoveAll(s[1..], c)
  }

  /** Deleting a character distributes over concatenation. */
  lemma {:induction false} RemoveAllAppend(s: string, t: string, c: char)
    ensures RemoveAll(s + t, c) == RemoveAll(s, c) + RemoveAll(t, c)
  {
    if s != [] {
      RemoveAllAppend(s[1..], t, c);
      assert (s + t)[1..] == s[1..] + t;
    } else {
      assert s + t == t;
    }
  }

  /** `s.replace(c, d)` with a one-character string pattern: only the first
      occurrence of `c` becomes `d`. */
  function ReplaceFirst(s: string, c: char, d: char): (r: string)
    ensures |r| == |s|
    ensures c !in s ==> r == s
    ensures c in s ==> var i := IndexOf(s, [c]);
      0 <= i < |s| && r == s[..i] + [d] + s[i + 1..]
  {
    ContainsChar(s, c);
    var i := IndexOf(s, [c]);
    if i < 0 then s
    else
      assert s[i..i + 1] == [c];
      s[..i] + [d] + s[i + 1..]
  }

  /** Deleting the only occurrence of `c` joins the two sides. */
  lemma RemoveOnly(x: string, c: char, y: string)
    requires c !in x && c !in y
    ensures RemoveAll(x + [c] + y, c) == x + y
  {
    RemoveAllAppend(x + [c], y, c);
    RemoveAllAppend(x, [c], c);
  }

  /** Replacing the first `c`, when `x` has none, rewrites the one right
      after `x`. */
  lemma ReplaceFirstAfter(x: string, c: char, y: string, d: char)
    requires c !in x
    ensures ReplaceFirst(x + [c] + y, c, d) == x + [d] + y
  {
    var s := x + [c] + y;
    IndexOfChar(s, c, |x|);
    assert s[..|x|] == x && s[|x| + 1..] == y;
  }

  /** Replacing the first `c` by `d` turns exactly one `c` into a `d`. */
  lemma ReplaceFirstRemovesOnly(s: string, c: char, d: char)
    requires c != d
    requires c in s
    ensures var r := ReplaceFirst(s, c, d);
      d in r && multiset(r)[c] == multiset(s)[c] - 1 && multiset(r)[d] == multiset(s)[d] + 1
  {
    ContainsChar(s, c);
    var i := IndexOf(s, [c]);
    assert s[i..i + 1] == [c];
    assert s == s[..i] + [c] + s[i + 1..];
    var r := ReplaceFirst(s, c, d);
    assert r == s[..i] + [d] + s[i + 1..];
    assert multiset(s) == multiset(s[..i]) + multiset{c} + multiset(s[i + 1..]);
    assert multiset(r) == multiset(s[..i]) + multiset{d} + multiset(s[i + 1..]);
  }

  /** `s.replace(/^0+/, '')`: the leading zeros removed. */
  function StripLeadingZeros(s: string): (r: string)
    ensures |r| <= |s| && r == s[|s| - |r|..]
    ensures r == [] || r[0] != '0'
    ensures forall i :: 0 <= i < |s| - |r| ==> s[i] == '0'
  {
    if s != [] && s[0] == '0' then StripLeadingZeros(s[1..]) else s
  }

  // ------------------------------------------------------------- split

  /** `s.split(c)` with a one-character separator: the pieces between the
      separators, in order; a string without `c` gives one piece. */
  function Split(s: string, c: char): (r: seq<string>)
    ensures |r| >= 1
    ensures forall k :: 0 <= k < |r| ==> c !in r[k]
    decreases |s|
  {
    if c !in s then [s]
    else
      var i := CharIndex(s, c);
      [s[..i]] + Split(s[i + 1..], c)
  }

  /** The first position of a character that occurs. */
  function CharIndex(s: string, c: char): (i: nat)
    requires c in s
    ensures i < |s| && s[i] == c && c !in s[..i]
    ensures forall k :: 0 <= k < i ==> s[k] != c
  {
    if s[0] == c then 0 else 1 + CharIndex(s[1..], c)
  }

  /** The pieces joined with the separator again. */
  function Join(parts: seq<string>, c: char): string
    requires |parts| >= 1
  {
    if |parts| == 1 then parts[0] else parts[0] + [c] + Join(parts[1..], c)
  }

  /** Splitting loses nothing: joining the pieces restores the string. */
  lemma {:induction false} SplitJoin(s: string, c: char)
    ensures Join(Split(s, c), c) == s
    decreases |s|
  {
    if c in s {
      var i := CharIndex(s, c);
      SplitJoin(s[i + 1..], c);
      SplitAt(s, i);
    }
  }

  /** A string is what comes before position `i`, the character there and
      what follows it. */
  lemma SplitAt(s: string, i: nat)
    requires i < |s|
    ensures s == s[..i] + [s[i]] + s[i + 1..]
  {
  }

  /** A first piece without the separator is split off as it is. */
  lemma SplitFirst(a: string, c: char, rest: string)
    requires c !in a
    ensures Split(a + [c] + rest, c) == [a] + Split(rest, c)
  {
    var s := a + [c] + rest;
    assert s[|a|] == c;
    assert forall k :: 0 <= k < |a| ==> s[k] == a[k];
    var i := CharIndex(s, c);
    assert i == |a|;
    assert s[..i] == a;
    assert s[i + 1..] == rest;
  }

  /** The number of pieces is one more than the number of separators. */
  lemma {:induction false} SplitCount(s: string, c: char)
    ensures |Split(s, c)| == multiset(s)[c] + 1
    decreases |s|
  {
    if c in s {
      var i := CharIndex(s, c);
      SplitCount(s[i + 1..], c);
      SplitAt(s, i);
      assert multiset(s) == multiset(s[..i]) + multiset{c} + multiset(s[i + 1..]);
      assert multiset(s[..i])[c] == 0;
    } else {
      assert multiset(s)[c] == 0;
    }
  }

  // ------------------------------------------------------------ digits

  /** The longest prefix of `s` made of decimal digits. */
  function DigitPrefix(s: string): (r: string)
    ensures |r| <= |s| && r == s[..|r|] && AllDigits(r)
    ensures |r| == |s| || !IsDigit(s[|r|])
  {
    if s != [] && IsDigit(s[0]) then [s[0]] + DigitPrefix(s[1..]) else []
  }

  function DigitValue(c: char): nat
    requires IsDigit(c)
  {
    c as int - '0' as int
  }

  /** The value of a string of decimal digits, most significant first. */
  function DigitsValue(ds: string): nat
    requires AllDigits(ds)
  {
    if ds == [] then 0 else DigitsValue(ds[..|ds| - 1]) * 10 + DigitValue(ds[|ds| - 1])
  }

  function DigitChar(d: nat): (c: char)
    requires d < 10
    ensures IsDigit(c) && DigitValue(c) == d
  {
    ('0' as int + d) as char
  }

  /** The decimal digits of `n` without leading zeros ("0" for zero), as
      `String(n)` gives them for a whole number. */
  function NatToDigits(n: nat): (r: string)
    ensures |r| >= 1 && AllDigits(r)
    ensures r[0] == '0' ==> n == 0 && r == "0"
  {
    if n < 10 then [DigitChar(n)] else NatToDigits(n / 10) + [DigitChar(n % 10)]
  }

  /** Reading the digits of a number back gives the number. */
  lemma {:induction false} NatToDigitsValue(n: nat)
    ensures DigitsValue(NatToDigits(n)) == n
  {
    if n >= 10 {
      NatToDigitsValue(n / 10);
      var ds := NatToDigits(n);
      assert ds[..|ds| - 1] == NatToDigits(n / 10);
    }
  }

  /** Leading zeros do not change the value of a digit string. */
  lemma {:induction false} LeadingZerosValue(z: nat, ds: string)
    requires AllDigits(ds)
    ensures AllDigits(Zeros(z) + ds) && DigitsValue(Zeros(z) + ds) == DigitsValue(ds)
    decreases |ds|
  {
    var s := Zeros(z) + ds;
    assert AllDigits(s);
    if ds == [] {
      ZerosValue(z);
      assert s == Zeros(z);
    } else {
      LeadingZerosValue(z, ds[..|ds| - 1]);
      assert s[..|s| - 1] == Zeros(z) + ds[..|ds| - 1];
    }
  }

  /** A digit string that does not start with `0` has a positive value. */
  lemma {:induction false} LeadingDigitValue(ds: string)
    requires AllDigits(ds) && ds != [] && ds[0] != '0'
    ensures DigitsValue(ds) > 0
    decreases |ds|
  {
    if |ds| > 1 {
      LeadingDigitValue(ds[..|ds| - 1]);
    }
  }

  /** A digit string without leading zeros (or `0` itself) is the digit
      string of its value: the canonical form is unique. */
  lemma {:induction false} CanonicalDigits(ds: string)
    requires AllDigits(ds) && ds != [] && (ds[0] == '0' ==> ds == "0")
    ensures NatToDigits(DigitsValue(ds)) == ds
    decreases |ds|
  {
    var n := DigitsValue(ds);
    if |ds| == 1 {
      assert ds[..0] == [] && DigitsValue(ds[..0]) == 0;
      assert n == DigitValue(ds[0]);
      assert ds == [DigitChar(n)];
    } else {
      var p := ds[..|ds| - 1];
      LeadingDigitValue(p);
      CanonicalDigits(p);
      assert n / 10 == DigitsValue(p) && n % 10 == DigitValue(ds[|ds| - 1]);
      assert ds == p + [DigitChar(n % 10)];
    }
  }

  function Zeros(z: nat): (r: string)
    ensures |r| == z && AllDigits(r) && forall i :: 0 <= i < z ==> r[i] == '0'
  {
    if z == 0 then [] else Zeros(z - 1) + ['0']
  }

  lemma {:induction false} ZerosValue(z: nat)
    ensures DigitsValue(Zeros(z)) == 0
  {
    if z > 0 {
      ZerosValue(z - 1);
    }
  }

  /** `String(n)` for a whole number. */
  function IntToString(n: int): string {
    if n < 0 then "-" + NatToDigits(-n) else NatToDigits(n)
  }

  // ----------------------------------------------------------- parseInt

  /** JavaScript's `parseInt(s, 10)`: leading white space is skipped, an
      optional sign is read, then the longest run of decimal digits;
      without any digit the result is `NaN`, here `None`. */
  function ParseInt(s: string): (r: Option<int>)
    ensures r.None? <==> DigitPrefix(UnsignedPart(TrimStart(s))) == []
  {
    var t := TrimStart(s);
    var ds := DigitPrefix(UnsignedPart(t));
    if ds == [] then None
    else
      var v: int := DigitsValue(ds);
      if t[0] == '-' then Some(-v) else Some(v)
  }

  /** `s` without one leading sign character. */
  function UnsignedPart(s: string): (r: string)
    ensures r == s || (s != [] && (s[0] == '+' || s[0] == '-') && r == s[1..])
  {
    if s != [] && (s[0] == '+' || s[0] == '-') then s[1..] else s
  }

  /** `parseInt` reads back what `String` wrote for a whole number. */
  lemma ParseIntOfString(n: int)
    ensures ParseInt(IntToString(n)) == Some(n)
  {
    var m: nat := if n < 0 then -n else n;
    NatToDigitsValue(m);
    if n < 0 {
      ParseIntMinus(NatToDigits(m));
    } else {
      ParseIntDigits(NatToDigits(m));
    }
  }

  /** A string of digits reads as its value... */
  lemma ParseIntDigits(ds: string)
    requires ds != [] && AllDigits(ds)
    ensures ParseInt(ds) == Some(DigitsValue(ds) as int)
  {
    assert IsDigit(ds[0]);
    TrimStartIdle(ds);
    DigitPrefixOfDigits(ds);
  }

  /** ... and with a minus sign in front as its negated value. */
  lemma ParseIntMinus(ds: string)
    requires ds != [] && AllDigits(ds)
    ensures ParseInt("-" + ds) == Some(-(DigitsValue(ds) as int))
  {
    assert IsDigit(ds[0]);
    MinusPart(ds);
    TrimStartIdle("-" + ds);
    DigitPrefixOfDigits(ds);
  }

  /** A minus sign in front of `u` is the one sign `parseInt` skips. */
  lemma MinusPart(u: string)
    ensures ("-" + u)[0] == '-' && UnsignedPart("-" + u) == u
  {
    assert ("-" + u)[1..] == u;
  }

  /** A string of digits is its own digit prefix. */
  lemma {:induction false} DigitPrefixOfDigits(ds: string)
    requires AllDigits(ds)
    ensures DigitPrefix(ds) == ds
  {
    if ds != [] {
      DigitPrefixOfDigits(ds[1..]);
    }
  }

  /** A string that does not start (after white space and a sign) with a
      digit is not a number for `parseInt`. */
  lemma ParseIntNaN(s: string)
    requires var u := UnsignedPart(TrimStart(s)); u == [] || !IsDigit(u[0])
    ensures ParseInt(s).None?
  {
  }

  // -------------------------------------------------- parseInt, no radix

  predicate IsHexDigit(c: char) {
    IsDigit(c) || 'a' <= c <= 'f' || 'A' <= c <= 'F'
  }

  predicate AllHexDigits(s: string) {
    forall i :: 0 <= i < |s| ==> IsHexDigit(s[i])
  }

  function HexDigitValue(c: char): (r: nat)
    requires IsHexDigit(c)
    ensures r < 16
  {
    if IsDigit(c) then DigitValue(c)
    else if 'a' <= c <= 'f' then c as int - 'a' as int + 10
    else c as int - 'A' as int + 10
  }

  /** The longest prefix of `s` made of hexadecimal digits. */
  function HexPrefix(s: string): (r: string)
    ensures |r| <= |s| && r == s[..|r|] && AllHexDigits(r)
    ensures |r| == |s| || !IsHexDigit(s[|r|])
  {
    if s != [] && IsHexDigit(s[0]) then [s[0]] + HexPrefix(s[1..]) else []
  }

  /** The value of a string of hexadecimal digits, most significant first. */
  function HexValue(hs: string): nat
    requires AllHexDigits(hs)
  {
    if hs == [] then 0 else HexValue(hs[..|hs| - 1]) * 16 + HexDigitValue(hs[|hs| - 1])
  }

  /** The `0x` or `0X` that makes `parseInt` without a radix read
      hexadecimal. */
  predicate HasHexPrefix(u: string) {
    |u| >= 2 && u[0] == '0' && (u[1] == 'x' || u[1] == 'X')
  }

  /** JavaScript's `parseInt(s)` without a radix: white space and a sign as
      for `parseInt(s, 10)`; then `0x` or `0X` switches to hexadecimal
      digits, and anything else is read in decimal. */
  function ParseIntAuto(s: string): (r: Option<int>)
    ensures HasHexPrefix(UnsignedPart(TrimStart(s))) ==>
      (r.None? <==> HexPrefix(UnsignedPart(TrimStart(s))[2..]) == [])
  {
    var t := TrimStart(s);
    var u := UnsignedPart(t);
    if HasHexPrefix(u) then
      var hs := HexPrefix(u[2..]);
      if hs == [] then None
      else
        var v: int := HexValue(hs);
        if t[0] == '-' then Some(-v) else Some(v)
    else ParseInt(s)
  }

  /** Without a `0x` prefix, reading without a radix is reading in
      decimal; in particular it reads back what `String` writes for a whole
      number. */
  lemma ParseIntAutoDecimal(s: string)
    requires !HasHexPrefix(UnsignedPart(TrimStart(s)))
    ensures ParseIntAuto(s) == ParseInt(s)
  {
  }

  /** `String(n)` never starts with `0x`, so `parseInt` without a radix
      reads it back. */
  lemma ParseIntAutoOfString(n: int)
    ensures ParseIntAuto(IntToString(n)) == Some(n)
  {
    var s := IntToString(n);
    var m: nat := if n < 0 then -n else n;
    var ds := NatToDigits(m);
    assert !IsSpace(s[0]);
    TrimStartIdle(s);
    assert UnsignedPart(s) == ds;
    assert !HasHexPrefix(ds);
    ParseIntOfString(n);
  }

  /** A `0x` year is read in hexadecimal: `0x7E8` is 2024, where
      `parseInt(s, 10)` stops at the `x` and reads 0. */
  lemma ParseIntAutoHex()
    ensures ParseIntAuto("0x7E8") == Some(2024)
    ensures ParseInt("0x7E8") == Some(0)
  {
    TrimStartIdle("0x7E8");
    assert UnsignedPart("0x7E8") == "0x7E8";
    assert HexPrefix("7E8") == "7E8" by {
      assert HexPrefix("8") == "8" by {
        assert HexPrefix("8"[1..]) == [];
      }
      assert HexPrefix("E8") == "E8" by {
        assert "E8"[1..] == "8";
      }
      assert "7E8"[1..] == "E8";
    }
    assert HexValue("7E8") == 2024 by {
      assert "7E8"[..2] == "7E" && "7E"[..1] == "7" && "7"[..0] == [];
    }
    assert DigitPrefix("0x7E8") == "0" by {
      assert "0x7E8"[1..] == "x7E8";
    }
    assert DigitsValue("0") == 0 by {
      assert "0"[..0] == [];
    }
  }

  // ------------------------------------------------------------- slice

  /** `list.slice(0, n)` on a string or an array: the first `n` elements,
      all of them when there are fewer. */
  function Take<T>(s: seq<T>, n: nat): (r: seq<T>)
    ensures |r| == if |s| <= n then |s| else n
    ensures r == s[..|r|]
  {
    if |s| <= n then s else s[..n]
  }

  // ------------------------------------------------------------- filter

  /** `list.filter(p)`: the elements that satisfy `p`, in their order. */
  function Filter<T(!new)>(s: seq<T>, p: T -> bool): (r: seq<T>)
    ensures forall x {:trigger x in r} :: x in r <==> x in s && p(x)
    ensures |r| <= |s|
  {
    if s == [] then []
    else
      assert forall x :: x in s <==> x == s[0] || x in s[1..];
      (if p(s[0]) then [s[0]] else []) + Filter(s[1..], p)
  }

  /** Filtering distributes over concatenation: the kept elements stay in
      the order of the list. */
  lemma {:induction false} FilterAppend<T(!new)>(a: seq<T>, b: seq<T>, p: T -> bool)
    ensures Filter(a + b, p) == Filter(a, p) + Filter(b, p)
  {
    if a != [] {
      assert (a + b)[1..] == a[1..] + b;
      FilterAppend(a[1..], b, p);
    } else {
      assert a + b == b;
    }
  }

  /** Every element satisfying `p` is kept as often as the list holds it,
      and every other element is dropped. */
  lemma {:induction false} FilterCount<T(!new)>(s: seq<T>, p: T -> bool, x: T)
    ensures multiset(Filter(s, p))[x] == if p(x) then multiset(s)[x] else 0
  {
    if s != [] {
      var head := if p(s[0]) then [s[0]] else [];
      FilterCount(s[1..], p, x);
      assert Filter(s, p) == head + Filter(s[1..], p);
      assert multiset(Filter(s, p)) == multiset(head) + multiset(Filter(s[1..], p));
      assert s == [s[0]] + s[1..];
      assert multiset(s) == multiset{s[0]} + multiset(s[1..]);
    }
  }

  /** A list whose elements all satisfy `p` is kept whole. */
  lemma {:induction false} FilterAll<T(!new)>(s: seq<T>, p: T -> bool)
    requires forall i :: 0 <= i < |s| ==> p(s[i])
    ensures Filter(s, p) == s
  {
    if s != [] {
      assert p(s[0]);
      FilterAll(s[1..], p);
    }
  }

  /** Filtering two arrangements of the same elements keeps the same
      elements. */
  lemma FilterPermutation<T(!new)>(s: seq<T>, t: seq<T>, p: T -> bool)
    requires multiset(s) == multiset(t)
    ensures multiset(Filter(s, p)) == multiset(Filter(t, p))
  {
    forall x ensures multiset(Filter(s, p))[x] == multiset(Filter(t, p))[x] {
      FilterCount(s, p, x);
      FilterCount(t, p, x);
    }
  }
}
