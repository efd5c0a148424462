/** UTF-16 text, its code-unit order (JavaScript's default sort) and JSON string escaping. */
module Text {
  import Sorting

  type Unit = n: nat | n < 0x1_0000

  type Text = seq<Unit>

  const QUOTE: Unit := 34
  const BACKSLASH: Unit := 92

  /** ASCII text as UTF-16. */
  function Codes(s: string): (t: Text)
    requires forall i :: 0 <= i < |s| ==> (s[i] as int) < 128
    ensures |t| == |s| && forall i :: 0 <= i < |s| ==> t[i] == s[i] as int
  {
    seq(|s|, i requires 0 <= i < |s| => s[i] as int)
  }

  lemma SameLengthSplit(s: Text, t: Text, p: Text, q: Text)
    requires s + p == t + q && |s| == |t|
    ensures s == t && p == q
  {
    assert s == (s + p)[..|s|] && t == (t + q)[..|t|] && p == (s + p)[|s|..] && q == (t + q)[|t|..];
  }

  // ------------------------------------------------------------------- order

  predicate Less(a: Text, b: Text) {
    b != [] && (a == [] || a[0] < b[0] || (a[0] == b[0] && Less(a[1..], b[1..])))
  }

  lemma {:induction false} LessIsTotal(a: Text, b: Text)
    ensures a == b || Less(a, b) || Less(b, a)
    ensures !(Less(a, b) && Less(b, a)) && (a == b ==> !Less(a, b))
  {
    if a != [] && b != [] && a[0] == b[0] {
      LessIsTotal(a[1..], b[1..]);
      assert a == [a[0]] + a[1..] && b == [b[0]] + b[1..];
    }
  }

  lemma {:induction false} LessIsTransitive(a: Text, b: Text, c: Text)
    requires Less(a, b) && Less(b, c)
    ensures Less(a, c)
  {
    if a != [] && a[0] == b[0] && b[0] == c[0] {
      LessIsTransitive(a[1..], b[1..], c[1..]);
    }
  }

  predicate DistinctKeys(s: seq<Text>) {
    Sorting.Distinct(s)
  }

  lemma LessIsOrder()
    ensures Sorting.StrictWeak(Less) && Sorting.Total(Less)
  {
    forall a, b
      ensures a == b || Less(a, b) || Less(b, a)
      ensures !(Less(a, b) && Less(b, a))
    {
      LessIsTotal(a, b);
    }
    forall a, b, c | !Less(b, a) && !Less(c, b)
      ensures !Less(c, a)
    {
      LessIsTotal(a, b);
      LessIsTotal(b, c);
      LessIsTotal(a, c);
      if a != b && b != c {
        LessIsTransitive(a, b, c);
      }
    }
  }

  /** `keys.sort()`: ascending code-unit order. */
  function Sort(s: seq<Text>): (r: seq<Text>)
    ensures multiset(r) == multiset(s)
  {
    Sorting.Sort(Less, s)
  }

  lemma SortElements(s: seq<Text>)
    ensures forall k :: k in Sort(s) <==> k in s
  {
    Sorting.SortElements(Less, s);
  }

  /** Sorting forgets the order and nothing else. */
  lemma SortForgetsOrder(s: seq<Text>, t: seq<Text>)
    ensures Sort(s) == Sort(t) <==> multiset(s) == multiset(t)
  {
    LessIsOrder();
    Sorting.SortForgetsOrder(Less, s, t);
  }

  /** For distinct keys: sorted alike exactly when the key sets are equal. */
  lemma SortedKeySets(s: seq<Text>, t: seq<Text>)
    requires DistinctKeys(s) && DistinctKeys(t)
    ensures Sort(s) == Sort(t) <==> (forall k :: k in s <==> k in t)
  {
    SortForgetsOrder(s, t);
    forall k
      ensures multiset(s)[k] == (if k in s then 1 else 0) && multiset(t)[k] == (if k in t then 1 else 0)
    {
      Sorting.DistinctCounts(s, k);
      Sorting.DistinctCounts(t, k);
    }
    if multiset(s) == multiset(t) {
      assert forall k :: k in s <==> k in multiset(s);
      assert forall k :: k in t <==> k in multiset(t);
    } else {
      assert exists k :: multiset(s)[k] != multiset(t)[k];
    }
  }

  lemma SortKeepsDistinct(s: seq<Text>)
    requires DistinctKeys(s)
    ensures DistinctKeys(Sort(s))
  {
    Sorting.SortKeepsDistinct(Less, s);
  }

  /** In code-unit order: the first differing unit decides, and a proper prefix comes first. */
  ghost predicate ComesBefore(a: Text, b: Text) {
    exists n :: 0 <= n <= |a| && n < |b| && a[..n] == b[..n] && (n == |a| || a[n] < b[n])
  }

  lemma {:induction false} LessComesBefore(a: Text, b: Text)
    requires Less(a, b)
    ensures ComesBefore(a, b)
  {
    if a == [] {
      assert a[..0] == b[..0];
    } else if a[0] < b[0] {
      assert a[..0] == b[..0];
    } else {
      LessComesBefore(a[1..], b[1..]);
      var n :| 0 <= n <= |a[1..]| && n < |b[1..]| && a[1..][..n] == b[1..][..n] && (n == |a[1..]| || a[1..][n] < b[1..][n]);
      assert a[..n + 1] == [a[0]] + a[1..][..n] && b[..n + 1] == [b[0]] + b[1..][..n];
    }
  }

  /** Sorted text ascends in code-unit order, equal texts side by side. */
  lemma SortAscends(s: seq<Text>)
    ensures forall i, j :: 0 <= i < j < |Sort(s)| ==> Sort(s)[i] == Sort(s)[j] || ComesBefore(Sort(s)[i], Sort(s)[j])
  {
    LessIsOrder();
    Sorting.SortOrdered(Less, s);
    var t := Sort(s);
    forall i, j | 0 <= i < j < |t| && t[i] != t[j]
      ensures ComesBefore(t[i], t[j])
    {
      LessIsTotal(t[i], t[j]);
      assert !Less(t[j], t[i]);
      LessComesBefore(t[i], t[j]);
    }
  }

  // ---------------------------------------------------------------- escaping

  predicate High(u: Unit) {
    0xD800 <= u < 0xDC00
  }

  predicate Low(u: Unit) {
    0xDC00 <= u < 0xE000
  }

  function Hex(d: nat): Unit
    requires d < 16
  {
    if d < 10 then 48 + d else 87 + d
  }

  function Escaped(u: Unit): Text {
    if u == QUOTE then [BACKSLASH, QUOTE]
    else if u == BACKSLASH then [BACKSLASH, BACKSLASH]
    else if u == 8 then [BACKSLASH, 98]
    else if u == 12 then [BACKSLASH, 102]
    else if u == 10 then [BACKSLASH, 110]
    else if u == 13 then [BACKSLASH, 114]
    else if u == 9 then [BACKSLASH, 116]
    else if u < 32 || High(u) || Low(u)
        then [BACKSLASH, 117, Hex(u / 4096), Hex(u / 256 % 16), Hex(u / 16 % 16), Hex(u % 16)]
    else [u]
  }

  predicate StartsWithPair(s: Text) {
    |s| > 1 && High(s[0]) && Low(s[1])
  }

  /** The body of a JSON string: surrogate pairs verbatim, every other unit escaped on its own. */
  function Escape(s: Text): Text {
    if s == [] then []
    else if StartsWithPair(s) then [s[0], s[1]] + Escape(s[2..])
    else Escaped(s[0]) + Escape(s[1..])
  }

  function Quote(s: Text): Text {
    [QUOTE] + Escape(s) + [QUOTE]
  }

  lemma HexIsInjective(c: nat, d: nat)
    requires c < 16 && d < 16 && Hex(c) == Hex(d)
    ensures c == d
  {
  }

  lemma HexDigits(u: Unit, v: Unit)
    requires Hex(u / 4096) == Hex(v / 4096) && Hex(u / 256 % 16) == Hex(v / 256 % 16)
    requires Hex(u / 16 % 16) == Hex(v / 16 % 16) && Hex(u % 16) == Hex(v % 16)
    ensures u == v
  {
    HexIsInjective(u / 4096, v / 4096);
    HexIsInjective(u / 256 % 16, v / 256 % 16);
    HexIsInjective(u / 16 % 16, v / 16 % 16);
    HexIsInjective(u % 16, v % 16);
    FromDigits(u);
    FromDigits(v);
  }

  lemma FromDigits(u: Unit)
    ensures u == 4096 * (u / 4096) + 256 * (u / 256 % 16) + 16 * (u / 16 % 16) + u % 16
  {
    var a := u / 16;
    var b := a / 16;
    assert b == u / 256 && b / 16 == u / 4096;
    assert u == 16 * a + u % 16 && a == 16 * b + a % 16 && b == 16 * (b / 16) + b % 16;
  }

  lemma EscapedShape(u: Unit)
    ensures |Escaped(u)| in {1, 2, 6}
    ensures Escaped(u)[0] != QUOTE
    ensures |Escaped(u)| == 1 <==> Escaped(u)[0] != BACKSLASH
    ensures |Escaped(u)| == 6 <==> |Escaped(u)| > 1 && Escaped(u)[1] == 117
    ensures |Escaped(u)| == 1 ==> Escaped(u) == [u] && !High(u)
  {
  }

  lemma EscapedIsInjective(u: Unit, v: Unit)
    requires Escaped(u) == Escaped(v)
    ensures u == v
  {
    EscapedShape(u);
    if |Escaped(u)| == 6 {
      var e := Escaped(u);
      assert e[2] == Hex(u / 4096) && e[3] == Hex(u / 256 % 16) && e[4] == Hex(u / 16 % 16) && e[5] == Hex(u % 16);
      HexDigits(u, v);
    }
  }

  lemma EscapedIsPrefixFree(u: Unit, v: Unit, p: Text, q: Text)
    requires Escaped(u) + p == Escaped(v) + q
    ensures u == v && p == q
  {
    hide Escaped;
    EscapedShape(u);
    EscapedShape(v);
    var a, b := Escaped(u) + p, Escaped(v) + q;
    assert a[0] == Escaped(u)[0] && b[0] == Escaped(v)[0];
    if |Escaped(u)| > 1 {
      assert a[1] == Escaped(u)[1] && b[1] == Escaped(v)[1];
    }
    var n := |Escaped(u)|;
    assert Escaped(u) == a[..n] == b[..n] == Escaped(v);
    EscapedIsInjective(u, v);
    assert p == a[n..] && q == b[n..];
  }

  lemma EscapeStart(s: Text, p: Text)
    ensures var a := Escape(s) + [QUOTE] + p;
      && (s == [] <==> a[0] == QUOTE)
      && (StartsWithPair(s) <==> High(a[0]))
  {
    if s != [] {
      EscapedShape(s[0]);
    }
  }

  /** A quoted string ends where it says: nothing inside can be taken for the closing quote. */
  lemma {:induction false} EscapeIsPrefixFree(s: Text, t: Text, p: Text, q: Text)
    requires Escape(s) + [QUOTE] + p == Escape(t) + [QUOTE] + q
    ensures s == t && p == q
    decreases |s|
  {
    hide Escaped;
    var a, b := Escape(s) + [QUOTE] + p, Escape(t) + [QUOTE] + q;
    EscapeStart(s, p);
    EscapeStart(t, q);
    if s == [] {
      assert p == a[1..] && q == b[1..];
    } else if StartsWithPair(s) {
      var s', t' := s[2..], t[2..];
      assert a == [s[0], s[1]] + (Escape(s') + [QUOTE] + p) && b == [t[0], t[1]] + (Escape(t') + [QUOTE] + q);
      assert a[0] == s[0] && a[1] == s[1] && b[0] == t[0] && b[1] == t[1];
      assert a[2..] == Escape(s') + [QUOTE] + p && b[2..] == Escape(t') + [QUOTE] + q;
      EscapeIsPrefixFree(s', t', p, q);
      assert s == [s[0], s[1]] + s' && t == [t[0], t[1]] + t';
    } else {
      var s', t' := s[1..], t[1..];
      assert a == Escaped(s[0]) + (Escape(s') + [QUOTE] + p) && b == Escaped(t[0]) + (Escape(t') + [QUOTE] + q);
      EscapedIsPrefixFree(s[0], t[0], Escape(s') + [QUOTE] + p, Escape(t') + [QUOTE] + q);
      EscapeIsPrefixFree(s', t', p, q);
      assert s == [s[0]] + s' && t == [t[0]] + t';
    }
  }

  lemma QuoteIsPrefixFree(s: Text, t: Text, p: Text, q: Text)
    requires Quote(s) + p == Quote(t) + q
    ensures s == t && p == q
  {
    var a, b := Quote(s) + p, Quote(t) + q;
    assert a[1..] == Escape(s) + [QUOTE] + p && b[1..] == Escape(t) + [QUOTE] + q;
    EscapeIsPrefixFree(s, t, p, q);
  }

  // ------------------------------------------------------ well-formed UTF-16

  /** No lone surrogate: encoding such text as UTF-8 replaces nothing. */
  predicate WellFormedUtf16(t: Text) {
    t == []
    || (StartsWithPair(t) && WellFormedUtf16(t[2..]))
    || (!High(t[0]) && !Low(t[0]) && WellFormedUtf16(t[1..]))
  }

  /** Every high surrogate is followed by a low one, and every low one follows a high one. */
  ghost predicate NoLoneSurrogate(t: Text) {
    forall i :: 0 <= i < |t| ==>
      && (0xD800 <= t[i] <= 0xDBFF ==> i + 1 < |t| && 0xDC00 <= t[i + 1] <= 0xDFFF)
      && (0xDC00 <= t[i] <= 0xDFFF ==> i > 0 && 0xD800 <= t[i - 1] <= 0xDBFF)
  }

  lemma {:induction false} WellFormedMeans(t: Text)
    requires WellFormedUtf16(t)
    ensures NoLoneSurrogate(t)
  {
    if t != [] {
      var n := if StartsWithPair(t) then 2 else 1;
      var rest := t[n..];
      WellFormedMeans(rest);
      forall i | 0 <= i < |t|
        ensures 0xD800 <= t[i] <= 0xDBFF ==> i + 1 < |t| && 0xDC00 <= t[i + 1] <= 0xDFFF
        ensures 0xDC00 <= t[i] <= 0xDFFF ==> i > 0 && 0xD800 <= t[i - 1] <= 0xDBFF
      {
        if i >= n {
          assert t[i] == rest[i - n];
          assert i + 1 < |t| ==> t[i + 1] == rest[i - n + 1];
          assert i > n ==> t[i - 1] == rest[i - n - 1];
        }
      }
    }
  }

  lemma {:induction false} WellFormedJoins(a: Text, b: Text)
    requires WellFormedUtf16(a) && WellFormedUtf16(b)
    ensures WellFormedUtf16(a + b)
  {
    if a == [] {
      assert a + b == b;
    } else if StartsWithPair(a) {
      WellFormedJoins(a[2..], b);
      assert (a + b)[2..] == a[2..] + b;
    } else {
      WellFormedJoins(a[1..], b);
      assert (a + b)[1..] == a[1..] + b;
    }
  }

  lemma {:induction false} PlainIsWellFormed(t: Text)
    requires forall u :: u in t ==> !High(u) && !Low(u)
    ensures WellFormedUtf16(t)
  {
    if t != [] {
      PlainIsWellFormed(t[1..]);
    }
  }

  lemma {:induction false} EscapeIsWellFormed(s: Text)
    ensures WellFormedUtf16(Escape(s))
  {
    if s != [] {
      if StartsWithPair(s) {
        EscapeIsWellFormed(s[2..]);
        var pair := [s[0], s[1]];
        assert pair[2..] == [];
        WellFormedJoins(pair, Escape(s[2..]));
      } else {
        EscapeIsWellFormed(s[1..]);
        PlainIsWellFormed(Escaped(s[0]));
        WellFormedJoins(Escaped(s[0]), Escape(s[1..]));
      }
    }
  }

  lemma QuoteIsWellFormed(s: Text)
    ensures WellFormedUtf16(Quote(s))
  {
    PlainIsWellFormed([QUOTE]);
    EscapeIsWellFormed(s);
    WellFormedJoins([QUOTE], Escape(s));
    WellFormedJoins([QUOTE] + Escape(s), [QUOTE]);
  }

  // ------------------------------------------------------------ joined lists

  function Join(sep: Unit, parts: seq<Text>): Text {
    if parts == [] then []
    else if |parts| == 1 then parts[0]
    else parts[0] + [sep] + Join(sep, parts[1..])
  }

  lemma JoinCons(sep: Unit, first: Text, rest: seq<Text>)
    ensures Join(sep, []) == [] && Join(sep, [first]) == first
    ensures rest != [] ==> Join(sep, [first] + rest) == first + [sep] + Join(sep, rest)
  {
    assert ([first] + rest)[1..] == rest;
  }

  predicate Free(sep: Unit, t: Text) {
    sep !in t
  }

  predicate Ends(sep: Unit, p: Text) {
    p == [] || p[0] == sep
  }

  function Run(sep: Unit, t: Text): nat {
    if t == [] || t[0] == sep then 0 else 1 + Run(sep, t[1..])
  }

  lemma {:induction false} RunStopsAtSeparator(sep: Unit, a: Text, p: Text)
    requires Free(sep, a) && Ends(sep, p)
    ensures Run(sep, a + p) == |a|
  {
    if a == [] {
      assert a + p == p;
    } else {
      RunStopsAtSeparator(sep, a[1..], p);
      assert (a + p)[1..] == a[1..] + p;
    }
  }

  lemma FreeIsPrefixFree(sep: Unit, a: Text, b: Text, p: Text, q: Text)
    requires Free(sep, a) && Free(sep, b) && Ends(sep, p) && Ends(sep, q) && a + p == b + q
    ensures a == b && p == q
  {
    RunStopsAtSeparator(sep, a, p);
    RunStopsAtSeparator(sep, b, q);
    SameLengthSplit(a, b, p, q);
  }

  /** A joined list can be split again when its parts are non-empty and free of the separator. */
  lemma {:induction false} JoinIsInjective(sep: Unit, x: seq<Text>, y: seq<Text>)
    requires (forall t :: t in x ==> t != [] && Free(sep, t)) && (forall t :: t in y ==> t != [] && Free(sep, t))
    requires Join(sep, x) == Join(sep, y)
    ensures x == y
  {
    if x != [] && y != [] {
      var p: Text := if |x| == 1 then [] else [sep] + Join(sep, x[1..]);
      var q: Text := if |y| == 1 then [] else [sep] + Join(sep, y[1..]);
      assert x[0] in x && y[0] in y;
      assert Join(sep, x) == x[0] + p && Join(sep, y) == y[0] + q;
      FreeIsPrefixFree(sep, x[0], y[0], p, q);
      if |x| > 1 && |y| > 1 {
        assert (forall t :: t in x[1..] ==> t in x) && (forall t :: t in y[1..] ==> t in y);
        assert Join(sep, x[1..]) == p[1..] && Join(sep, y[1..]) == q[1..];
        JoinIsInjective(sep, x[1..], y[1..]);
        assert x == [x[0]] + x[1..] && y == [y[0]] + y[1..];
      }
    } else {
      JoinIsEmpty(sep, x);
      JoinIsEmpty(sep, y);
    }
  }

  lemma JoinIsEmpty(sep: Unit, x: seq<Text>)
    requires forall t :: t in x ==> t != []
    ensures Join(sep, x) == [] <==> x == []
  {
    if x != [] {
      assert x[0] in x;
    }
  }

  lemma {:induction false} JoinIsFree(sep: Unit, other: Unit, x: seq<Text>)
    requires sep != other && forall t :: t in x ==> Free(other, t)
    ensures Free(other, Join(sep, x))
  {
    if x != [] {
      assert x[0] in x;
      JoinIsFree(sep, other, x[1..]);
    }
  }
}
