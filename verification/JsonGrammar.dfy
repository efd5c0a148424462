/**
 * JSON text read by the grammar of RFC 8259 (sections 3 to 7, without insignificant white
 * space), and what a reader makes of the text that `stableStringify` writes.
 */
module JsonGrammar {
  import opened Text
  import opened StableJson

  /** A value and the text behind it, or no value at all. */
  datatype Read<+T> = Got(value: T, rest: Text) | Bad

  predicate StartsWith(t: Text, front: Text) {
    |front| <= |t| && t[..|front|] == front
  }

  // ------------------------------------------------------------------ strings

  function HexValue(u: Unit): (d: int)
    ensures -1 <= d < 16
  {
    var c := u as int;
    if '0' as int <= c <= '9' as int then c - '0' as int
    else if 'a' as int <= c <= 'f' as int then 10 + c - 'a' as int
    else if 'A' as int <= c <= 'F' as int then 10 + c - 'A' as int
    else -1
  }

  /** What a two-unit escape stands for: section 7. */
  function Unescaped(u: Unit): int {
    var c := u as int;
    if c == '"' as int || c == '\\' as int || c == '/' as int then c
    else if c == 'b' as int then 0x8
    else if c == 'f' as int then 0xC
    else if c == 'n' as int then 0xA
    else if c == 'r' as int then 0xD
    else if c == 't' as int then 0x9
    else -1
  }

  function FourHex(a: Unit, b: Unit, c: Unit, d: Unit): int {
    if HexValue(a) < 0 || HexValue(b) < 0 || HexValue(c) < 0 || HexValue(d) < 0 then -1
    else HexValue(a) * 0x1000 + HexValue(b) * 0x100 + HexValue(c) * 0x10 + HexValue(d)
  }

  /** One character of a string: a plain unit, a two-unit escape, or \u and four hexadecimal digits. */
  function ReadUnit(t: Text): (r: Read<Unit>)
    ensures r.Got? ==> |r.rest| < |t|
  {
    if t == [] then Bad
    else if t[0] as int != '\\' as int then (if t[0] < 0x20 || t[0] as int == '"' as int then Bad else Got(t[0], t[1..]))
    else if |t| < 2 then Bad
    else if t[1] as int == 'u' as int then
      if |t| < 6 || FourHex(t[2], t[3], t[4], t[5]) < 0 then Bad
      else Got(FourHex(t[2], t[3], t[4], t[5]), t[6..])
    else if Unescaped(t[1]) < 0 then Bad
    else Got(Unescaped(t[1]), t[2..])
  }

  /** The characters up to the closing quote. */
  function ReadChars(t: Text): (r: Read<Text>)
    ensures r.Got? ==> |r.rest| < |t|
    decreases |t|
  {
    if t != [] && t[0] as int == '"' as int then Got([], t[1..])
    else
      match ReadUnit(t)
      case Bad => Bad
      case Got(u, rest) =>
        match ReadChars(rest)
        case Bad => Bad
        case Got(s, after) => Got([u] + s, after)
  }

  // ------------------------------------------------------------------- values

  predicate IsDigit(u: Unit) {
    '0' as int <= u as int <= '9' as int
  }

  /** The units a number is spelled with; section 6 allows an upper-case exponent besides. */
  function NumberLength(t: Text): (n: nat)
    ensures n <= |t|
    ensures t != [] && (IsDigit(t[0]) || t[0] as int == '-' as int) ==> n > 0
  {
    if t == [] then 0
    else
      var c := t[0] as int;
      if IsDigit(t[0]) || c == '-' as int || c == '+' as int || c == '.' as int || c == 'e' as int || c == 'E' as int
      then 1 + NumberLength(t[1..]) else 0
  }

  function ReadName(t: Text, name: Text, v: Json): (r: Read<Json>)
    requires name != []
    ensures r.Got? ==> |r.rest| < |t|
  {
    if StartsWith(t, name) then Got(v, t[|name|..]) else Bad
  }

  function ReadValue(t: Text): (r: Read<Json>)
    ensures r.Got? ==> |r.rest| < |t|
    decreases |t|, 1
  {
    if t == [] then Bad
    else
      var c := t[0] as int;
      if c == 'n' as int then ReadName(t, Codes("null"), Null)
      else if c == 't' as int then ReadName(t, Codes("true"), Bool(true))
      else if c == 'f' as int then ReadName(t, Codes("false"), Bool(false))
      else if c == '"' as int then
        match ReadChars(t[1..])
        case Bad => Bad
        case Got(s, rest) => Got(Str(s), rest)
      else if c == '[' as int then
        if StartsWith(t[1..], Codes("]")) then Got(Arr([]), t[2..])
        else
          match ReadItems(t[1..])
          case Bad => Bad
          case Got(items, rest) => Got(Arr(items), rest)
      else if c == '{' as int then
        if StartsWith(t[1..], Codes("}")) then Got(Obj([]), t[2..])
        else
          match ReadMembers(t[1..])
          case Bad => Bad
          case Got(ms, rest) => Got(Obj(ms), rest)
      else if IsDigit(t[0]) || c == '-' as int then Got(Num(t[..NumberLength(t)]), t[NumberLength(t)..])
      else Bad
  }

  /** One value or more, parted by commas, and the closing bracket. */
  function ReadItems(t: Text): (r: Read<seq<Json>>)
    ensures r.Got? ==> |r.rest| < |t|
    decreases |t|, 2
  {
    match ReadValue(t)
    case Bad => Bad
    case Got(v, rest) =>
      if StartsWith(rest, Codes("]")) then Got([v], rest[1..])
      else if StartsWith(rest, Codes(",")) then
        match ReadItems(rest[1..])
        case Bad => Bad
        case Got(items, after) => Got([v] + items, after)
      else Bad
  }

  /** A string, a colon and a value. */
  function ReadMember(t: Text): (r: Read<Member>)
    ensures r.Got? ==> |r.rest| < |t|
    decreases |t|, 2
  {
    if !StartsWith(t, Codes("\"")) then Bad
    else
      match ReadChars(t[1..])
      case Bad => Bad
      case Got(k, rest) =>
        if !StartsWith(rest, Codes(":")) then Bad
        else
          match ReadValue(rest[1..])
          case Bad => Bad
          case Got(v, after) => Got(Member(k, v), after)
  }

  function ReadMembers(t: Text): (r: Read<seq<Member>>)
    ensures r.Got? ==> |r.rest| < |t|
    decreases |t|, 3
  {
    match ReadMember(t)
    case Bad => Bad
    case Got(m, rest) =>
      if StartsWith(rest, Codes("}")) then Got([m], rest[1..])
      else if StartsWith(rest, Codes(",")) then
        match ReadMembers(rest[1..])
        case Bad => Bad
        case Got(ms, after) => Got([m] + ms, after)
      else Bad
  }

  // ----------------------------------------------------- reading back strings

  lemma HexRead(d: nat)
    requires d < 16
    ensures HexValue(Hex(d)) == d
  {
  }

  lemma EscapedRead(u: Unit, p: Text)
    ensures ReadUnit(Escaped(u) + p) == Got(u, p) && (Escaped(u) + p)[0] != QUOTE
  {
    var t := Escaped(u) + p;
    EscapedShape(u);
    if |Escaped(u)| == 6 {
      HexRead(u / 4096);
      HexRead(u / 256 % 16);
      HexRead(u / 16 % 16);
      HexRead(u % 16);
      FromDigits(u);
      assert t[6..] == p;
      hide Hex;
      assert t[2] == Hex(u / 4096) && t[3] == Hex(u / 256 % 16) && t[4] == Hex(u / 16 % 16) && t[5] == Hex(u % 16);
    } else if |Escaped(u)| == 2 {
      assert t[2..] == p;
    } else {
      assert t[1..] == p;
    }
  }

  lemma PlainRead(u: Unit, p: Text)
    requires High(u) || Low(u)
    ensures ReadUnit([u] + p) == Got(u, p)
  {
    assert ([u] + p)[1..] == p;
  }

  /** A unit in front of a string that reads back. */
  lemma CharsOneMore(t: Text, u: Unit, rest: Text, s: Text, p: Text)
    requires t != [] && t[0] != QUOTE && ReadUnit(t) == Got(u, rest) && ReadChars(rest) == Got(s, p)
    ensures ReadChars(t) == Got([u] + s, p)
  {
  }

  lemma Regroup(a: Text, b: Text, c: Text, d: Text)
    ensures a + b + c + d == a + (b + c + d)
  {
  }

  lemma RegroupPair(u: Unit, v: Unit, b: Text)
    ensures [u, v] + b == [u] + ([v] + b)
  {
  }

  /** The text of a string, one character at a time, with the closing quote and what follows. */
  lemma EscapeText(s: Text, p: Text)
    ensures var t := Escape(s) + [QUOTE] + p;
      && (s == [] ==> t == [QUOTE] + p)
      && (StartsWithPair(s) ==> t == [s[0]] + ([s[1]] + (Escape(s[2..]) + [QUOTE] + p)))
      && (s != [] && !StartsWithPair(s) ==> t == Escaped(s[0]) + (Escape(s[1..]) + [QUOTE] + p))
  {
    hide Escaped;
    if StartsWithPair(s) {
      var rest := Escape(s[2..]);
      assert Escape(s) == [s[0], s[1]] + rest;
      hide Escape;
      Regroup([s[0], s[1]], rest, [QUOTE], p);
      RegroupPair(s[0], s[1], rest + [QUOTE] + p);
    } else if s != [] {
      var rest := Escape(s[1..]);
      assert Escape(s) == Escaped(s[0]) + rest;
      hide Escape;
      Regroup(Escaped(s[0]), rest, [QUOTE], p);
    }
  }

  lemma {:induction false} EscapeRead(s: Text, p: Text)
    ensures ReadChars(Escape(s) + [QUOTE] + p) == Got(s, p)
    decreases |s|
  {
    hide Escape, Escaped, ReadUnit;
    EscapeText(s, p);
    var t := Escape(s) + [QUOTE] + p;
    if s == [] {
      assert t[1..] == p;
    } else if StartsWithPair(s) {
      EscapeRead(s[2..], p);
      hide ReadChars;
      var rest := Escape(s[2..]) + [QUOTE] + p;
      PlainRead(s[1], rest);
      PlainRead(s[0], [s[1]] + rest);
      CharsOneMore([s[1]] + rest, s[1], rest, s[2..], p);
      CharsOneMore(t, s[0], [s[1]] + rest, [s[1]] + s[2..], p);
      assert s == [s[0]] + ([s[1]] + s[2..]);
    } else {
      EscapeRead(s[1..], p);
      hide ReadChars;
      EscapedRead(s[0], Escape(s[1..]) + [QUOTE] + p);
      EscapedShape(s[0]);
      CharsOneMore(t, s[0], Escape(s[1..]) + [QUOTE] + p, s[1..], p);
      assert s == [s[0]] + s[1..];
    }
  }

  lemma QuoteRead(s: Text, p: Text)
    ensures var t := Quote(s) + p;
      StartsWith(t, Codes("\"")) && ReadChars(t[1..]) == Got(s, p)
  {
    var t := Quote(s) + p;
    assert t[1..] == Escape(s) + [QUOTE] + p;
    EscapeRead(s, p);
  }

  // ------------------------------------------------------ reading back values

  /** Which texts stand for numbers: of digits, signs, points and exponents, with a digit or a minus in front. */
  lemma NumberTextReads(t: Text)
    ensures NumberText(t) <==>
            && t != [] && (IsDigit(t[0]) || t[0] as int == '-' as int)
            && forall i :: 0 <= i < |t| ==> IsDigit(t[i]) || t[i] in Codes("+-.e")
  {
    var signs := Codes("+-.e");
    assert signs[0] == 43 && signs[1] == 45 && signs[2] == 46 && signs[3] == 101;
    assert forall u :: u in signs <==> u in {43, 45, 46, 101};
  }

  lemma {:induction false} NumberRead(s: Text, p: Text)
    requires (forall i :: 0 <= i < |s| ==> NumberUnit(s[i])) && Stops(p)
    ensures NumberLength(s + p) == |s|
  {
    if s == [] {
      assert s + p == p;
    } else {
      NumberRead(s[1..], p);
      assert (s + p)[1..] == s[1..] + p;
    }
  }

  lemma NameRead(name: Text, v: Json, p: Text)
    requires name != []
    ensures ReadName(name + p, name, v) == Got(v, p)
  {
    assert (name + p)[|name|..] == p && (name + p)[..|name|] == name;
  }

  lemma NameTexts()
    ensures NULL_TEXT == Codes("null") && TRUE_TEXT == Codes("true") && FALSE_TEXT == Codes("false")
  {
  }

  lemma ScalarRead(v: Json, p: Text)
    requires Valid(v) && Stops(p) && !v.Arr? && !v.Obj?
    ensures ReadValue(Print(v) + p) == Got(v, p)
  {
    var t := Print(v) + p;
    NameTexts();
    hide Codes, ReadName, ReadChars, NumberLength, ReadItems, ReadMembers, StartsWith;
    match v
    case Null => NameRead(NULL_TEXT, v, p);
    case Bool(b) => NameRead(if b then TRUE_TEXT else FALSE_TEXT, v, p);
    case Str(s) =>
      QuoteRead(s, p);
      assert t == Quote(s) + p;
    case Num(s) =>
      NumberRead(s, p);
      assert t[..|s|] == s && t[|s|..] == p && t[0] == s[0];
  }

  lemma {:induction false} PrintRead(v: Json, p: Text)
    requires Valid(v) && Stops(p)
    ensures ReadValue(Print(v) + p) == Got(v, p)
    decreases v, 1
  {
    match v
    case Arr(items) => ListRead(items, p);
    case Obj(ms) => ObjectRead(ms, p);
    case _ => ScalarRead(v, p);
  }

  lemma ListRead(items: seq<Json>, p: Text)
    requires Valid(Arr(items)) && Stops(p)
    ensures ReadValue(Print(Arr(items)) + p) == Got(Arr(items), p)
    decreases items, 1
  {
    var t := Print(Arr(items)) + p;
    NestedText(items, [], p);
    ItemsText(items, true, p);
    hide Print, PrintItems, Stops, ReadItems;
    FirstUnit(OPEN_LIST, PrintItems(items, true) + p);
    if items == [] {
      FirstUnit(CLOSE_LIST, p);
      assert t[2..] == t[1..][1..];
    } else {
      ItemsStart(items, true, p);
      ItemsRead(items, p);
    }
  }

  lemma FirstUnit(u: Unit, more: Text)
    ensures var t := [u] + more;
      t[1..] == more && forall name: Text :: |name| == 1 ==> (StartsWith(t, name) <==> name[0] == u)
  {
    var t := [u] + more;
    forall name: Text | |name| == 1
      ensures StartsWith(t, name) <==> name[0] == u
    {
      assert t[..1] == [u] && name == [name[0]];
    }
  }

  lemma LastItem(t: Text, v: Json, p: Text)
    requires ReadValue(t) == Got(v, [CLOSE_LIST] + p)
    ensures ReadItems(t) == Got([v], p)
  {
    assert ([CLOSE_LIST] + p)[1..] == p;
  }

  lemma AnotherItem(t: Text, v: Json, more: Text, items: seq<Json>, p: Text)
    requires ReadValue(t) == Got(v, [COMMA] + more) && ReadItems(more) == Got(items, p)
    ensures ReadItems(t) == Got([v] + items, p)
  {
    FirstUnit(COMMA, more);
  }

  /** List text from its first value on, and from a separator on. */
  lemma ListText(items: seq<Json>, p: Text)
    requires items != []
    ensures PrintItems(items, true) + p == Print(items[0]) + (PrintItems(items[1..], false) + p)
    ensures PrintItems(items, false) + p == [COMMA] + (PrintItems(items, true) + p)
    ensures Stops(PrintItems(items[1..], false) + p)
  {
    ItemsText(items, true, p);
    ItemsText(items, false, p);
    ItemsText(items[1..], false, p);
    hide Print, PrintItems, Stops;
    var t := Print(items[0]) + (PrintItems(items[1..], false) + p);
    assert [] + t == t;
  }

  lemma {:induction false} ItemsRead(items: seq<Json>, p: Text)
    requires Valid(Arr(items)) && Stops(p) && items != []
    ensures ReadItems(PrintItems(items, true) + p) == Got(items, p)
    decreases items, 0
  {
    hide Print, Stops, ReadValue, ReadItems, Valid;
    var t, rest := PrintItems(items, true) + p, items[1..];
    ListText(items, p);
    ItemIsValid(items);
    PrintRead(items[0], PrintItems(rest, false) + p);
    if rest == [] {
      LastItem(t, items[0], p);
      assert items == [items[0]];
    } else {
      hide PrintItems;
      ItemsRead(rest, p);
      ListText(rest, p);
      AnotherItem(t, items[0], PrintItems(rest, true) + p, rest, p);
      assert items == [items[0]] + rest;
    }
  }

  lemma ItemIsValid(items: seq<Json>)
    requires Valid(Arr(items)) && items != []
    ensures Valid(items[0]) && Valid(Arr(items[1..]))
  {
  }

  lemma ObjectRead(ms: seq<Member>, p: Text)
    requires Valid(Obj(ms)) && Stops(p)
    ensures ReadValue(Print(Obj(ms)) + p) == Got(Obj(ms), p)
    decreases ms, 1
  {
    var t := Print(Obj(ms)) + p;
    NestedText([], ms, p);
    MembersText(ms, true, p);
    hide Print, PrintMembers, Stops, ReadMembers, MemberText;
    FirstUnit(OPEN_OBJECT, PrintMembers(ms, true) + p);
    if ms == [] {
      FirstUnit(CLOSE_OBJECT, p);
      assert t[2..] == t[1..][1..];
    } else {
      MembersStart(ms, true, p);
      MembersRead(ms, p);
    }
  }

  lemma LastMember(t: Text, m: Member, p: Text)
    requires ReadMember(t) == Got(m, [CLOSE_OBJECT] + p)
    ensures ReadMembers(t) == Got([m], p)
  {
    assert ([CLOSE_OBJECT] + p)[1..] == p;
  }

  lemma AnotherMember(t: Text, m: Member, more: Text, ms: seq<Member>, p: Text)
    requires ReadMember(t) == Got(m, [COMMA] + more) && ReadMembers(more) == Got(ms, p)
    ensures ReadMembers(t) == Got([m] + ms, p)
  {
    FirstUnit(COMMA, more);
  }

  lemma ObjectText(ms: seq<Member>, p: Text)
    requires ms != []
    ensures PrintMembers(ms, true) + p == MemberText(ms[0], PrintMembers(ms[1..], false) + p)
    ensures PrintMembers(ms, false) + p == [COMMA] + (PrintMembers(ms, true) + p)
    ensures Stops(PrintMembers(ms[1..], false) + p)
  {
    MembersText(ms, true, p);
    MembersText(ms, false, p);
    MembersText(ms[1..], false, p);
    hide Print, PrintMembers, Stops, MemberText;
    var t := MemberText(ms[0], PrintMembers(ms[1..], false) + p);
    assert [] + t == t;
  }

  lemma {:induction false} MembersRead(ms: seq<Member>, p: Text)
    requires (forall i :: 0 <= i < |ms| ==> Valid(ms[i].value)) && Stops(p) && ms != []
    ensures ReadMembers(PrintMembers(ms, true) + p) == Got(ms, p)
    decreases ms, 0
  {
    hide Print, Stops, ReadMembers, Valid, MemberText, ReadMember;
    var t, rest := PrintMembers(ms, true) + p, ms[1..];
    ObjectText(ms, p);
    MemberRead(ms[0], PrintMembers(rest, false) + p);
    if rest == [] {
      LastMember(t, ms[0], p);
      assert ms == [ms[0]];
    } else {
      hide PrintMembers;
      MembersRead(rest, p);
      ObjectText(rest, p);
      AnotherMember(t, ms[0], PrintMembers(rest, true) + p, rest, p);
      assert ms == [ms[0]] + rest;
    }
  }

  lemma MemberRead(m: Member, rest: Text)
    requires Valid(m.value) && Stops(rest)
    ensures ReadMember(MemberText(m, rest)) == Got(m, rest)
    decreases m, 0
  {
    hide Print, Quote, ReadValue, ReadChars, Valid, Stops;
    QuoteRead(m.key, [COLON] + (Print(m.value) + rest));
    PrintRead(m.value, rest);
    assert ([COLON] + (Print(m.value) + rest))[1..] == Print(m.value) + rest;
  }

  // ------------------------------------------------------------ main results

  /** Every object, at any depth, has its keys in ascending code-unit order. */
  ghost predicate KeysAscend(v: Json) {
    match v
    case Arr(items) => forall i :: 0 <= i < |items| ==> KeysAscend(items[i])
    case Obj(ms) =>
      && (forall i, j :: 0 <= i < j < |ms| ==> ComesBefore(ms[i].key, ms[j].key))
      && forall i :: 0 <= i < |ms| ==> KeysAscend(ms[i].value)
    case _ => true
  }

  lemma SortedAscend(ks: seq<Text>)
    requires DistinctKeys(ks)
    ensures forall i, j :: 0 <= i < j < |Sort(ks)| ==> ComesBefore(Sort(ks)[i], Sort(ks)[j])
  {
    SortAscends(ks);
    SortKeepsDistinct(ks);
  }

  lemma {:induction false} CanonAscends(v: Json)
    requires Valid(v)
    ensures KeysAscend(Canon(v)) && Equivalent(Canon(v), v)
    decreases v, 1
  {
    match v
    case Arr(items) =>
      forall i | 0 <= i < |items|
        ensures KeysAscend(CanonItems(items)[i]) && Equivalent(CanonItems(items)[i], items[i])
      {
        CanonItemAt(items, i);
        CanonAscends(items[i]);
      }
    case Obj(ms) => ObjectAscends(ms);
    case _ =>
  }

  lemma LookupCanon(ms: seq<Member>, keys: seq<Text>, k: Text)
    requires (forall q :: q in keys ==> q in Keys(ms)) && k in keys
    ensures k in Keys(CanonMembers(ms, keys)) && k in Keys(ms)
    ensures Lookup(CanonMembers(ms, keys), k) == Canon(Lookup(ms, k))
  {
    var r := CanonMembers(ms, keys);
    var i := Find(r, k);
    assert Keys(r)[i] == r[i].key;
    CanonMemberAt(ms, keys, i);
  }

  lemma ObjectAscends(ms: seq<Member>)
    requires Valid(Obj(ms))
    ensures KeysAscend(Canon(Obj(ms))) && Equivalent(Canon(Obj(ms)), Obj(ms))
    decreases ms, 0
  {
    var keys := Sort(Keys(ms));
    CanonObject(ms);
    SortedAscend(Keys(ms));
    var r := CanonMembers(ms, keys);
    forall k | k in Keys(ms)
      ensures k in Keys(r) && Equivalent(Lookup(r, k), Lookup(ms, k)) && KeysAscend(Lookup(r, k))
    {
      LookupCanon(ms, keys, k);
      CanonAscends(Lookup(ms, k));
    }
    hide Canon, Sort, CanonMembers, Equivalent;
    EquivalentObjects(r, ms);
    forall i | 0 <= i < |r|
      ensures r[i].key == keys[i] && KeysAscend(r[i].value)
    {
      assert Keys(r)[i] == keys[i] && keys[i] in keys;
      CanonMemberAt(ms, keys, i);
      CanonAscends(Lookup(ms, keys[i]));
    }
    hide Lookup, Keys, Valid;
  }

  /**
   * What `stableStringify` writes is JSON: read by the grammar it is one value and nothing behind it,
   * equal to the printed one up to key order, with the keys of every object ascending.
   */
  lemma StableTextReadsBack(v: Json)
    requires Parsed(v)
    ensures exists w :: ReadValue(StableStringify(v)) == Got(w, []) && Equivalent(w, Nulled(v)) && KeysAscend(w)
  {
    NulledPrintsSame(v);
    NulledIsValid(v);
    StablePrintsCanon(Nulled(v));
    CanonIsValid(Nulled(v));
    CanonAscends(Nulled(v));
    var w := Canon(Nulled(v));
    PrintRead(w, []);
    assert Print(w) + [] == Print(w);
  }
}
