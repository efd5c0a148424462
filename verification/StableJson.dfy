/**
 * `stableStringify`: JSON text with every object's keys in sorted order. The canonical form
 * behind payload hashes and archive checksums.
 */
module StableJson {
  import opened Text

  /** A member of an object, in the order the source received it. */
  datatype Member = Member(key: Text, value: Json)

  /**
   * `Num` carries the shortest round-trip text JavaScript prints for the number. A number
   * too large for a double, such as 1e999, parses to an infinity.
   */
  datatype Json =
    | Null | Bool(b: bool) | Num(text: Text) | Infinite(negative: bool) | Str(s: Text)
    | Arr(items: seq<Json>) | Obj(members: seq<Member>)

  const COMMA: Unit := 44
  const COLON: Unit := 58
  const OPEN_LIST: Unit := 91
  const CLOSE_LIST: Unit := 93
  const OPEN_OBJECT: Unit := 123
  const CLOSE_OBJECT: Unit := 125
  const NULL_TEXT: Text := [110, 117, 108, 108]
  const TRUE_TEXT: Text := [116, 114, 117, 101]
  const FALSE_TEXT: Text := [102, 97, 108, 115, 101]

  /** Digits, '+', '-', '.', 'e'. */
  predicate NumberUnit(u: Unit) {
    48 <= u <= 57 || u in {43, 45, 46, 101}
  }

  predicate NumberText(t: Text) {
    t != [] && (48 <= t[0] <= 57 || t[0] == 45) && forall i :: 0 <= i < |t| ==> NumberUnit(t[i])
  }

  function Keys(ms: seq<Member>): (ks: seq<Text>)
    ensures |ks| == |ms| && forall i :: 0 <= i < |ms| ==> ks[i] == ms[i].key
  {
    seq(|ms|, i requires 0 <= i < |ms| => ms[i].key)
  }

  lemma KeysCons(m: Member, rest: seq<Member>)
    ensures Keys([m] + rest) == [m.key] + Keys(rest)
  {
  }

  /** What a JavaScript value parsed from JSON is: number texts are numbers, keys are distinct. */
  ghost predicate Parsed(v: Json) {
    match v
    case Num(t) => NumberText(t)
    case Arr(items) => forall i :: 0 <= i < |items| ==> Parsed(items[i])
    case Obj(ms) => DistinctKeys(Keys(ms)) && forall i :: 0 <= i < |ms| ==> Parsed(ms[i].value)
    case _ => true
  }

  /** A parsed value with finite numbers only. */
  ghost predicate Valid(v: Json) {
    match v
    case Num(t) => NumberText(t)
    case Infinite(_) => false
    case Arr(items) => forall i :: 0 <= i < |items| ==> Valid(items[i])
    case Obj(ms) => DistinctKeys(Keys(ms)) && forall i :: 0 <= i < |ms| ==> Valid(ms[i].value)
    case _ => true
  }

  function Find(ms: seq<Member>, k: Text): (i: nat)
    requires k in Keys(ms)
    ensures i < |ms| && ms[i].key == k
  {
    if ms[0].key == k then 0 else 1 + Find(ms[1..], k)
  }

  function Lookup(ms: seq<Member>, k: Text): Json
    requires k in Keys(ms)
  {
    ms[Find(ms, k)].value
  }

  // ---------------------------------------------------------------- printing

  /** Plain JSON text, members in the order they stand. */
  function Print(v: Json): Text
    decreases v, 1
  {
    match v
    case Null => NULL_TEXT
    case Bool(b) => if b then TRUE_TEXT else FALSE_TEXT
    case Num(t) => t
    case Infinite(_) => NULL_TEXT
    case Str(s) => Quote(s)
    case Arr(items) => [OPEN_LIST] + PrintItems(items, true)
    case Obj(ms) => [OPEN_OBJECT] + PrintMembers(ms, true)
  }

  /** The rest of a list, from the next separator up to the closing bracket. */
  function PrintItems(items: seq<Json>, first: bool): Text
    decreases items, 0
  {
    if items == [] then [CLOSE_LIST]
    else (if first then [] else [COMMA]) + Print(items[0]) + PrintItems(items[1..], false)
  }

  function PrintMembers(ms: seq<Member>, first: bool): Text
    decreases ms, 0
  {
    if ms == [] then [CLOSE_OBJECT]
    else
      (if first then [] else [COMMA]) + Quote(ms[0].key) + [COLON] + Print(ms[0].value) + PrintMembers(ms[1..], false)
  }

  /** The source's function: lists in order, objects by sorted key. */
  function StableStringify(v: Json): Text
    decreases v, 0, 0
  {
    match v
    case Arr(items) => [OPEN_LIST] + StableItems(items, true)
    case Obj(ms) =>
      SortElements(Keys(ms));
      [OPEN_OBJECT] + StableMembers(ms, Sort(Keys(ms)), true)
    case _ => Print(v)
  }

  function StableItems(items: seq<Json>, first: bool): Text
    decreases items, 0, 0
  {
    if items == [] then [CLOSE_LIST]
    else (if first then [] else [COMMA]) + StableStringify(items[0]) + StableItems(items[1..], false)
  }

  function StableMembers(ms: seq<Member>, keys: seq<Text>, first: bool): Text
    requires forall k :: k in keys ==> k in Keys(ms)
    decreases ms, 1, |keys|
  {
    if keys == [] then [CLOSE_OBJECT]
    else
      (if first then [] else [COMMA]) + Quote(keys[0]) + [COLON] + StableStringify(Lookup(ms, keys[0]))
      + StableMembers(ms, keys[1..], false)
  }

  // ---------------------------------------------------------- canonical form

  /** The value with every object's members in ascending key order. */
  function Canon(v: Json): Json
    decreases v, 0, 0
  {
    match v
    case Arr(items) => Arr(CanonItems(items))
    case Obj(ms) =>
      SortElements(Keys(ms));
      Obj(CanonMembers(ms, Sort(Keys(ms))))
    case _ => v
  }

  function CanonItems(items: seq<Json>): (r: seq<Json>)
    ensures |r| == |items|
    decreases items, 0, 0
  {
    if items == [] then [] else [Canon(items[0])] + CanonItems(items[1..])
  }

  function CanonMembers(ms: seq<Member>, keys: seq<Text>): (r: seq<Member>)
    requires forall k :: k in keys ==> k in Keys(ms)
    ensures |r| == |keys| && Keys(r) == keys
    decreases ms, 1, |keys|
  {
    if keys == [] then []
    else
      var m, rest := Member(keys[0], Canon(Lookup(ms, keys[0]))), CanonMembers(ms, keys[1..]);
      KeysCons(m, rest);
      [m] + rest
  }

  /** Equality up to the order of object members. */
  ghost predicate Equivalent(a: Json, b: Json) {
    match (a, b)
    case (Arr(x), Arr(y)) => |x| == |y| && forall i :: 0 <= i < |x| ==> Equivalent(x[i], y[i])
    case (Obj(m), Obj(n)) =>
      && (forall k :: k in Keys(m) <==> k in Keys(n))
      && forall k :: k in Keys(m) && k in Keys(n) ==> Equivalent(Lookup(m, k), Lookup(n, k))
    case _ => a == b
  }

  // ----------------------------------------- stringify prints the canonical form

  lemma {:induction false} StablePrintsCanon(v: Json)
    ensures StableStringify(v) == Print(Canon(v))
    decreases v, 0, 0
  {
    match v
    case Arr(items) => StableItemsPrintCanon(items, true);
    case Obj(ms) =>
      SortElements(Keys(ms));
      StableMembersPrintCanon(ms, Sort(Keys(ms)), true);
    case _ =>
  }

  lemma {:induction false} StableItemsPrintCanon(items: seq<Json>, first: bool)
    ensures StableItems(items, first) == PrintItems(CanonItems(items), first)
    decreases items, 0, 0
  {
    if items != [] {
      StablePrintsCanon(items[0]);
      StableItemsPrintCanon(items[1..], false);
      assert CanonItems(items)[1..] == CanonItems(items[1..]);
    }
  }

  lemma {:induction false} StableMembersPrintCanon(ms: seq<Member>, keys: seq<Text>, first: bool)
    requires forall k :: k in keys ==> k in Keys(ms)
    ensures StableMembers(ms, keys, first) == PrintMembers(CanonMembers(ms, keys), first)
    decreases ms, 1, |keys|
  {
    if keys != [] {
      StablePrintsCanon(Lookup(ms, keys[0]));
      StableMembersPrintCanon(ms, keys[1..], false);
      assert CanonMembers(ms, keys)[1..] == CanonMembers(ms, keys[1..]);
    }
  }

  // ------------------------------------------------- printing can be read back

  /** What may follow a value inside JSON text. */
  predicate Stops(p: Text) {
    p == [] || p[0] in {COMMA, CLOSE_LIST, CLOSE_OBJECT}
  }

  /** The length of the run of number units at the front. */
  function Run(t: Text): nat {
    if t == [] || !NumberUnit(t[0]) then 0 else 1 + Run(t[1..])
  }

  lemma {:induction false} RunIsTheNumber(s: Text, p: Text)
    requires (forall i :: 0 <= i < |s| ==> NumberUnit(s[i])) && Stops(p)
    ensures Run(s + p) == |s|
  {
    if s == [] {
      assert s + p == p;
    } else {
      RunIsTheNumber(s[1..], p);
      assert (s + p)[1..] == s[1..] + p;
    }
  }

  lemma NumberIsPrefixFree(s: Text, t: Text, p: Text, q: Text)
    requires NumberText(s) && NumberText(t) && Stops(p) && Stops(q) && s + p == t + q
    ensures s == t && p == q
  {
    RunIsTheNumber(s, p);
    RunIsTheNumber(t, q);
    SameLengthSplit(s, t, p, q);
  }

  /** The first unit tells what kind of value follows. */
  function Kind(u: Unit): nat {
    if u == 110 then 0 else if u == 116 then 1 else if u == 102 then 2 else if u == QUOTE then 3
    else if u == OPEN_LIST then 4 else if u == OPEN_OBJECT then 5 else 6
  }

  function KindOf(v: Json): nat {
    match v
    case Null => 0
    case Infinite(_) => 0
    case Bool(b) => if b then 1 else 2
    case Str(_) => 3
    case Arr(_) => 4
    case Obj(_) => 5
    case Num(_) => 6
  }

  lemma PrintStarts(v: Json, p: Text)
    requires Valid(v)
    ensures Print(v) + p != [] && !((Print(v) + p)[0] in {COMMA, CLOSE_LIST, CLOSE_OBJECT})
    ensures Kind((Print(v) + p)[0]) == KindOf(v)
  {
  }

  /** List text, one step at a time: the closing bracket, or a separator, a value and more list text. */
  lemma ItemsText(x: seq<Json>, first: bool, p: Text)
    ensures x == [] ==> PrintItems(x, first) + p == [CLOSE_LIST] + p
    ensures x != [] ==>
      PrintItems(x, first) + p == (if first then [] else [COMMA]) + (Print(x[0]) + (PrintItems(x[1..], false) + p))
    ensures !first ==> Stops(PrintItems(x, first) + p)
  {
  }

  lemma ItemsStart(x: seq<Json>, first: bool, p: Text)
    requires x != [] && Valid(x[0])
    ensures PrintItems(x, first) + p != [] && (PrintItems(x, first) + p)[0] != CLOSE_LIST
  {
    hide Print, PrintItems, Valid;
    ItemsText(x, first, p);
    PrintStarts(x[0], PrintItems(x[1..], false) + p);
  }

  function MemberText(m: Member, rest: Text): Text {
    Quote(m.key) + ([COLON] + (Print(m.value) + rest))
  }

  lemma MembersText(m: seq<Member>, first: bool, p: Text)
    ensures m == [] ==> PrintMembers(m, first) + p == [CLOSE_OBJECT] + p
    ensures m != [] ==>
      PrintMembers(m, first) + p == (if first then [] else [COMMA]) + MemberText(m[0], PrintMembers(m[1..], false) + p)
    ensures !first ==> Stops(PrintMembers(m, first) + p)
  {
    if m != [] {
      var k, v, rest := Quote(m[0].key), Print(m[0].value), PrintMembers(m[1..], false);
      var sep: Text := if first then [] else [COMMA];
      assert sep + k + [COLON] + v + rest + p == sep + (k + ([COLON] + (v + (rest + p))));
    }
  }

  lemma MembersStart(m: seq<Member>, first: bool, p: Text)
    requires m != []
    ensures PrintMembers(m, first) + p != [] && (PrintMembers(m, first) + p)[0] != CLOSE_OBJECT
  {
  }

  lemma NestedText(x: seq<Json>, m: seq<Member>, p: Text)
    ensures Print(Arr(x)) + p == [OPEN_LIST] + (PrintItems(x, true) + p)
    ensures Print(Obj(m)) + p == [OPEN_OBJECT] + (PrintMembers(m, true) + p)
  {
  }

  /** Printing is uniquely decodable: equal texts with anything allowed behind them come from equal values. */
  lemma {:induction false} PrintIsPrefixFree(v: Json, w: Json, p: Text, q: Text)
    requires Valid(v) && Valid(w) && Stops(p) && Stops(q)
    requires Print(v) + p == Print(w) + q
    ensures v == w && p == q
    decreases v, 1, 0
  {
    hide Print, PrintItems, PrintMembers, Stops;
    PrintStarts(v, p);
    PrintStarts(w, q);
    match v
    case Arr(x) =>
      NestedText(x, [], p);
      NestedText(w.items, [], q);
      SameLengthSplit([OPEN_LIST], [OPEN_LIST], PrintItems(x, true) + p, PrintItems(w.items, true) + q);
      ItemsArePrefixFree(x, w.items, true, p, q);
    case Obj(m) =>
      NestedText([], m, p);
      NestedText([], w.members, q);
      SameLengthSplit([OPEN_OBJECT], [OPEN_OBJECT], PrintMembers(m, true) + p, PrintMembers(w.members, true) + q);
      MembersArePrefixFree(m, w.members, true, p, q);
    case _ => ScalarsArePrefixFree(v, w, p, q);
  }

  lemma ScalarsArePrefixFree(v: Json, w: Json, p: Text, q: Text)
    requires Valid(v) && Valid(w) && Stops(p) && Stops(q) && Print(v) + p == Print(w) + q
    requires KindOf(v) == KindOf(w) && !v.Arr? && !v.Obj?
    ensures v == w && p == q
  {
    match v
    case Num(s) => NumberIsPrefixFree(s, w.text, p, q);
    case Str(s) => QuoteIsPrefixFree(s, w.s, p, q);
    case _ => SameLengthSplit(Print(v), Print(w), p, q);
  }

  lemma {:induction false} ItemsArePrefixFree(x: seq<Json>, y: seq<Json>, first: bool, p: Text, q: Text)
    requires forall i :: 0 <= i < |x| ==> Valid(x[i])
    requires forall i :: 0 <= i < |y| ==> Valid(y[i])
    requires Stops(p) && Stops(q) && PrintItems(x, first) + p == PrintItems(y, first) + q
    ensures x == y && p == q
    decreases x, 0, 0
  {
    hide Print, PrintItems, Valid, Stops;
    ItemsText(x, first, p);
    ItemsText(y, first, q);
    var sep: Text := if first then [] else [COMMA];
    if x != [] && y != [] {
      var p', q' := PrintItems(x[1..], false) + p, PrintItems(y[1..], false) + q;
      SameLengthSplit(sep, sep, Print(x[0]) + p', Print(y[0]) + q');
      ItemsText(x[1..], false, p);
      ItemsText(y[1..], false, q);
      PrintIsPrefixFree(x[0], y[0], p', q');
      ItemsArePrefixFree(x[1..], y[1..], false, p, q);
      assert x == [x[0]] + x[1..] && y == [y[0]] + y[1..];
    } else {
      if x != [] {
        ItemsStart(x, first, p);
      }
      if y != [] {
        ItemsStart(y, first, q);
      }
      SameLengthSplit([CLOSE_LIST], [CLOSE_LIST], p, q);
    }
  }

  lemma {:induction false} MembersArePrefixFree(m: seq<Member>, n: seq<Member>, first: bool, p: Text, q: Text)
    requires forall i :: 0 <= i < |m| ==> Valid(m[i].value)
    requires forall i :: 0 <= i < |n| ==> Valid(n[i].value)
    requires Stops(p) && Stops(q) && PrintMembers(m, first) + p == PrintMembers(n, first) + q
    ensures m == n && p == q
    decreases m, 0, 0
  {
    hide Print, PrintMembers, Valid, Stops, Quote;
    MembersText(m, first, p);
    MembersText(n, first, q);
    var sep: Text := if first then [] else [COMMA];
    if m != [] && n != [] {
      var p', q' := PrintMembers(m[1..], false) + p, PrintMembers(n[1..], false) + q;
      var v, w := m[0].value, n[0].value;
      SameLengthSplit(sep, sep, MemberText(m[0], p'), MemberText(n[0], q'));
      QuoteIsPrefixFree(m[0].key, n[0].key, [COLON] + (Print(v) + p'), [COLON] + (Print(w) + q'));
      SameLengthSplit([COLON], [COLON], Print(v) + p', Print(w) + q');
      MembersText(m[1..], false, p);
      MembersText(n[1..], false, q);
      PrintIsPrefixFree(v, w, p', q');
      MembersArePrefixFree(m[1..], n[1..], false, p, q);
      assert m == [m[0]] + m[1..] && n == [n[0]] + n[1..];
    } else {
      if m != [] {
        MembersStart(m, first, p);
      }
      if n != [] {
        MembersStart(n, first, q);
      }
      SameLengthSplit([CLOSE_OBJECT], [CLOSE_OBJECT], p, q);
    }
  }

  // ------------------------------------------------------ canonical equality

  lemma {:induction false} CanonItemAt(items: seq<Json>, i: nat)
    requires i < |items|
    ensures CanonItems(items)[i] == Canon(items[i])
  {
    if i > 0 {
      CanonItemAt(items[1..], i - 1);
    }
  }

  lemma {:induction false} CanonMemberAt(ms: seq<Member>, keys: seq<Text>, i: nat)
    requires (forall k :: k in keys ==> k in Keys(ms)) && i < |keys|
    ensures CanonMembers(ms, keys)[i] == Member(keys[i], Canon(Lookup(ms, keys[i])))
    decreases i
  {
    if i > 0 {
      CanonMemberAt(ms, keys[1..], i - 1);
    }
  }

  lemma {:induction false} CanonIsValid(v: Json)
    requires Valid(v)
    ensures Valid(Canon(v))
  {
    match v
    case Arr(items) =>
      var r := CanonItems(items);
      forall i | 0 <= i < |r|
        ensures Valid(r[i])
      {
        CanonItemAt(items, i);
        CanonIsValid(items[i]);
      }
    case Obj(ms) =>
      var keys := Sort(Keys(ms));
      SortElements(Keys(ms));
      var r := CanonMembers(ms, keys);
      SortKeepsDistinct(Keys(ms));
      forall i | 0 <= i < |r|
        ensures Valid(r[i].value)
      {
        CanonMemberAt(ms, keys, i);
        CanonIsValid(Lookup(ms, keys[i]));
      }
    case _ =>
  }

  /** Two values have one canonical form exactly when they are equal up to member order. */
  lemma {:induction false} CanonIsEquivalence(a: Json, b: Json)
    requires Valid(a) && Valid(b)
    ensures Canon(a) == Canon(b) <==> Equivalent(a, b)
    decreases a, 1
  {
    match (a, b)
    case (Arr(x), Arr(y)) => ItemsAgree(x, y);
    case (Obj(m), Obj(n)) => MembersAgree(m, n);
    case _ =>
  }

  lemma {:induction false} ItemsAgree(x: seq<Json>, y: seq<Json>)
    requires Valid(Arr(x)) && Valid(Arr(y))
    ensures CanonItems(x) == CanonItems(y) <==> (|x| == |y| && forall i :: 0 <= i < |x| ==> Equivalent(x[i], y[i]))
    decreases x, 0
  {
    if |x| == |y| {
      forall i | 0 <= i < |x|
        ensures CanonItems(x)[i] == CanonItems(y)[i] <==> Equivalent(x[i], y[i])
      {
        CanonItemAt(x, i);
        CanonItemAt(y, i);
        CanonIsEquivalence(x[i], y[i]);
      }
      if forall i :: 0 <= i < |x| ==> Equivalent(x[i], y[i]) {
        assert CanonItems(x) == CanonItems(y);
      }
    }
  }

  lemma {:induction false} MembersAgree(m: seq<Member>, n: seq<Member>)
    requires Valid(Obj(m)) && Valid(Obj(n))
    ensures Canon(Obj(m)) == Canon(Obj(n)) <==> Equivalent(Obj(m), Obj(n))
    decreases m, 0
  {
    forall k | k in Keys(m) && k in Keys(n)
      ensures Canon(Lookup(m, k)) == Canon(Lookup(n, k)) <==> Equivalent(Lookup(m, k), Lookup(n, k))
    {
      CanonIsEquivalence(Lookup(m, k), Lookup(n, k));
    }
    CanonObjects(m, n);
    EquivalentObjects(m, n);
  }

  lemma EquivalentObjects(m: seq<Member>, n: seq<Member>)
    ensures Equivalent(Obj(m), Obj(n)) <==>
            && (forall k :: k in Keys(m) <==> k in Keys(n))
            && forall k :: k in Keys(m) && k in Keys(n) ==> Equivalent(Lookup(m, k), Lookup(n, k))
  {
  }

  lemma CanonObjects(m: seq<Member>, n: seq<Member>)
    requires DistinctKeys(Keys(m)) && DistinctKeys(Keys(n))
    ensures Canon(Obj(m)) == Canon(Obj(n)) <==>
            && (forall k :: k in Keys(m) <==> k in Keys(n))
            && forall k :: k in Keys(m) && k in Keys(n) ==> Canon(Lookup(m, k)) == Canon(Lookup(n, k))
  {
    hide Canon, Lookup, Sort, Keys, CanonMembers;
    var keys, keys' := Sort(Keys(m)), Sort(Keys(n));
    CanonObject(m);
    CanonObject(n);
    SortedKeySets(Keys(m), Keys(n));
    SameCanonKeys(m, n, keys, keys');
    if keys == keys' {
      SameCanonMembers(m, n, keys);
      assert (forall k :: k in Keys(m) ==> Canon(Lookup(m, k)) == Canon(Lookup(n, k)))
        <==> (forall i :: 0 <= i < |keys| ==> Canon(Lookup(m, keys[i])) == Canon(Lookup(n, keys[i]))) by {
        assert forall i :: 0 <= i < |keys| ==> keys[i] in keys;
      }
    }
  }

  lemma CanonObject(m: seq<Member>)
    ensures var keys := Sort(Keys(m));
      && (forall k :: k in keys <==> k in Keys(m))
      && Canon(Obj(m)) == Obj(CanonMembers(m, keys))
  {
    SortElements(Keys(m));
  }

  lemma SameCanonKeys(m: seq<Member>, n: seq<Member>, keys: seq<Text>, keys': seq<Text>)
    requires (forall k :: k in keys ==> k in Keys(m)) && (forall k :: k in keys' ==> k in Keys(n))
    ensures CanonMembers(m, keys) == CanonMembers(n, keys') ==> keys == keys'
  {
    assert Keys(CanonMembers(m, keys)) == keys && Keys(CanonMembers(n, keys')) == keys';
  }

  lemma SameMembers(r: seq<Member>, q: seq<Member>, keys: seq<Text>)
    requires |r| == |q| == |keys| && forall i :: 0 <= i < |keys| ==> r[i].key == keys[i] == q[i].key
    ensures r == q <==> forall i :: 0 <= i < |keys| ==> r[i].value == q[i].value
  {
    if forall i :: 0 <= i < |keys| ==> r[i].value == q[i].value {
      assert forall i :: 0 <= i < |keys| ==> r[i] == q[i];
    }
  }

  lemma SameCanonMembers(m: seq<Member>, n: seq<Member>, keys: seq<Text>)
    requires (forall k :: k in keys ==> k in Keys(m)) && (forall k :: k in keys ==> k in Keys(n))
    ensures CanonMembers(m, keys) == CanonMembers(n, keys) <==>
            (forall i :: 0 <= i < |keys| ==> Canon(Lookup(m, keys[i])) == Canon(Lookup(n, keys[i])))
  {
    hide Canon, Lookup, Keys;
    var r, r' := CanonMembers(m, keys), CanonMembers(n, keys);
    forall i | 0 <= i < |keys|
      ensures r[i] == Member(keys[i], Canon(Lookup(m, keys[i]))) && r'[i] == Member(keys[i], Canon(Lookup(n, keys[i])))
    {
      CanonMemberAt(m, keys, i);
      CanonMemberAt(n, keys, i);
    }
    hide CanonMembers;
    SameMembers(r, r', keys);
  }

  // -------------------------------------------------------- infinite numbers

  /** The value with every infinite number read as null. */
  function Nulled(v: Json): Json
    decreases v, 0
  {
    match v
    case Infinite(_) => Null
    case Arr(items) => Arr(NulledItems(items))
    case Obj(ms) => Obj(NulledMembers(ms))
    case _ => v
  }

  function NulledItems(items: seq<Json>): (r: seq<Json>)
    ensures |r| == |items|
    decreases items, 0
  {
    if items == [] then [] else [Nulled(items[0])] + NulledItems(items[1..])
  }

  function NulledMembers(ms: seq<Member>): (r: seq<Member>)
    ensures |r| == |ms| && Keys(r) == Keys(ms)
    decreases ms, 0
  {
    if ms == [] then []
    else
      var m, rest := Member(ms[0].key, Nulled(ms[0].value)), NulledMembers(ms[1..]);
      KeysCons(m, rest);
      KeysCons(ms[0], ms[1..]);
      assert ms == [ms[0]] + ms[1..];
      [m] + rest
  }

  lemma {:induction false} NulledItemAt(items: seq<Json>, i: nat)
    requires i < |items|
    ensures NulledItems(items)[i] == Nulled(items[i])
  {
    if i > 0 {
      NulledItemAt(items[1..], i - 1);
    }
  }

  lemma {:induction false} NulledMemberAt(ms: seq<Member>, i: nat)
    requires i < |ms|
    ensures NulledMembers(ms)[i] == Member(ms[i].key, Nulled(ms[i].value))
  {
    if i > 0 {
      NulledMemberAt(ms[1..], i - 1);
    }
  }

  lemma {:induction false} NulledIsValid(v: Json)
    requires Parsed(v)
    ensures Valid(Nulled(v))
  {
    match v
    case Arr(items) =>
      forall i | 0 <= i < |items|
        ensures Valid(NulledItems(items)[i])
      {
        NulledItemAt(items, i);
        NulledIsValid(items[i]);
      }
    case Obj(ms) =>
      forall i | 0 <= i < |ms|
        ensures Valid(NulledMembers(ms)[i].value)
      {
        NulledMemberAt(ms, i);
        NulledIsValid(ms[i].value);
      }
    case _ =>
  }

  lemma {:induction false} NothingToNull(v: Json)
    requires Valid(v)
    ensures Nulled(v) == v && Parsed(v)
  {
    match v
    case Arr(items) =>
      forall i | 0 <= i < |items|
        ensures NulledItems(items)[i] == items[i] && Parsed(items[i])
      {
        NulledItemAt(items, i);
        NothingToNull(items[i]);
      }
    case Obj(ms) =>
      forall i | 0 <= i < |ms|
        ensures NulledMembers(ms)[i] == ms[i] && Parsed(ms[i].value)
      {
        NulledMemberAt(ms, i);
        NothingToNull(ms[i].value);
      }
    case _ =>
  }

  lemma {:induction false} SameFind(ms: seq<Member>, ns: seq<Member>, k: Text)
    requires Keys(ms) == Keys(ns) && k in Keys(ms)
    ensures Find(ms, k) == Find(ns, k)
  {
    assert Keys(ms)[0] == Keys(ns)[0];
    if ms[0].key != k {
      assert Keys(ms[1..]) == Keys(ms)[1..] && Keys(ns[1..]) == Keys(ns)[1..];
      SameFind(ms[1..], ns[1..], k);
    }
  }

  lemma NulledLookup(ms: seq<Member>, k: Text)
    requires k in Keys(ms)
    ensures Lookup(NulledMembers(ms), k) == Nulled(Lookup(ms, k))
  {
    SameFind(ms, NulledMembers(ms), k);
    NulledMemberAt(ms, Find(ms, k));
  }

  /** `JSON.stringify` prints an infinity as null. */
  lemma {:induction false} NulledPrintsSame(v: Json)
    ensures StableStringify(Nulled(v)) == StableStringify(v)
    decreases v, 0, 0
  {
    match v
    case Arr(items) => NulledItemsPrintSame(items, true);
    case Obj(ms) =>
      SortElements(Keys(ms));
      NulledMembersPrintSame(ms, Sort(Keys(ms)), true);
    case _ =>
  }

  lemma {:induction false} NulledItemsPrintSame(items: seq<Json>, first: bool)
    ensures StableItems(NulledItems(items), first) == StableItems(items, first)
    decreases items, 0, 0
  {
    if items != [] {
      NulledPrintsSame(items[0]);
      NulledItemsPrintSame(items[1..], false);
      assert NulledItems(items)[1..] == NulledItems(items[1..]);
    }
  }

  lemma {:induction false} NulledMembersPrintSame(ms: seq<Member>, keys: seq<Text>, first: bool)
    requires forall k :: k in keys ==> k in Keys(ms)
    ensures StableMembers(NulledMembers(ms), keys, first) == StableMembers(ms, keys, first)
    decreases ms, 1, |keys|
  {
    if keys != [] {
      NulledLookup(ms, keys[0]);
      NulledPrintsSame(Lookup(ms, keys[0]));
      NulledMembersPrintSame(ms, keys[1..], false);
    }
  }

  // ------------------------------------------------------------ main results

  lemma FiniteIsCanonical(a: Json, b: Json)
    requires Valid(a) && Valid(b)
    ensures StableStringify(a) == StableStringify(b) <==> Equivalent(a, b)
  {
    StablePrintsCanon(a);
    StablePrintsCanon(b);
    CanonIsValid(a);
    CanonIsValid(b);
    CanonIsEquivalence(a, b);
    if Print(Canon(a)) == Print(Canon(b)) {
      PrintIsPrefixFree(Canon(a), Canon(b), [], []);
    }
  }

  /**
   * The canonical-form law for everything a JSON text parses to: equal texts exactly when
   * equal up to key order, once infinite numbers are read as null; without infinite numbers,
   * exactly when equal up to key order.
   */
  lemma StableStringifyIsCanonical(a: Json, b: Json)
    requires Parsed(a) && Parsed(b)
    ensures StableStringify(a) == StableStringify(b) <==> Equivalent(Nulled(a), Nulled(b))
    ensures Valid(a) && Valid(b) ==> (StableStringify(a) == StableStringify(b) <==> Equivalent(a, b))
  {
    NulledPrintsSame(a);
    NulledPrintsSame(b);
    NulledIsValid(a);
    NulledIsValid(b);
    FiniteIsCanonical(Nulled(a), Nulled(b));
    if Valid(a) && Valid(b) {
      NothingToNull(a);
      NothingToNull(b);
    }
  }

  /** A list holding 1e999 and a list holding null differ and print alike. */
  lemma InfinityPrintsAsNull()
    ensures var a, b := Arr([Infinite(false)]), Arr([Null]);
      Parsed(a) && Parsed(b) && StableStringify(a) == StableStringify(b) && !Equivalent(a, b)
  {
    NulledPrintsSame(Arr([Infinite(false)]));
    NulledItemAt([Infinite(false)], 0);
    assert NulledItems([Infinite(false)]) == [Null];
    assert !Equivalent([Infinite(false)][0], [Null][0]);
  }

  /** So two payload hashes agree exactly when the payloads do, for a collision-free hash. */
  lemma PayloadHashesIdentify(sha: Text -> nat, a: Json, b: Json)
    requires Parsed(a) && Parsed(b) && forall s, t :: sha(s) == sha(t) ==> s == t
    ensures sha(StableStringify(a)) == sha(StableStringify(b)) <==> Equivalent(Nulled(a), Nulled(b))
  {
    StableStringifyIsCanonical(a, b);
  }

  /** The text never holds a lone surrogate, so hashing its UTF-8 encoding loses nothing. */
  lemma StableTextIsWellFormed(v: Json)
    requires Parsed(v)
    ensures WellFormedUtf16(StableStringify(v)) && NoLoneSurrogate(StableStringify(v))
  {
    NulledPrintsSame(v);
    NulledIsValid(v);
    StablePrintsCanon(Nulled(v));
    CanonIsValid(Nulled(v));
    PrintIsWellFormed(Canon(Nulled(v)));
    WellFormedMeans(StableStringify(v));
  }

  lemma {:induction false} PrintIsWellFormed(v: Json)
    requires Valid(v)
    ensures WellFormedUtf16(Print(v))
    decreases v, 1
  {
    match v
    case Str(s) => QuoteIsWellFormed(s);
    case Arr(items) =>
      ItemsAreWellFormed(items, true);
      PlainIsWellFormed([OPEN_LIST]);
      WellFormedJoins([OPEN_LIST], PrintItems(items, true));
    case Obj(ms) =>
      MembersAreWellFormed(ms, true);
      PlainIsWellFormed([OPEN_OBJECT]);
      WellFormedJoins([OPEN_OBJECT], PrintMembers(ms, true));
    case _ => PlainIsWellFormed(Print(v));
  }

  lemma {:induction false} ItemsAreWellFormed(items: seq<Json>, first: bool)
    requires forall i :: 0 <= i < |items| ==> Valid(items[i])
    ensures WellFormedUtf16(PrintItems(items, first))
    decreases items, 0
  {
    var sep: Text := if first then [] else [COMMA];
    if items == [] {
      PlainIsWellFormed([CLOSE_LIST]);
    } else {
      PlainIsWellFormed(sep);
      PrintIsWellFormed(items[0]);
      ItemsAreWellFormed(items[1..], false);
      WellFormedJoins(sep, Print(items[0]));
      WellFormedJoins(sep + Print(items[0]), PrintItems(items[1..], false));
    }
  }

  lemma {:induction false} MembersAreWellFormed(ms: seq<Member>, first: bool)
    requires forall i :: 0 <= i < |ms| ==> Valid(ms[i].value)
    ensures WellFormedUtf16(PrintMembers(ms, first))
    decreases ms, 0
  {
    hide WellFormedUtf16, Valid, Print, Quote;
    var sep: Text := if first then [] else [COMMA];
    PlainIsWellFormed([CLOSE_OBJECT]);
    if ms != [] {
      var k, v := Quote(ms[0].key), Print(ms[0].value);
      PlainIsWellFormed(sep);
      PlainIsWellFormed([COLON]);
      QuoteIsWellFormed(ms[0].key);
      PrintIsWellFormed(ms[0].value);
      MembersAreWellFormed(ms[1..], false);
      WellFormedJoins(sep, k);
      WellFormedJoins(sep + k, [COLON]);
      WellFormedJoins(sep + k + [COLON], v);
      WellFormedJoins(sep + k + [COLON] + v, PrintMembers(ms[1..], false));
    }
  }
}
