/** stableStringify (packages/airbyte-destination/src/destination.ts:234-246):
    the printed form is self-delimiting and canonical, over the JSON grammar of
    sections 4 to 7 of RFC 8259. */
module CanonicalJson {
  import opened Collections

  /** UTF-16 code units, as JavaScript strings hold them. */
  type Unit = u: nat | u < 0x1_0000
  type Text = seq<Unit>

  /** An object's members are in property order.  Numbers are whatever finite
      values the printer distinguishes (negative zero is not among them). */
  datatype Member = Member(key: Text, value: Json)
  datatype Json =
    | Null
    | Bool(flag: bool)
    | Number(number: int)
    | String(text: Text)
    | Array(items: seq<Json>)
    | Object(members: seq<Member>)

  /** No object names a property twice. */
  ghost predicate IsWellFormed(v: Json) {
    match v
    case Array(items) => forall i :: 0 <= i < |items| ==> IsWellFormed(items[i])
    case Object(members) =>
      (forall i, j :: 0 <= i < j < |members| ==> members[i].key != members[j].key) &&
      forall i :: 0 <= i < |members| ==> IsWellFormed(members[i].value)
    case _ => true
  }

  /** Equality up to the order of object members. */
  ghost predicate IsSame(a: Json, b: Json) {
    match a
    case Array(items) =>
      b.Array? && |items| == |b.items| && forall i :: 0 <= i < |items| ==> IsSame(items[i], b.items[i])
    case Object(members) =>
      b.Object? && |members| == |b.members| &&
      forall i :: 0 <= i < |members| ==>
        exists j :: 0 <= j < |b.members| && members[i].key == b.members[j].key &&
          IsSame(members[i].value, b.members[j].value)
    case _ => a == b
  }

  // ---- strings ----------------------------------------------------------------

  const QUOTE: Unit := 34
  const BACKSLASH: Unit := 92
  const COMMA: Unit := 44
  const COLON: Unit := 58

  function HexDigit(d: nat): Unit
    requires d < 16
  {
    if d < 10 then 48 + d else 87 + d
  }

  function HexValue(u: Unit): nat {
    if 48 <= u < 58 then u - 48 else if 97 <= u < 103 then u - 87 else 0
  }

  function HexEscape(u: Unit): Text {
    [BACKSLASH, 117, HexDigit(u / 4096), HexDigit(u / 256 % 16), HexDigit(u / 16 % 16), HexDigit(u % 16)]
  }

  predicate IsLead(u: Unit) {
    0xD800 <= u < 0xDC00
  }

  predicate IsTrail(u: Unit) {
    0xDC00 <= u < 0xE000
  }

  predicate IsLone(s: Text, i: nat)
    requires i < |s|
  {
    (IsLead(s[i]) && !(i + 1 < |s| && IsTrail(s[i + 1]))) || (IsTrail(s[i]) && !(i > 0 && IsLead(s[i - 1])))
  }

  /** JSON.stringify on one code unit of a string. */
  function EscapeUnit(u: Unit, lone: bool): Text {
    if u == QUOTE || u == BACKSLASH then [BACKSLASH, u]
    else if u == 8 then [BACKSLASH, 98]
    else if u == 9 then [BACKSLASH, 116]
    else if u == 10 then [BACKSLASH, 110]
    else if u == 12 then [BACKSLASH, 102]
    else if u == 13 then [BACKSLASH, 114]
    else if u < 32 || lone then HexEscape(u)
    else [u]
  }

  function EscapeFrom(s: Text, i: nat): Text
    requires i <= |s|
    decreases |s| - i
  {
    if i == |s| then [] else EscapeUnit(s[i], IsLone(s, i)) + EscapeFrom(s, i + 1)
  }

  function Quote(s: Text): Text {
    [QUOTE] + EscapeFrom(s, 0) + [QUOTE]
  }

  /** Reading one code unit back, and what follows it. */
  function ReadUnit(text: Text): (Unit, Text)
    requires text != []
  {
    if text[0] != BACKSLASH || |text| < 2 then (text[0], text[1..])
    else
      var e := text[1];
      if e == 117 then
        if |text| < 6 then (0, [])
        else
          var u := HexValue(text[2]) * 4096 + HexValue(text[3]) * 256 + HexValue(text[4]) * 16 + HexValue(text[5]);
          (u % 0x1_0000, text[6..])
      else
        (if e == 98 then 8 else if e == 116 then 9 else if e == 110 then 10 else if e == 102 then 12
          else if e == 114 then 13 else e, text[2..])
  }

  lemma HexRoundTrips(u: Unit)
    ensures HexValue(HexDigit(u / 4096)) * 4096 + HexValue(HexDigit(u / 256 % 16)) * 256 +
            HexValue(HexDigit(u / 16 % 16)) * 16 + HexValue(HexDigit(u % 16)) == u
  {
    var high, middle := u / 256, u / 16;
    assert u == 16 * middle + u % 16;
    assert middle == 16 * high + middle % 16;
    assert high == 16 * (u / 4096) + high % 16;
  }

  lemma ReadsHex(u: Unit, rest: Text)
    ensures ReadUnit(HexEscape(u) + rest) == (u, rest)
  {
    hide HexDigit, HexValue;
    var escaped := HexEscape(u);
    var text := escaped + rest;
    HexRoundTrips(u);
    assert text[6..] == rest;
    assert forall i :: 0 <= i < 6 ==> text[i] == escaped[i];
  }

  lemma ReadsEscaped(u: Unit, lone: bool, rest: Text)
    ensures ReadUnit(EscapeUnit(u, lone) + rest) == (u, rest)
    ensures (EscapeUnit(u, lone) + rest)[0] != QUOTE
  {
    hide HexEscape;
    var escaped := EscapeUnit(u, lone);
    var text := escaped + rest;
    if escaped == HexEscape(u) {
      ReadsHex(u, rest);
      StartsWithBackslash(u, rest);
    } else {
      assert text[|escaped|..] == rest;
      assert forall i :: 0 <= i < |escaped| ==> text[i] == escaped[i];
    }
  }

  lemma StartsWithBackslash(u: Unit, rest: Text)
    ensures (HexEscape(u) + rest)[0] == BACKSLASH
  {
  }

  lemma ReadsStep(s: Text, i: nat, rest: Text)
    requires i < |s|
    ensures var text := EscapeFrom(s, i) + [QUOTE] + rest;
            text[0] != QUOTE && ReadUnit(text) == (s[i], EscapeFrom(s, i + 1) + [QUOTE] + rest)
  {
    hide EscapeUnit, ReadUnit, IsLone;
    var after := EscapeFrom(s, i + 1) + [QUOTE] + rest;
    assert EscapeFrom(s, i) + [QUOTE] + rest == EscapeUnit(s[i], IsLone(s, i)) + after;
    ReadsEscaped(s[i], IsLone(s, i), after);
  }

  lemma ReadsEnd(s: Text, rest: Text)
    ensures EscapeFrom(s, |s|) + [QUOTE] + rest == [QUOTE] + rest
  {
  }

  /** A quoted string ends where it ends, and says which string it is. */
  lemma {:induction false} EscapedIsPrefixFree(s: Text, i: nat, t: Text, j: nat, r1: Text, r2: Text)
    requires i <= |s| && j <= |t|
    requires EscapeFrom(s, i) + [QUOTE] + r1 == EscapeFrom(t, j) + [QUOTE] + r2
    ensures s[i..] == t[j..] && r1 == r2
    decreases |s| - i
  {
    hide EscapeFrom, ReadUnit;
    if i < |s| { ReadsStep(s, i, r1); } else { ReadsEnd(s, r1); }
    if j < |t| { ReadsStep(t, j, r2); } else { ReadsEnd(t, r2); }
    assert i < |s| <==> j < |t|;
    if i < |s| {
      EscapedIsPrefixFree(s, i + 1, t, j + 1, r1, r2);
      assert s[i..] == [s[i]] + s[i + 1..] && t[j..] == [t[j]] + t[j + 1..];
    } else {
      SamePrefix([QUOTE], r1, [QUOTE], r2);
    }
  }

  lemma SamePrefix(x: Text, r1: Text, y: Text, r2: Text)
    requires x + r1 == y + r2 && |x| == |y|
    ensures x == y && r1 == r2
  {
    assert (x + r1)[..|x|] == x && (y + r2)[..|y|] == y;
    assert (x + r1)[|x|..] == r1 && (y + r2)[|y|..] == r2;
  }

  lemma QuotedIsPrefixFree(s: Text, t: Text, r1: Text, r2: Text)
    requires Quote(s) + r1 == Quote(t) + r2
    ensures s == t && r1 == r2
  {
    assert (Quote(s) + r1)[1..] == EscapeFrom(s, 0) + [QUOTE] + r1;
    assert (Quote(t) + r2)[1..] == EscapeFrom(t, 0) + [QUOTE] + r2;
    EscapedIsPrefixFree(s, 0, t, 0, r1, r2);
    assert s[0..] == s && t[0..] == t;
  }

  // ---- numbers ----------------------------------------------------------------

  predicate IsNumberUnit(u: Unit) {
    48 <= u < 58 || u == 45 || u == 43 || u == 46 || u == 101
  }

  /** What ECMAScript guarantees of Number::toString on finite numbers other than
      negative zero: it can be read back, and uses these characters only. */
  ghost predicate PrintsNumbers(show: int -> Text) {
    (forall n :: show(n) != [] && forall i :: 0 <= i < |show(n)| ==> IsNumberUnit(show(n)[i])) &&
    forall m, n :: show(m) == show(n) ==> m == n
  }

  predicate IsDelimited(rest: Text) {
    rest == [] || !IsNumberUnit(rest[0])
  }

  /** A run of number characters does not stop inside another. */
  lemma NumberIsNotShorter(x: Text, r1: Text, y: Text, r2: Text)
    requires x + r1 == y + r2 && IsDelimited(r1)
    requires forall i :: 0 <= i < |y| ==> IsNumberUnit(y[i])
    ensures |y| <= |x|
  {
    hide IsNumberUnit;
    assert r1 != [] ==> !IsNumberUnit((x + r1)[|x|]);
    assert forall i :: 0 <= i < |y| ==> IsNumberUnit((y + r2)[i]);
  }

  lemma NumberIsPrefixFree(show: int -> Text, m: int, n: int, r1: Text, r2: Text)
    requires PrintsNumbers(show) && IsDelimited(r1) && IsDelimited(r2)
    requires show(m) + r1 == show(n) + r2
    ensures m == n && r1 == r2
  {
    NumberIsNotShorter(show(m), r1, show(n), r2);
    NumberIsNotShorter(show(n), r2, show(m), r1);
    SamePrefix(show(m), r1, show(n), r2);
  }

  // ---- key order --------------------------------------------------------------

  /** Array.prototype.sort on strings: by code units. */
  predicate IsLess(a: Text, b: Text) {
    if b == [] then false
    else if a == [] then true
    else if a[0] != b[0] then a[0] < b[0]
    else IsLess(a[1..], b[1..])
  }

  lemma {:induction false} LessIsStrictTotal(a: Text, b: Text, c: Text)
    ensures !IsLess(a, a)
    ensures IsLess(a, b) && IsLess(b, c) ==> IsLess(a, c)
    ensures a != b ==> IsLess(a, b) || IsLess(b, a)
    ensures !(IsLess(a, b) && IsLess(b, a))
  {
    if a != [] { LessIsStrictTotal(a[1..], if b == [] then [] else b[1..], if c == [] then [] else c[1..]); }
    if a != [] && b != [] && a[0] == b[0] { assert a == [a[0]] + a[1..] && b == [b[0]] + b[1..]; }
  }

  function InsertMember(m: Member, sorted: seq<Member>): seq<Member> {
    if sorted == [] then [m]
    else if IsLess(m.key, sorted[0].key) then [m] + sorted
    else [sorted[0]] + InsertMember(m, sorted[1..])
  }

  function SortMembers(members: seq<Member>): seq<Member> {
    if members == [] then [] else InsertMember(members[0], SortMembers(members[1..]))
  }

  lemma {:induction false} InsertMembers(m: Member, sorted: seq<Member>)
    ensures multiset(InsertMember(m, sorted)) == multiset(sorted) + multiset{m}
  {
    if sorted != [] && !IsLess(m.key, sorted[0].key) {
      InsertMembers(m, sorted[1..]);
      assert sorted == [sorted[0]] + sorted[1..];
    } else {
      assert [m] + sorted == InsertMember(m, sorted) || sorted == [];
    }
  }

  lemma {:induction false} SortIsPermutation(members: seq<Member>)
    ensures multiset(SortMembers(members)) == multiset(members)
  {
    if members != [] {
      SortIsPermutation(members[1..]);
      InsertMembers(members[0], SortMembers(members[1..]));
      assert members == [members[0]] + members[1..];
    }
  }

  // ---- printing ---------------------------------------------------------------

  datatype Entry = Entry(key: Text, text: Text)

  function Join(texts: seq<Text>): Text {
    if texts == [] then []
    else if |texts| == 1 then texts[0]
    else texts[0] + [COMMA] + Join(texts[1..])
  }

  function EntryTexts(entries: seq<Entry>): seq<Text> {
    if entries == [] then [] else [Quote(entries[0].key) + [COLON] + entries[0].text] + EntryTexts(entries[1..])
  }

  function InsertEntry(e: Entry, sorted: seq<Entry>): seq<Entry> {
    if sorted == [] then [e]
    else if IsLess(e.key, sorted[0].key) then [e] + sorted
    else [sorted[0]] + InsertEntry(e, sorted[1..])
  }

  function SortEntries(entries: seq<Entry>): seq<Entry> {
    if entries == [] then [] else InsertEntry(entries[0], SortEntries(entries[1..]))
  }

  function PrintItems(show: int -> Text, items: seq<Json>): seq<Text>
    decreases items
  {
    if items == [] then [] else [StableStringify(show, items[0])] + PrintItems(show, items[1..])
  }

  function PrintMembers(show: int -> Text, members: seq<Member>): seq<Entry>
    decreases members
  {
    if members == [] then []
    else [Entry(members[0].key, StableStringify(show, members[0].value))] + PrintMembers(show, members[1..])
  }

  /** Members are printed in key order; the source sorts the keys first. */
  function StableStringify(show: int -> Text, v: Json): Text
    decreases v
  {
    match v
    case Null => [110, 117, 108, 108]
    case Bool(flag) => if flag then [116, 114, 117, 101] else [102, 97, 108, 115, 101]
    case Number(n) => show(n)
    case String(text) => Quote(text)
    case Array(items) => [91] + Join(PrintItems(show, items)) + [93]
    case Object(members) => [123] + Join(EntryTexts(SortEntries(PrintMembers(show, members)))) + [125]
  }

  // ---- printing sorted members ------------------------------------------------

  lemma {:induction false} PrintInserted(show: int -> Text, m: Member, sorted: seq<Member>)
    ensures PrintMembers(show, InsertMember(m, sorted)) ==
            InsertEntry(Entry(m.key, StableStringify(show, m.value)), PrintMembers(show, sorted))
  {
    hide StableStringify, IsLess;
    if sorted == [] {
    } else if IsLess(m.key, sorted[0].key) {
      assert ([m] + sorted)[1..] == sorted;
    } else {
      PrintInserted(show, m, sorted[1..]);
      assert InsertMember(m, sorted)[1..] == InsertMember(m, sorted[1..]);
    }
  }

  lemma {:induction false} PrintSorted(show: int -> Text, members: seq<Member>)
    ensures SortEntries(PrintMembers(show, members)) == PrintMembers(show, SortMembers(members))
  {
    hide StableStringify;
    if members != [] {
      PrintSorted(show, members[1..]);
      PrintInserted(show, members[0], SortMembers(members[1..]));
    }
  }

  // ---- different values print differently -------------------------------------

  function Tail(rest: seq<Text>, close: Unit, after: Text): Text {
    if rest == [] then [close] + after else [COMMA] + Join(rest) + [close] + after
  }

  lemma TailStarts(rest: seq<Text>, close: Unit, after: Text)
    requires close == 93 || close == 125
    ensures var tail := Tail(rest, close, after);
            IsDelimited(tail) && tail != [] && tail[0] == (if rest == [] then close else COMMA) &&
            tail[1..] == if rest == [] then after else Join(rest) + [close] + after
  {
    hide Join;
    if rest != [] { assert Tail(rest, close, after) == [COMMA] + (Join(rest) + [close] + after); }
  }

  lemma Regroup(a: Text, b: Text, c: Text, d: Text)
    ensures a + b + c == a + (b + c)
    ensures a + b + c + d == a + (b + c + d)
  {
  }

  lemma JoinStep(texts: seq<Text>, close: Unit, after: Text)
    requires texts != [] && (close == 93 || close == 125)
    ensures Join(texts) + [close] + after == texts[0] + Tail(texts[1..], close, after)
    ensures IsDelimited(Tail(texts[1..], close, after))
  {
    var rest := texts[1..];
    TailStarts(rest, close, after);
    hide IsDelimited;
    if |texts| == 1 {
      Regroup(texts[0], [close], after, []);
    } else {
      assert Join(texts) == texts[0] + [COMMA] + Join(rest);
      Regroup(texts[0], [COMMA], Join(rest), [close]);
      Regroup(texts[0], [COMMA] + Join(rest), [close], after);
    }
  }

  predicate StartsValue(u: Unit) {
    u == 110 || u == 116 || u == 102 || u == QUOTE || u == 91 || u == 123 || IsNumberUnit(u)
  }

  lemma FirstUnit(show: int -> Text, v: Json)
    requires PrintsNumbers(show)
    ensures var text := StableStringify(show, v);
            text != [] && StartsValue(text[0]) &&
            (v.Null? ==> text[0] == 110) && (v.Bool? ==> text[0] == if v.flag then 116 else 102) &&
            (v.Number? ==> IsNumberUnit(text[0])) &&
            (v.String? ==> text[0] == QUOTE) && (v.Array? ==> text[0] == 91) && (v.Object? ==> text[0] == 123)
  {
    hide Join, EntryTexts, SortEntries, PrintItems, PrintMembers, EscapeFrom;
  }

  ghost predicate AllWellFormed(items: seq<Json>) {
    forall i :: 0 <= i < |items| ==> IsWellFormed(items[i])
  }

  ghost predicate PairwiseSame(xs: seq<Json>, ys: seq<Json>) {
    |xs| == |ys| && forall i :: 0 <= i < |xs| ==> IsSame(xs[i], ys[i])
  }

  ghost predicate SameMembers(xs: seq<Member>, ys: seq<Member>) {
    |xs| == |ys| && forall i :: 0 <= i < |xs| ==> xs[i].key == ys[i].key && IsSame(xs[i].value, ys[i].value)
  }

  lemma {:induction false} ItemsArePrefixFree(show: int -> Text, xs: seq<Json>, ys: seq<Json>, r1: Text, r2: Text)
    requires PrintsNumbers(show) && AllWellFormed(xs) && AllWellFormed(ys)
    requires Join(PrintItems(show, xs)) + [93] + r1 == Join(PrintItems(show, ys)) + [93] + r2
    ensures PairwiseSame(xs, ys) && r1 == r2
    decreases xs
  {
    hide StableStringify, IsSame, IsWellFormed, PrintsNumbers, Join;
    EmptyJoin([93], r1);
    EmptyJoin([93], r2);
    var tx, ty := PrintItems(show, xs), PrintItems(show, ys);
    if xs != [] { FirstUnit(show, xs[0]); JoinStep(tx, 93, r1); FirstOfBoth(tx[0], Tail(tx[1..], 93, r1)); }
    if ys != [] { FirstUnit(show, ys[0]); JoinStep(ty, 93, r2); FirstOfBoth(ty[0], Tail(ty[1..], 93, r2)); }
    FirstOfBoth([93], r1);
    FirstOfBoth([93], r2);
    assert xs == [] <==> ys == [];
    if xs != [] {
      ValueIsPrefixFree(show, xs[0], ys[0], Tail(tx[1..], 93, r1), Tail(ty[1..], 93, r2));
      AfterFirst(tx[1..], ty[1..], 93, r1, r2);
      ItemsArePrefixFree(show, xs[1..], ys[1..], r1, r2);
    } else {
      SamePrefix([93], r1, [93], r2);
    }
  }

  lemma FirstOfBoth(a: Text, b: Text)
    requires a != []
    ensures (a + b)[0] == a[0]
  {
  }

  lemma EmptyJoin(close: Text, after: Text)
    ensures Join([]) + close + after == close + after
  {
  }

  lemma AfterFirst(rest1: seq<Text>, rest2: seq<Text>, close: Unit, r1: Text, r2: Text)
    requires Tail(rest1, close, r1) == Tail(rest2, close, r2) && (close == 93 || close == 125)
    ensures Join(rest1) + [close] + r1 == Join(rest2) + [close] + r2
  {
    hide Join, Tail;
    TailStarts(rest1, close, r1);
    TailStarts(rest2, close, r2);
    if rest1 == [] {
      EmptyJoin([close], r1);
      EmptyJoin([close], r2);
    }
  }

  ghost predicate AreMembersOf(xs: seq<Member>, members: seq<Member>) {
    forall i :: 0 <= i < |xs| ==> xs[i] in members
  }

  lemma FirstEntry(show: int -> Text, xs: seq<Member>)
    ensures xs == [] ==> EntryTexts(PrintMembers(show, xs)) == []
    ensures xs != [] ==>
              var texts := EntryTexts(PrintMembers(show, xs));
              texts != [] && texts[0] == Quote(xs[0].key) + [COLON] + StableStringify(show, xs[0].value) &&
              texts[0] != [] && texts[0][0] == QUOTE &&
              texts[1..] == EntryTexts(PrintMembers(show, xs[1..]))
  {
    hide StableStringify, EscapeFrom;
  }

  /** The same for the sorted members of an object v. */
  lemma {:induction false} MembersArePrefixFree(show: int -> Text, v: Json, w: Json, xs: seq<Member>, ys: seq<Member>,
                                                r1: Text, r2: Text)
    requires PrintsNumbers(show) && v.Object? && w.Object? && IsWellFormed(v) && IsWellFormed(w)
    requires AreMembersOf(xs, v.members) && AreMembersOf(ys, w.members)
    requires Join(EntryTexts(PrintMembers(show, xs))) + [125] + r1 == Join(EntryTexts(PrintMembers(show, ys))) +
             [125] + r2
    ensures SameMembers(xs, ys) && r1 == r2
    decreases v, 0, |xs|
  {
    hide StableStringify, IsSame, PrintsNumbers, Join, Quote, EntryTexts, PrintMembers, Tail, IsDelimited;
    FirstEntry(show, xs);
    FirstEntry(show, ys);
    EmptyJoin([125], r1);
    EmptyJoin([125], r2);
    var tx, ty := EntryTexts(PrintMembers(show, xs)), EntryTexts(PrintMembers(show, ys));
    if xs != [] { JoinStep(tx, 125, r1); FirstOfBoth(tx[0], Tail(tx[1..], 125, r1)); }
    if ys != [] { JoinStep(ty, 125, r2); FirstOfBoth(ty[0], Tail(ty[1..], 125, r2)); }
    FirstOfBoth([125], r1);
    FirstOfBoth([125], r2);
    assert xs == [] <==> ys == [];
    if xs != [] {
      var x, y := StableStringify(show, xs[0].value), StableStringify(show, ys[0].value);
      var after1, after2 := Tail(tx[1..], 125, r1), Tail(ty[1..], 125, r2);
      assert tx[0] + after1 == Quote(xs[0].key) + ([COLON] + x + after1);
      assert ty[0] + after2 == Quote(ys[0].key) + ([COLON] + y + after2);
      QuotedIsPrefixFree(xs[0].key, ys[0].key, [COLON] + x + after1, [COLON] + y + after2);
      assert [COLON] + x + after1 == [COLON] + (x + after1) && [COLON] + y + after2 == [COLON] + (y + after2);
      SamePrefix([COLON], x + after1, [COLON], y + after2);
      var i :| 0 <= i < |v.members| && v.members[i] == xs[0];
      var j :| 0 <= j < |w.members| && w.members[j] == ys[0];
      ValueIsPrefixFree(show, v.members[i].value, ys[0].value, after1, after2);
      AfterFirst(tx[1..], ty[1..], 125, r1, r2);
      assert AreMembersOf(xs[1..], v.members) && AreMembersOf(ys[1..], w.members);
      MembersArePrefixFree(show, v, w, xs[1..], ys[1..], r1, r2);
    } else {
      SamePrefix([125], r1, [125], r2);
    }
  }

  /** Two printed values followed by anything that ends a value agree only if the
      values are the same up to member order, and then what follows agrees. */
  lemma {:induction false} ValueIsPrefixFree(show: int -> Text, v: Json, w: Json, r1: Text, r2: Text)
    requires PrintsNumbers(show) && IsWellFormed(v) && IsWellFormed(w) && IsDelimited(r1) && IsDelimited(r2)
    requires StableStringify(show, v) + r1 == StableStringify(show, w) + r2
    ensures IsSame(v, w) && r1 == r2
    decreases v, 1, 0
  {
    hide StableStringify, IsSame, IsWellFormed, PrintsNumbers, IsNumberUnit, IsDelimited;
    SameKind(show, v, w, r1, r2);
    match v
    case Number(m) =>
      NumberPrints(show, m);
      NumberPrints(show, w.number);
      NumberIsPrefixFree(show, m, w.number, r1, r2);
      SameScalars(v, w);
    case String(s) =>
      StringPrints(show, s);
      StringPrints(show, w.text);
      QuotedIsPrefixFree(s, w.text, r1, r2);
      SameScalars(v, w);
    case Array(items) =>
      ArrayPrints(show, items, r1);
      ArrayPrints(show, w.items, r2);
      ItemsAreWellFormed(v);
      ItemsAreWellFormed(w);
      ItemsArePrefixFree(show, items, w.items, r1, r2);
      SameArrays(v, w);
    case Object(members) =>
      ObjectPrints(show, members, r1);
      ObjectPrints(show, w.members, r2);
      SortedAreMembers(members);
      SortedAreMembers(w.members);
      MembersArePrefixFree(show, v, w, SortMembers(members), SortMembers(w.members), r1, r2);
      SameObjects(v, w);
    case _ => FixedPrints(show, v, w, r1, r2);
  }

  lemma SameKind(show: int -> Text, v: Json, w: Json, r1: Text, r2: Text)
    requires PrintsNumbers(show) && StableStringify(show, v) + r1 == StableStringify(show, w) + r2
    ensures v.Null? == w.Null? && v.Bool? == w.Bool? && v.Number? == w.Number? && v.String? == w.String? &&
            v.Array? == w.Array? &&
            v.Object? == w.Object? && (v.Bool? ==> v.flag == w.flag)
  {
    hide StableStringify, PrintsNumbers;
    FirstUnit(show, v);
    FirstUnit(show, w);
    assert (StableStringify(show, v) + r1)[0] == StableStringify(show, v)[0];
    assert (StableStringify(show, w) + r2)[0] == StableStringify(show, w)[0];
  }

  lemma NumberPrints(show: int -> Text, n: int)
    ensures StableStringify(show, Number(n)) == show(n)
  {
  }

  lemma StringPrints(show: int -> Text, s: Text)
    ensures StableStringify(show, String(s)) == Quote(s)
  {
  }

  lemma ArrayPrints(show: int -> Text, items: seq<Json>, rest: Text)
    ensures (StableStringify(show, Array(items)) + rest)[1..] == Join(PrintItems(show, items)) + [93] + rest
  {
    hide Join, PrintItems;
  }

  lemma ObjectPrints(show: int -> Text, members: seq<Member>, rest: Text)
    ensures (StableStringify(show, Object(members)) + rest)[1..] ==
            Join(EntryTexts(PrintMembers(show, SortMembers(members)))) + [125] + rest
  {
    hide Join, EntryTexts, PrintMembers, SortEntries, SortMembers;
    PrintSorted(show, members);
  }

  lemma FixedPrints(show: int -> Text, v: Json, w: Json, r1: Text, r2: Text)
    requires v == w && (v.Null? || v.Bool?) && StableStringify(show, v) + r1 == StableStringify(show, w) + r2
    ensures IsSame(v, w) && r1 == r2
  {
    SamePrefix(StableStringify(show, v), r1, StableStringify(show, w), r2);
  }

  lemma SameScalars(v: Json, w: Json)
    requires v == w && !v.Array? && !v.Object?
    ensures IsSame(v, w)
  {
  }

  lemma ItemsAreWellFormed(v: Json)
    requires v.Array? && IsWellFormed(v)
    ensures AllWellFormed(v.items)
  {
  }

  lemma SameArrays(v: Json, w: Json)
    requires v.Array? && w.Array? && PairwiseSame(v.items, w.items)
    ensures IsSame(v, w)
  {
  }

  lemma SortedAreMembers(members: seq<Member>)
    ensures AreMembersOf(SortMembers(members), members)
    ensures AreMembersOf(members, SortMembers(members))
    ensures |SortMembers(members)| == |members|
  {
    SortIsPermutation(members);
    var sorted := SortMembers(members);
    forall i | 0 <= i < |sorted| ensures sorted[i] in members { assert sorted[i] in multiset(sorted); }
    forall i | 0 <= i < |members| ensures members[i] in sorted { assert members[i] in multiset(members); }
    assert |multiset(sorted)| == |sorted| && |multiset(members)| == |members|;
  }

  lemma SameObjects(v: Json, w: Json)
    requires v.Object? && w.Object? && SameMembers(SortMembers(v.members), SortMembers(w.members))
    ensures IsSame(v, w)
  {
    var xs, ys := SortMembers(v.members), SortMembers(w.members);
    SortedAreMembers(v.members);
    SortedAreMembers(w.members);
    forall i | 0 <= i < |v.members|
      ensures exists j :: 0 <= j < |w.members| && v.members[i].key == w.members[j].key &&
                IsSame(v.members[i].value, w.members[j].value)
    {
      var k :| 0 <= k < |xs| && xs[k] == v.members[i];
      assert ys[k] in w.members;
    }
  }

  // ---- the same value prints the same -----------------------------------------

  ghost predicate KeysAscend(xs: seq<Member>) {
    forall i, j :: 0 <= i < j < |xs| ==> IsLess(xs[i].key, xs[j].key)
  }

  ghost function KeySet(xs: seq<Member>): set<Text> {
    set i | 0 <= i < |xs| :: xs[i].key
  }

  ghost predicate KeysAreDistinct(xs: seq<Member>) {
    forall i, j :: 0 <= i < j < |xs| ==> xs[i].key != xs[j].key
  }

  lemma {:induction false} InsertKeepsAscending(m: Member, sorted: seq<Member>)
    requires KeysAscend(sorted) && m.key !in KeySet(sorted)
    ensures KeysAscend(InsertMember(m, sorted)) && KeySet(InsertMember(m, sorted)) == KeySet(sorted) + {m.key}
  {
    hide IsLess;
    var after := InsertMember(m, sorted);
    if sorted == [] {
      KeysOfPrepended(m, []);
      assert [m] + [] == after;
    } else if IsLess(m.key, sorted[0].key) {
      forall j | 0 <= j < |sorted| ensures IsLess(m.key, sorted[j].key) {
        LessIsStrictTotal(m.key, sorted[0].key, sorted[j].key);
      }
      KeysOfPrepended(m, sorted);
    } else {
      assert sorted[0].key in KeySet(sorted);
      LessIsStrictTotal(m.key, sorted[0].key, m.key);
      assert sorted == [sorted[0]] + sorted[1..];
      KeysOfPrepended(sorted[0], sorted[1..]);
      InsertKeepsAscending(m, sorted[1..]);
      KeysOfPrepended(sorted[0], InsertMember(m, sorted[1..]));
      forall j | 1 <= j < |after| ensures IsLess(sorted[0].key, after[j].key) {
        assert after[j].key in KeySet(InsertMember(m, sorted[1..]));
        FirstKeyIsLeast(sorted, after[j].key);
      }
    }
  }

  lemma FirstKeyIsLeast(sorted: seq<Member>, key: Text)
    requires KeysAscend(sorted) && sorted != []
    ensures key in KeySet(sorted[1..]) ==> IsLess(sorted[0].key, key)
  {
    hide IsLess;
  }

  lemma KeysOfPrepended(m: Member, rest: seq<Member>)
    ensures KeySet([m] + rest) == {m.key} + KeySet(rest)
  {
    var all := [m] + rest;
    assert all[0] == m;
    assert forall i :: 0 <= i < |rest| ==> all[i + 1] == rest[i];
    assert forall k :: k in KeySet(all) ==> k in {m.key} + KeySet(rest);
  }

  lemma {:induction false} SortAscends(members: seq<Member>)
    requires KeysAreDistinct(members)
    ensures KeysAscend(SortMembers(members)) && KeySet(SortMembers(members)) == KeySet(members)
  {
    if members != [] {
      SortAscends(members[1..]);
      assert members == [members[0]] + members[1..];
      KeysOfPrepended(members[0], members[1..]);
      InsertKeepsAscending(members[0], SortMembers(members[1..]));
    }
  }

  lemma {:induction false} SameKeysSameOrder(xs: seq<Member>, ys: seq<Member>)
    requires KeysAscend(xs) && KeysAscend(ys) && KeySet(xs) == KeySet(ys)
    ensures |xs| == |ys| && forall i :: 0 <= i < |xs| ==> xs[i].key == ys[i].key
  {
    hide IsLess;
    assert xs != [] ==> xs[0].key in KeySet(xs);
    assert ys != [] ==> ys[0].key in KeySet(ys);
    if xs != [] && ys != [] {
      assert xs[0].key in KeySet(ys) && ys[0].key in KeySet(xs);
      assert xs == [xs[0]] + xs[1..] && ys == [ys[0]] + ys[1..];
      KeysOfPrepended(xs[0], xs[1..]);
      KeysOfPrepended(ys[0], ys[1..]);
      FirstKeyIsLeast(xs, ys[0].key);
      FirstKeyIsLeast(ys, xs[0].key);
      LessIsStrictTotal(xs[0].key, ys[0].key, xs[0].key);
      FirstKeyIsLeast(xs, xs[0].key);
      FirstKeyIsLeast(ys, ys[0].key);
      assert KeySet(xs[1..]) == KeySet(xs) - {xs[0].key};
      assert KeySet(ys[1..]) == KeySet(ys) - {ys[0].key};
      SameKeysSameOrder(xs[1..], ys[1..]);
      forall i | 0 <= i < |xs| ensures xs[i].key == ys[i].key {
        if i > 0 { assert xs[i] == xs[1..][i - 1] && ys[i] == ys[1..][i - 1]; }
      }
    }
  }

  /** Sorted members of same objects pair up. */
  lemma SortedPairUp(v: Json, w: Json)
    requires v.Object? && w.Object? && IsWellFormed(v) && IsWellFormed(w) && IsSame(v, w)
    ensures SameMembers(SortMembers(v.members), SortMembers(w.members))
  {
    var xs, ys := SortMembers(v.members), SortMembers(w.members);
    SortAscends(v.members);
    SortAscends(w.members);
    SortedAreMembers(v.members);
    SortedAreMembers(w.members);
    SameKeySets(v, w);
    SameKeysSameOrder(xs, ys);
    forall i | 0 <= i < |xs| ensures IsSame(xs[i].value, ys[i].value) {
      var p :| 0 <= p < |v.members| && v.members[p] == xs[i];
      var q :| 0 <= q < |w.members| && v.members[p].key == w.members[q].key &&
               IsSame(v.members[p].value, w.members[q].value);
      var j :| 0 <= j < |w.members| && w.members[j] == ys[i];
      assert j == q;
    }
  }

  lemma SameKeySets(v: Json, w: Json)
    requires v.Object? && w.Object? && IsWellFormed(v) && IsWellFormed(w) && IsSame(v, w)
    ensures KeySet(v.members) == KeySet(w.members)
  {
    KeySetCount(v.members);
    KeySetCount(w.members);
    SubsetCount(KeySet(v.members), KeySet(w.members));
  }

  lemma {:induction false} KeySetCount(xs: seq<Member>)
    requires KeysAreDistinct(xs)
    ensures |KeySet(xs)| == |xs|
  {
    if xs != [] {
      assert xs == [xs[0]] + xs[1..];
      KeysOfPrepended(xs[0], xs[1..]);
      assert xs[0].key !in KeySet(xs[1..]);
      KeySetCount(xs[1..]);
    }
  }

  lemma {:induction false} SamePrintsSame(show: int -> Text, v: Json, w: Json)
    requires IsWellFormed(v) && IsWellFormed(w) && IsSame(v, w)
    ensures StableStringify(show, v) == StableStringify(show, w)
    decreases v, 1, 0
  {
    match v
    case Array(items) =>
      ItemsPrintSame(show, items, w.items);
    case Object(members) =>
      SortedPairUp(v, w);
      SortedAreMembers(members);
      SortedAreMembers(w.members);
      MembersPrintSame(show, v, w, SortMembers(members), SortMembers(w.members));
      PrintSorted(show, members);
      PrintSorted(show, w.members);
    case _ =>
  }

  lemma {:induction false} ItemsPrintSame(show: int -> Text, xs: seq<Json>, ys: seq<Json>)
    requires AllWellFormed(xs) && AllWellFormed(ys) && PairwiseSame(xs, ys)
    ensures PrintItems(show, xs) == PrintItems(show, ys)
    decreases xs
  {
    hide StableStringify, IsSame, IsWellFormed;
    if xs != [] {
      SamePrintsSame(show, xs[0], ys[0]);
      ItemsPrintSame(show, xs[1..], ys[1..]);
    }
  }

  lemma {:induction false} MembersPrintSame(show: int -> Text, v: Json, w: Json, xs: seq<Member>, ys: seq<Member>)
    requires v.Object? && w.Object? && IsWellFormed(v) && IsWellFormed(w)
    requires AreMembersOf(xs, v.members) && AreMembersOf(ys, w.members) && SameMembers(xs, ys)
    ensures PrintMembers(show, xs) == PrintMembers(show, ys)
    decreases v, 0, |xs|
  {
    hide StableStringify, IsSame;
    if xs != [] {
      var i :| 0 <= i < |v.members| && v.members[i] == xs[0];
      var j :| 0 <= j < |w.members| && w.members[j] == ys[0];
      SamePrintsSame(show, v.members[i].value, ys[0].value);
      MembersPrintSame(show, v, w, xs[1..], ys[1..]);
    }
  }

  /** stableStringify is canonical: two values print the same text exactly when
      they are equal up to the order of object members. */
  lemma CanonicalIff(show: int -> Text, v: Json, w: Json)
    requires PrintsNumbers(show) && IsWellFormed(v) && IsWellFormed(w)
    ensures StableStringify(show, v) == StableStringify(show, w) <==> IsSame(v, w)
  {
    hide StableStringify, IsSame, IsWellFormed, PrintsNumbers;
    if StableStringify(show, v) == StableStringify(show, w) {
      assert StableStringify(show, v) + [] == StableStringify(show, w) + [];
      ValueIsPrefixFree(show, v, w, [], []);
    }
    if IsSame(v, w) { SamePrintsSame(show, v, w); }
  }
}
