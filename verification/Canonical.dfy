/**
 Canonical bytes of the analysis projection (`analysis/canonical.py`): lists are
 sorted by the text of their items, members by key, and the result is written
 with the JSON encoder's separators and escapes.  The text is modelled; its UTF-8
 encoding is not.
 */
module Canonical {
  import opened Options
  import opened TextSorting

  /** A number is the text the encoder writes for it. */
  datatype Value =
    | Null
    | Bool(b: bool)
    | Number(text: string)
    | Text(s: string)
    | List(items: seq<Value>)
    | Dict(members: seq<Member>)

  datatype Member = Member(key: string, value: Value)

  datatype Pair = Pair(key: string, text: string)

  predicate IsNumberText(s: string) {
    && s != "" && (s[0] == '-' || '0' <= s[0] <= '9')
    && forall i :: 0 <= i < |s| ==> s[i] in {'-', '+', '.', 'e', 'E'} || '0' <= s[i] <= '9'
  }

  predicate DistinctKeys(ms: seq<Member>) {
    forall i, j :: 0 <= i < j < |ms| ==> ms[i].key != ms[j].key
  }

  predicate Legal(v: Value) {
    match v
    case Number(text) => IsNumberText(text)
    case List(items) => forall i :: 0 <= i < |items| ==> Legal(items[i])
    case Dict(ms) => DistinctKeys(ms) && forall i :: 0 <= i < |ms| ==> Legal(ms[i].value)
    case _ => true
  }

  // ----- writing -----

  function HexDigit(n: nat): char
    requires n < 16
  {
    "0123456789abcdef"[n]
  }

  function Escape(c: char): string {
    var code := c as int;
    if c == '"' then "\\\"" else if c == '\\' then "\\\\"
    else if code == 10 then "\\n" else if code == 13 then "\\r" else if code == 9 then "\\t"
    else if code == 8 then "\\b" else if code == 12 then "\\f"
    else if code < 32 then "\\u00" + [HexDigit(code / 16), HexDigit(code % 16)]
    else [c]
  }

  function Escaped(s: string): string {
    if s == "" then "" else Escape(s[0]) + Escaped(s[1..])
  }

  function Quote(s: string): string {
    "\"" + (Escaped(s) + "\"")
  }

  /** The texts with commas between them, before `close`. */
  function Join(texts: seq<string>, close: string): string {
    if texts == [] then close
    else if |texts| == 1 then texts[0] + close
    else texts[0] + ("," + Join(texts[1..], close))
  }

  function PairKey(): Pair -> string {
    (p: Pair) => p.key
  }

  function TextKey(): string -> string {
    (t: string) => t
  }

  function RenderPairs(pairs: seq<Pair>): (r: seq<string>)
    ensures |r| == |pairs| && forall i :: 0 <= i < |r| ==> r[i] == Quote(pairs[i].key) + (":" + pairs[i].text)
  {
    seq(|pairs|, i requires 0 <= i < |pairs| => Quote(pairs[i].key) + (":" + pairs[i].text))
  }

  function WriteList(texts: seq<string>): string {
    "[" + Join(texts, "]")
  }

  /** Members are written in key order. */
  function WriteDict(pairs: seq<Pair>): string {
    "{" + Join(RenderPairs(SortByText(pairs, PairKey())), "}")
  }

  function Dumps(v: Value): string {
    match v
    case Null => "null"
    case Bool(b) => if b then "true" else "false"
    case Number(text) => text
    case Text(s) => Quote(s)
    case List(items) => WriteList(Texts(items))
    case Dict(ms) => WriteDict(Pairs(ms))
  }

  function Texts(items: seq<Value>): (r: seq<string>)
    ensures |r| == |items|
  {
    if items == [] then [] else [Dumps(items[0])] + Texts(items[1..])
  }

  function Pairs(ms: seq<Member>): (r: seq<Pair>)
    ensures |r| == |ms|
  {
    if ms == [] then [] else [Pair(ms[0].key, Dumps(ms[0].value))] + Pairs(ms[1..])
  }

  function DumpsKey(): Value -> string {
    (v: Value) => Dumps(v)
  }

  // ----- normalizing -----

  function Normalize(v: Value): Value {
    match v
    case List(items) => List(SortByText(NormalizeAll(items), DumpsKey()))
    case Dict(ms) => Dict(NormalizeMembers(ms))
    case _ => v
  }

  function NormalizeAll(items: seq<Value>): (r: seq<Value>)
    ensures |r| == |items|
  {
    if items == [] then [] else [Normalize(items[0])] + NormalizeAll(items[1..])
  }

  function NormalizeMembers(ms: seq<Member>): (r: seq<Member>)
    ensures |r| == |ms|
  {
    if ms == [] then [] else [Member(ms[0].key, Normalize(ms[0].value))] + NormalizeMembers(ms[1..])
  }

  function CanonicalText(v: Value): string {
    Dumps(Normalize(v))
  }

  // ----- the canonical text by itself -----

  function CanonicalTexts(items: seq<Value>): (r: seq<string>)
    ensures |r| == |items| && forall i :: 0 <= i < |r| ==> r[i] == CanonicalText(items[i])
  {
    seq(|items|, i requires 0 <= i < |items| => CanonicalText(items[i]))
  }

  function CanonicalPairs(ms: seq<Member>): (r: seq<Pair>)
    ensures |r| == |ms| && forall i :: 0 <= i < |r| ==> r[i] == Pair(ms[i].key, CanonicalText(ms[i].value))
  {
    seq(|ms|, i requires 0 <= i < |ms| => Pair(ms[i].key, CanonicalText(ms[i].value)))
  }

  lemma {:induction false} TextsAppend(a: seq<Value>, v: Value)
    ensures Texts(a + [v]) == Texts(a) + [Dumps(v)]
  {
    if a == [] {
      assert a + [v] == [v];
    } else {
      assert (a + [v])[1..] == a[1..] + [v];
      TextsAppend(a[1..], v);
    }
  }

  lemma {:induction false} TextsOfInsert(v: Value, s: seq<Value>)
    ensures Texts(Insert(v, s, DumpsKey())) == Insert(Dumps(v), Texts(s), TextKey())
  {
    if s == [] || Less(Dumps(v), Dumps(s[0])) {
      assert ([v] + s)[1..] == s;
    } else {
      TextsOfInsert(v, s[1..]);
      assert Texts(s)[1..] == Texts(s[1..]);
      assert ([s[0]] + Insert(v, s[1..], DumpsKey()))[1..] == Insert(v, s[1..], DumpsKey());
    }
  }

  /** Sorting values by their text and writing them is writing them and sorting the texts. */
  lemma {:induction false} TextsOfSort(s: seq<Value>)
    ensures Texts(SortByText(s, DumpsKey())) == SortByText(Texts(s), TextKey())
  {
    if s != [] {
      var last := |s| - 1;
      TextsOfSort(s[..last]);
      TextsAppend(s[..last], s[last]);
      assert s[..last] + [s[last]] == s;
      assert Texts(s)[..last] == Texts(s[..last]);
      TextsOfInsert(s[last], SortByText(s[..last], DumpsKey()));
    }
  }

  lemma {:induction false} NormalizedTexts(items: seq<Value>)
    ensures Texts(NormalizeAll(items)) == CanonicalTexts(items)
  {
    if items != [] {
      NormalizedTexts(items[1..]);
      assert CanonicalTexts(items) == [CanonicalText(items[0])] + CanonicalTexts(items[1..]);
      assert NormalizeAll(items)[1..] == NormalizeAll(items[1..]);
    }
  }

  lemma {:induction false} NormalizedPairs(ms: seq<Member>)
    ensures Pairs(NormalizeMembers(ms)) == CanonicalPairs(ms)
  {
    if ms != [] {
      NormalizedPairs(ms[1..]);
      assert CanonicalPairs(ms) == [Pair(ms[0].key, CanonicalText(ms[0].value))] + CanonicalPairs(ms[1..]);
      assert NormalizeMembers(ms)[1..] == NormalizeMembers(ms[1..]);
    }
  }

  lemma CanonicalList(items: seq<Value>)
    ensures CanonicalText(List(items)) == WriteList(SortByText(CanonicalTexts(items), TextKey()))
  {
    TextsOfSort(NormalizeAll(items));
    NormalizedTexts(items);
  }

  lemma CanonicalDict(ms: seq<Member>)
    ensures CanonicalText(Dict(ms)) == WriteDict(CanonicalPairs(ms))
  {
    NormalizedPairs(ms);
  }

  // ----- reading: a text that ends at a delimiter determines its value's text -----

  predicate Ended(rest: string) {
    rest == "" || IsDelimiter(rest[0])
  }

  lemma EscapeStart(c: char)
    ensures Escape(c) != "" && Escape(c)[0] != '"'
  {
  }

  /** No escape is a prefix of another one. */
  lemma EscapePrefixFree(a: char, b: char, x: string, y: string)
    requires Escape(a) + x == Escape(b) + y
    ensures a == b && x == y
  {
    var s, t := Escape(a) + x, Escape(b) + y;
    assert s[0] == Escape(a)[0] && t[0] == Escape(b)[0];
    if Escape(a)[0] == '\\' && Escape(b)[0] == '\\' {
      assert s[1] == Escape(a)[1] && t[1] == Escape(b)[1];
      if Escape(a)[1] == 'u' {
        assert s[4] == Escape(a)[4] && t[4] == Escape(b)[4] && s[5] == Escape(a)[5] && t[5] == Escape(b)[5];
        HexDigitInjective((a as int) / 16, (b as int) / 16);
        HexDigitInjective((a as int) % 16, (b as int) % 16);
      }
    }
    assert a == b;
    assert s[|Escape(a)|..] == x && t[|Escape(b)|..] == y;
  }

  lemma HexDigitInjective(m: nat, n: nat)
    requires m < 16 && n < 16 && HexDigit(m) == HexDigit(n)
    ensures m == n
  {
  }

  /** The closing quote is recognized: a text inside quotes starts with one only when it is empty. */
  lemma EscapedStart(s: string, x: string)
    ensures (Escaped(s) + ("\"" + x))[0] == '"' <==> s == ""
    ensures s != "" ==> Escaped(s) + ("\"" + x) == Escape(s[0]) + (Escaped(s[1..]) + ("\"" + x))
    ensures s == "" ==> (Escaped(s) + ("\"" + x))[1..] == x
  {
    if s == "" {
      assert Escaped(s) + ("\"" + x) == "\"" + x;
    } else {
      EscapeStart(s[0]);
      Associate(Escape(s[0]), Escaped(s[1..]), "\"" + x);
    }
  }

  lemma Associate(a: string, b: string, c: string)
    ensures (a + b) + c == a + (b + c)
    ensures a != "" ==> ((a + b) + c)[0] == a[0]
  {
  }

  lemma {:induction false} EscapedDecodes(s: string, t: string, x: string, y: string)
    requires Escaped(s) + ("\"" + x) == Escaped(t) + ("\"" + y)
    ensures s == t && x == y
    decreases |s|
  {
    EscapedStart(s, x);
    EscapedStart(t, y);
    if s != "" {
      EscapePrefixFree(s[0], t[0], Escaped(s[1..]) + ("\"" + x), Escaped(t[1..]) + ("\"" + y));
      EscapedDecodes(s[1..], t[1..], x, y);
      assert s == [s[0]] + s[1..] && t == [t[0]] + t[1..];
    }
  }

  lemma QuoteDecodes(s: string, t: string, x: string, y: string)
    requires Quote(s) + x == Quote(t) + y
    ensures s == t && x == y
  {
    assert Quote(s) + x == "\"" + (Escaped(s) + ("\"" + x));
    assert Quote(t) + y == "\"" + (Escaped(t) + ("\"" + y));
    assert (Quote(s) + x)[1..] == Escaped(s) + ("\"" + x);
    assert (Quote(t) + y)[1..] == Escaped(t) + ("\"" + y);
    EscapedDecodes(s, t, x, y);
  }

  /** The number of four hexadecimal digits. */
  function HexValue(digits: string): (n: int)
    ensures -1 <= n
  {
    if digits == "" then 0
    else
      var high := HexValue(digits[..|digits| - 1]);
      var c := digits[|digits| - 1];
      var low := if '0' <= c <= '9' then c as int - 48
                 else if 'a' <= c <= 'f' then c as int - 87
                 else if 'A' <= c <= 'F' then c as int - 55
                 else -1;
      if high < 0 || low < 0 then -1 else 16 * high + low
  }

  /** The character of an escape, and its length; surrogate pairs are not read. */
  function ReadEscape(s: string): (r: Option<(char, nat)>)
    ensures r.Some? ==> 2 <= r.value.1 <= |s|
  {
    if |s| < 2 then None
    else if s[1] in {'"', '\\', '/'} then Some((s[1], 2))
    else if s[1] == 'b' then Some(('\U{8}', 2))
    else if s[1] == 'f' then Some(('\U{c}', 2))
    else if s[1] == 'n' then Some(('\n', 2))
    else if s[1] == 'r' then Some(('\r', 2))
    else if s[1] == 't' then Some(('\t', 2))
    else if s[1] == 'u' && |s| >= 6 then
      var n := HexValue(s[2..6]);
      if 0 <= n < 0xD800 || 0xE000 <= n < 0x1_0000 then Some((n as char, 6)) else None
    else None
  }

  /** Reading a JSON string from behind its opening quote to its closing one (section 7 of RFC 8259). */
  function ReadText(s: string): Option<(string, string)> {
    if s == "" then None
    else if s[0] == '"' then Some(("", s[1..]))
    else if s[0] < ' ' then None
    else
      var first := if s[0] == '\\' then ReadEscape(s) else Some((s[0], 1));
      if first.None? then None
      else
        var rest := ReadText(s[first.value.1..]);
        if rest.None? then None else Some(([first.value.0] + rest.value.0, rest.value.1))
  }

  lemma EscapeReads(c: char, x: string)
    ensures ReadText(Escape(c) + x)
            == match ReadText(x)
               case None => None
               case Some(rest) => Some(([c] + rest.0, rest.1))
  {
    var s := Escape(c) + x;
    assert s[|Escape(c)|..] == x;
    if Escape(c)[0] == '\\' {
      assert s[0] == '\\' && s[1] == Escape(c)[1];
      if Escape(c)[1] == 'u' { ControlReads(c, x); }
      assert ReadEscape(s) == Some((c, |Escape(c)|));
    }
  }

  lemma ControlReads(c: char, x: string)
    requires |Escape(c)| == 6
    ensures HexValue((Escape(c) + x)[2..6]) == c as int
  {
    var code := c as int;
    var s := Escape(c) + x;
    var digits := s[2..6];
    assert digits == "00" + [HexDigit(code / 16), HexDigit(code % 16)];
    assert digits[..3] == "00" + [HexDigit(code / 16)] && digits[..3][..2] == "00" && "00"[..1] == "0";
    HexDigitReads(code / 16);
    HexDigitReads(code % 16);
    assert HexValue("0"[..0]) == 0 && HexValue("0") == 0 && HexValue("00") == 0;
    assert HexValue(digits[..3]) == code / 16;
  }

  lemma HexDigitReads(n: nat)
    requires n < 16
    ensures var c := HexDigit(n);
            if n < 10 then '0' <= c <= '9' && c as int - 48 == n else 'a' <= c <= 'f' && c as int - 87 == n
  {
  }

  /** What is written in quotes is read back, whatever follows it. */
  lemma {:induction false} QuoteReads(s: string, x: string)
    ensures ReadText(Escaped(s) + ("\"" + x)) == Some((s, x))
  {
    EscapedStart(s, x);
    if s != "" {
      EscapeReads(s[0], Escaped(s[1..]) + ("\"" + x));
      QuoteReads(s[1..], x);
      assert s == [s[0]] + s[1..];
    }
  }

  predicate IsDelimiter(c: char) {
    c == ',' || c == ']' || c == '}'
  }

  predicate IsPlain(s: string) {
    forall i :: 0 <= i < |s| ==> !IsDelimiter(s[i])
  }

  /** The length of the text before the first delimiter. */
  function PlainLength(s: string): nat {
    if s == "" || IsDelimiter(s[0]) then 0 else 1 + PlainLength(s[1..])
  }

  lemma {:induction false} PlainPrefix(a: string, x: string)
    requires IsPlain(a) && Ended(x)
    ensures PlainLength(a + x) == |a|
  {
    if a == "" {
      assert a + x == x;
    } else {
      assert !IsDelimiter(a[0]);
      assert (a + x)[1..] == a[1..] + x;
      PlainPrefix(a[1..], x);
    }
  }

  /** Texts without delimiters, read up to a delimiter. */
  lemma PlainDecodes(a: string, b: string, x: string, y: string)
    requires a + x == b + y && Ended(x) && Ended(y) && IsPlain(a) && IsPlain(b)
    ensures a == b && x == y
  {
    PlainPrefix(a, x);
    PlainPrefix(b, y);
    assert (a + x)[..|a|] == a && (b + y)[..|b|] == b;
    assert (a + x)[|a|..] == x && (b + y)[|b|..] == y;
  }

  datatype Shape = ScalarShape | TextShape | ListShape | DictShape | NoShape

  function ShapeOf(v: Value): Shape {
    match v
    case Text(_) => TextShape
    case List(_) => ListShape
    case Dict(_) => DictShape
    case _ => ScalarShape
  }

  /** The first character tells the shape. */
  function StartShape(c: char): Shape {
    if c == '"' then TextShape else if c == '[' then ListShape else if c == '{' then DictShape
    else if IsDelimiter(c) then NoShape else ScalarShape
  }

  lemma StartsAsShape(v: Value)
    requires Legal(v)
    ensures CanonicalText(v) != "" && StartShape(CanonicalText(v)[0]) == ShapeOf(v)
    ensures ShapeOf(v) == ScalarShape ==> IsPlain(CanonicalText(v))
  {
    match v
    case List(items) => CanonicalList(items);
    case Dict(ms) => CanonicalDict(ms);
    case _ =>
  }

  lemma SameStart(a: string, b: string, x: string, y: string)
    requires a != "" && b != "" && a + x == b + y
    ensures a[0] == b[0]
  {
    assert (a + x)[0] == a[0] && (b + y)[0] == b[0];
  }

  /** What follows the first text of a joined list. */
  function After(texts: seq<string>, close: string): string
    requires texts != []
  {
    if |texts| == 1 then close else "," + Join(texts[1..], close)
  }

  lemma JoinSplits(texts: seq<string>, close: string, x: string)
    requires texts != [] && (close == "]" || close == "}")
    ensures Join(texts, close) + x == texts[0] + (After(texts, close) + x)
    ensures Ended(After(texts, close) + x)
    ensures (After(texts, close) + x)[0] == ',' <==> |texts| > 1
    ensures |texts| > 1 ==> (After(texts, close) + x)[1..] == Join(texts[1..], close) + x
    ensures |texts| == 1 ==> (After(texts, close) + x)[1..] == x
  {
    Associate(texts[0], After(texts, close), x);
    if |texts| > 1 {
      Associate(",", Join(texts[1..], close), x);
    }
  }

  ghost predicate IsTextOf(t: string, items: seq<Value>) {
    exists j :: 0 <= j < |items| && CanonicalText(items[j]) == t
  }

  ghost predicate AllTextsOf(texts: seq<string>, items: seq<Value>) {
    forall i :: 0 <= i < |texts| ==> IsTextOf(texts[i], items)
  }

  /** The text of a member: its quoted key and its value. */
  function MemberText(m: Member): string {
    Quote(m.key) + (":" + CanonicalText(m.value))
  }

  ghost predicate IsMemberOf(t: string, ms: seq<Member>) {
    exists j :: 0 <= j < |ms| && MemberText(ms[j]) == t
  }

  ghost predicate AllMembersOf(texts: seq<string>, ms: seq<Member>) {
    forall i :: 0 <= i < |texts| ==> IsMemberOf(texts[i], ms)
  }

  lemma SortedAreTexts(items: seq<Value>)
    ensures AllTextsOf(SortByText(CanonicalTexts(items), TextKey()), items)
  {
    var texts := CanonicalTexts(items);
    var sorted := SortByText(texts, TextKey());
    SortByTextSorts(texts, TextKey());
    forall i | 0 <= i < |sorted|
      ensures IsTextOf(sorted[i], items)
    {
      assert sorted[i] in multiset(sorted);
      assert sorted[i] in texts;
      var j :| 0 <= j < |texts| && texts[j] == sorted[i];
      assert CanonicalText(items[j]) == sorted[i];
    }
  }

  lemma SortedAreMembers(ms: seq<Member>)
    ensures AllMembersOf(RenderPairs(SortByText(CanonicalPairs(ms), PairKey())), ms)
  {
    var pairs := CanonicalPairs(ms);
    var sorted := SortByText(pairs, PairKey());
    var texts := RenderPairs(sorted);
    SortByTextSorts(pairs, PairKey());
    forall i | 0 <= i < |texts|
      ensures IsMemberOf(texts[i], ms)
    {
      assert sorted[i] in multiset(sorted);
      assert sorted[i] in pairs;
      var j :| 0 <= j < |pairs| && pairs[j] == sorted[i];
      assert MemberText(ms[j]) == texts[i];
    }
  }

  /** Two canonical texts that continue with delimiters and agree are the same text. */
  lemma {:induction false} Decodes(a: Value, b: Value, x: string, y: string)
    requires Legal(a) && Legal(b) && Ended(x) && Ended(y)
    requires CanonicalText(a) + x == CanonicalText(b) + y
    ensures CanonicalText(a) == CanonicalText(b) && x == y && ShapeOf(a) == ShapeOf(b)
    decreases a, 0
  {
    StartsAsShape(a);
    StartsAsShape(b);
    SameStart(CanonicalText(a), CanonicalText(b), x, y);
    match a
    case Text(s) => QuoteDecodes(s, b.s, x, y);
    case List(items) => ListDecodes(items, b.items, x, y);
    case Dict(ms) => DictDecodes(ms, b.members, x, y);
    case _ => PlainDecodes(CanonicalText(a), CanonicalText(b), x, y);
  }

  lemma {:induction false} ListDecodes(a: seq<Value>, b: seq<Value>, x: string, y: string)
    requires Legal(List(a)) && Legal(List(b))
    requires CanonicalText(List(a)) + x == CanonicalText(List(b)) + y
    ensures SortByText(CanonicalTexts(a), TextKey()) == SortByText(CanonicalTexts(b), TextKey()) && x == y
    ensures CanonicalText(List(a)) == CanonicalText(List(b))
    decreases a, 1
  {
    var s, t := SortByText(CanonicalTexts(a), TextKey()), SortByText(CanonicalTexts(b), TextKey());
    CanonicalList(a);
    CanonicalList(b);
    SortedAreTexts(a);
    SortedAreTexts(b);
    Opened("[", Join(s, "]"), Join(t, "]"), x, y);
    ItemsDecode(a, b, s, t, x, y);
  }

  lemma Opened(open: string, a: string, b: string, x: string, y: string)
    requires |open| == 1 && (open + a) + x == (open + b) + y
    ensures a + x == b + y
  {
    assert ((open + a) + x)[1..] == a + x && ((open + b) + y)[1..] == b + y;
  }

  lemma {:induction false} ItemsDecode(
    a: seq<Value>, b: seq<Value>, s: seq<string>, t: seq<string>, x: string, y: string)
    requires Legal(List(a)) && Legal(List(b)) && AllTextsOf(s, a) && AllTextsOf(t, b)
    requires Join(s, "]") + x == Join(t, "]") + y
    ensures s == t && x == y
    decreases a, 0, |s|
  {
    ItemsStart(a, s, x);
    ItemsStart(b, t, y);
    if s == [] {
      assert ("]" + x)[1..] == x && ("]" + y)[1..] == y;
    } else {
      assert IsTextOf(s[0], a) && IsTextOf(t[0], b);
      var i :| 0 <= i < |a| && CanonicalText(a[i]) == s[0];
      var j :| 0 <= j < |b| && CanonicalText(b[j]) == t[0];
      JoinSplits(s, "]", x);
      JoinSplits(t, "]", y);
      hide Join, After, CanonicalText, IsTextOf, Ended;
      Decodes(a[i], b[j], After(s, "]") + x, After(t, "]") + y);
      if |s| > 1 {
        ItemsDecode(a, b, s[1..], t[1..], x, y);
      }
      assert s == [s[0]] + s[1..] && t == [t[0]] + t[1..];
    }
  }

  /** A closing bracket comes first exactly when there are no items. */
  lemma ItemsStart(items: seq<Value>, texts: seq<string>, x: string)
    requires Legal(List(items)) && AllTextsOf(texts, items)
    ensures (Join(texts, "]") + x)[0] == ']' <==> texts == []
  {
    if texts != [] {
      assert IsTextOf(texts[0], items);
      var i :| 0 <= i < |items| && CanonicalText(items[i]) == texts[0];
      StartsAsShape(items[i]);
      JoinSplits(texts, "]", x);
    }
  }

  lemma {:induction false} DictDecodes(a: seq<Member>, b: seq<Member>, x: string, y: string)
    requires Legal(Dict(a)) && Legal(Dict(b))
    requires CanonicalText(Dict(a)) + x == CanonicalText(Dict(b)) + y
    ensures RenderPairs(SortByText(CanonicalPairs(a), PairKey()))
        == RenderPairs(SortByText(CanonicalPairs(b), PairKey()))
    ensures CanonicalText(Dict(a)) == CanonicalText(Dict(b)) && x == y
    decreases a, 1
  {
    var s := RenderPairs(SortByText(CanonicalPairs(a), PairKey()));
    var t := RenderPairs(SortByText(CanonicalPairs(b), PairKey()));
    CanonicalDict(a);
    CanonicalDict(b);
    SortedAreMembers(a);
    SortedAreMembers(b);
    Opened("{", Join(s, "}"), Join(t, "}"), x, y);
    MembersDecode(a, b, s, t, x, y);
  }

  lemma {:induction false} MembersDecode(
    a: seq<Member>, b: seq<Member>, s: seq<string>, t: seq<string>, x: string, y: string)
    requires Legal(Dict(a)) && Legal(Dict(b)) && AllMembersOf(s, a) && AllMembersOf(t, b)
    requires Join(s, "}") + x == Join(t, "}") + y
    ensures s == t && x == y
    decreases a, 0, |s|
  {
    MembersStart(a, s, x);
    MembersStart(b, t, y);
    if s == [] {
      assert ("}" + x)[1..] == x && ("}" + y)[1..] == y;
    } else {
      JoinSplits(s, "}", x);
      JoinSplits(t, "}", y);
      hide Join, After, MemberText, IsMemberOf, Ended, Legal;
      FirstMembersDecode(a, b, s[0], t[0], After(s, "}") + x, After(t, "}") + y);
      if |s| > 1 {
        assert AllMembersOf(s[1..], a) && AllMembersOf(t[1..], b);
        MembersDecode(a, b, s[1..], t[1..], x, y);
      }
      assert s == [s[0]] + s[1..] && t == [t[0]] + t[1..];
    }
  }

  lemma {:induction false} FirstMembersDecode(
    a: seq<Member>, b: seq<Member>, s: string, t: string, u: string, v: string)
    requires Legal(Dict(a)) && Legal(Dict(b)) && IsMemberOf(s, a) && IsMemberOf(t, b)
    requires s + u == t + v && Ended(u) && Ended(v)
    ensures s == t && u == v
    decreases a, 0, 0
  {
    var i :| 0 <= i < |a| && MemberText(a[i]) == s;
    var j :| 0 <= j < |b| && MemberText(b[j]) == t;
    assert Legal(a[i].value) && Legal(b[j].value);
    hide MemberText, Legal, Ended;
    MemberDecodes(a[i], b[j], u, v);
  }

  lemma {:induction false} MemberDecodes(m: Member, n: Member, u: string, v: string)
    requires Legal(m.value) && Legal(n.value) && Ended(u) && Ended(v)
    requires MemberText(m) + u == MemberText(n) + v
    ensures MemberText(m) == MemberText(n) && u == v
    decreases m, 0, 0
  {
    MemberSplits(m, u);
    MemberSplits(n, v);
    hide CanonicalText, Ended, Quote;
    QuoteDecodes(m.key, n.key, ":" + (CanonicalText(m.value) + u), ":" + (CanonicalText(n.value) + v));
    Opened(":", CanonicalText(m.value), CanonicalText(n.value), u, v);
    Decodes(m.value, n.value, u, v);
  }

  lemma MemberSplits(m: Member, u: string)
    ensures MemberText(m) + u == Quote(m.key) + (":" + (CanonicalText(m.value) + u))
    ensures (":" + CanonicalText(m.value)) + u == ":" + (CanonicalText(m.value) + u)
    ensures MemberText(m) != "" && MemberText(m)[0] == '"'
  {
    Associate(Quote(m.key), ":" + CanonicalText(m.value), u);
    Associate(":", CanonicalText(m.value), u);
  }

  lemma MembersStart(ms: seq<Member>, texts: seq<string>, x: string)
    requires AllMembersOf(texts, ms)
    ensures (Join(texts, "}") + x)[0] == '}' <==> texts == []
  {
    if texts != [] {
      assert IsMemberOf(texts[0], ms);
      var i :| 0 <= i < |ms| && MemberText(ms[i]) == texts[0];
      MemberSplits(ms[i], x);
      JoinSplits(texts, "}", x);
    }
  }

  // ----- equal up to order -----

  function Drop<T>(s: seq<T>, j: nat): seq<T>
    requires j < |s|
  {
    s[..j] + s[j + 1..]
  }

  /** Equal up to the order of list items and of members, at any depth. */
  ghost predicate Same(a: Value, b: Value) {
    match a
    case List(items) => b.List? && SameItems(items, b.items)
    case Dict(ms) => b.Dict? && SameMembers(ms, b.members)
    case _ => a == b
  }

  ghost predicate SameItems(xs: seq<Value>, ys: seq<Value>) {
    if xs == [] then ys == []
    else exists j: nat :: j < |ys| && Same(xs[0], ys[j]) && SameItems(xs[1..], Drop(ys, j))
  }

  ghost predicate SameMembers(ms: seq<Member>, ns: seq<Member>) {
    if ms == [] then ns == []
    else
      exists j: nat :: j < |ns| && ms[0].key == ns[j].key && Same(ms[0].value, ns[j].value)
                       && SameMembers(ms[1..], Drop(ns, j))
  }

  lemma DropElements<T>(s: seq<T>, j: nat)
    requires j < |s|
    ensures multiset(s) == multiset(Drop(s, j)) + multiset{s[j]}
  {
    assert s == s[..j] + [s[j]] + s[j + 1..];
  }

  /** Taking one common element out of both leaves the rest with the same elements, and conversely. */
  lemma MatchedElements<T>(s: seq<T>, t: seq<T>, j: nat)
    requires s != [] && j < |t| && s[0] == t[j]
    ensures multiset(s) == multiset(t) <==> multiset(s[1..]) == multiset(Drop(t, j))
  {
    assert s == [s[0]] + s[1..];
    DropElements(t, j);
    assert multiset(s) == multiset(s[1..]) + multiset{s[0]};
    assert multiset(s) - multiset{s[0]} == multiset(s[1..]);
    assert multiset(t) - multiset{t[j]} == multiset(Drop(t, j));
  }

  lemma FirstIsFound<T>(s: seq<T>, t: seq<T>) returns (j: nat)
    requires s != [] && multiset(s) == multiset(t)
    ensures j < |t| && t[j] == s[0]
  {
    assert s[0] in multiset(t);
    j :| j < |t| && t[j] == s[0];
  }

  lemma ItemSlices(xs: seq<Value>, ys: seq<Value>, j: nat)
    requires Legal(List(xs)) && Legal(List(ys)) && xs != [] && j < |ys|
    ensures Legal(List(xs[1..])) && Legal(List(Drop(ys, j))) && Legal(xs[0]) && Legal(ys[j])
    ensures CanonicalTexts(xs)[1..] == CanonicalTexts(xs[1..])
    ensures Drop(CanonicalTexts(ys), j) == CanonicalTexts(Drop(ys, j))
  {
  }

  lemma MemberSlices(ms: seq<Member>, ns: seq<Member>, j: nat)
    requires Legal(Dict(ms)) && Legal(Dict(ns)) && ms != [] && j < |ns|
    ensures Legal(Dict(ms[1..])) && Legal(Dict(Drop(ns, j))) && Legal(ms[0].value) && Legal(ns[j].value)
    ensures CanonicalPairs(ms)[1..] == CanonicalPairs(ms[1..])
    ensures Drop(CanonicalPairs(ns), j) == CanonicalPairs(Drop(ns, j))
  {
  }

  /** Same values have the same canonical text. */
  lemma {:induction false} SameHaveOneText(a: Value, b: Value)
    requires Legal(a) && Legal(b) && Same(a, b)
    ensures CanonicalText(a) == CanonicalText(b)
    decreases a, 0
  {
    match a
    case List(items) =>
      SameItemTexts(items, b.items);
      CanonicalList(items);
      CanonicalList(b.items);
      SortedOnce(CanonicalTexts(items), CanonicalTexts(b.items), TextKey());
    case Dict(ms) =>
      SameMemberPairs(ms, b.members);
      CanonicalDict(ms);
      CanonicalDict(b.members);
      assert KeyDetermines(CanonicalPairs(ms), PairKey());
      SortedOnce(CanonicalPairs(ms), CanonicalPairs(b.members), PairKey());
    case _ =>
  }

  lemma {:induction false} SameItemTexts(xs: seq<Value>, ys: seq<Value>)
    requires Legal(List(xs)) && Legal(List(ys)) && SameItems(xs, ys)
    ensures multiset(CanonicalTexts(xs)) == multiset(CanonicalTexts(ys))
    decreases xs
  {
    if xs != [] {
      var j: nat :| j < |ys| && Same(xs[0], ys[j]) && SameItems(xs[1..], Drop(ys, j));
      ItemSlices(xs, ys, j);
      SameHaveOneText(xs[0], ys[j]);
      SameItemTexts(xs[1..], Drop(ys, j));
      MatchedElements(CanonicalTexts(xs), CanonicalTexts(ys), j);
    }
  }

  lemma {:induction false} SameMemberPairs(ms: seq<Member>, ns: seq<Member>)
    requires Legal(Dict(ms)) && Legal(Dict(ns)) && SameMembers(ms, ns)
    ensures multiset(CanonicalPairs(ms)) == multiset(CanonicalPairs(ns))
    decreases ms
  {
    if ms != [] {
      var j: nat :| j < |ns| && ms[0].key == ns[j].key && Same(ms[0].value, ns[j].value)
                    && SameMembers(ms[1..], Drop(ns, j));
      MemberSlices(ms, ns, j);
      SameHaveOneText(ms[0].value, ns[j].value);
      SameMemberPairs(ms[1..], Drop(ns, j));
      MatchedElements(CanonicalPairs(ms), CanonicalPairs(ns), j);
    }
  }

  /** Values with the same canonical text are the same. */
  lemma {:induction false} OneTextMeansSame(a: Value, b: Value)
    requires Legal(a) && Legal(b) && CanonicalText(a) == CanonicalText(b)
    ensures Same(a, b)
    decreases a, 1
  {
    assert CanonicalText(a) + "" == CanonicalText(a) && CanonicalText(b) + "" == CanonicalText(b);
    Decodes(a, b, "", "");
    match a
    case Text(s) =>
      assert Quote(s) + "" == Quote(s) && Quote(b.s) + "" == Quote(b.s);
      QuoteDecodes(s, b.s, "", "");
    case List(items) =>
      ListDecodes(items, b.items, "", "");
      SameSortedElements(CanonicalTexts(items), CanonicalTexts(b.items), TextKey());
      MatchItems(items, b.items);
    case Dict(ms) =>
      DictDecodes(ms, b.members, "", "");
      var s, t := SortByText(CanonicalPairs(ms), PairKey()), SortByText(CanonicalPairs(b.members), PairKey());
      RenderedOnce(s, t);
      SameSortedElements(CanonicalPairs(ms), CanonicalPairs(b.members), PairKey());
      MatchMembers(ms, b.members);
    case _ => ScalarTexts(a, b);
  }

  lemma ScalarTexts(a: Value, b: Value)
    requires Legal(a) && Legal(b) && ShapeOf(a) == ScalarShape == ShapeOf(b) && CanonicalText(a) == CanonicalText(b)
    ensures a == b
  {
  }

  lemma SameSortedElements<T>(a: seq<T>, b: seq<T>, key: T -> string)
    requires SortByText(a, key) == SortByText(b, key)
    ensures multiset(a) == multiset(b)
  {
    SortByTextSorts(a, key);
    SortByTextSorts(b, key);
  }

  lemma {:induction false} RenderedOnce(s: seq<Pair>, t: seq<Pair>)
    requires RenderPairs(s) == RenderPairs(t)
    ensures s == t
  {
    assert |s| == |RenderPairs(s)| == |t|;
    forall i | 0 <= i < |s|
      ensures s[i] == t[i]
    {
      assert RenderPairs(s)[i] == RenderPairs(t)[i];
      QuoteDecodes(s[i].key, t[i].key, ":" + s[i].text, ":" + t[i].text);
      assert (":" + s[i].text)[1..] == s[i].text && (":" + t[i].text)[1..] == t[i].text;
    }
  }

  lemma {:induction false} MatchItems(xs: seq<Value>, ys: seq<Value>)
    requires Legal(List(xs)) && Legal(List(ys))
    requires multiset(CanonicalTexts(xs)) == multiset(CanonicalTexts(ys))
    ensures SameItems(xs, ys)
    decreases xs
  {
    var s, t := CanonicalTexts(xs), CanonicalTexts(ys);
    assert |multiset(s)| == |s| && |multiset(t)| == |t|;
    if xs != [] {
      var j := FirstIsFound(s, t);
      ItemSlices(xs, ys, j);
      OneTextMeansSame(xs[0], ys[j]);
      MatchedElements(s, t, j);
      MatchItems(xs[1..], Drop(ys, j));
    }
  }

  lemma {:induction false} MatchMembers(ms: seq<Member>, ns: seq<Member>)
    requires Legal(Dict(ms)) && Legal(Dict(ns))
    requires multiset(CanonicalPairs(ms)) == multiset(CanonicalPairs(ns))
    ensures SameMembers(ms, ns)
    decreases ms
  {
    var s, t := CanonicalPairs(ms), CanonicalPairs(ns);
    assert |multiset(s)| == |s| && |multiset(t)| == |t|;
    if ms != [] {
      var j := FirstIsFound(s, t);
      MemberSlices(ms, ns, j);
      OneTextMeansSame(ms[0].value, ns[j].value);
      MatchedElements(s, t, j);
      MatchMembers(ms[1..], Drop(ns, j));
    }
  }

  /** Canonical bytes are equal exactly when the values agree up to reordering, at any depth. */
  lemma CanonicalExact(a: Value, b: Value)
    requires Legal(a) && Legal(b)
    ensures CanonicalText(a) == CanonicalText(b) <==> Same(a, b)
  {
    if Same(a, b) { SameHaveOneText(a, b); }
    if CanonicalText(a) == CanonicalText(b) { OneTextMeansSame(a, b); }
  }

  // ----- normalizing twice -----

  lemma {:induction false} NormalizeIdempotent(v: Value)
    ensures Normalize(Normalize(v)) == Normalize(v)
    decreases v, 0
  {
    match v
    case List(items) =>
      var sorted := SortByText(NormalizeAll(items), DumpsKey());
      NormalizedItems(items);
      SortByTextSorts(NormalizeAll(items), DumpsKey());
      forall x | x in sorted
        ensures Normalize(x) == x
      {
        assert x in multiset(sorted);
        assert x in NormalizeAll(items);
      }
      NormalizeFixed(sorted);
      SortByTextSorted(sorted, DumpsKey());
    case Dict(ms) => MembersIdempotent(ms);
    case _ =>
  }

  lemma {:induction false} NormalizedItems(items: seq<Value>)
    ensures forall x :: x in NormalizeAll(items) ==> Normalize(x) == x
    decreases items
  {
    if items != [] {
      NormalizeIdempotent(items[0]);
      NormalizedItems(items[1..]);
    }
  }

  lemma {:induction false} NormalizeFixed(items: seq<Value>)
    requires forall x :: x in items ==> Normalize(x) == x
    ensures NormalizeAll(items) == items
  {
    if items != [] {
      assert items[0] in items;
      assert forall x :: x in items[1..] ==> x in items;
      NormalizeFixed(items[1..]);
    }
  }

  lemma {:induction false} MembersIdempotent(ms: seq<Member>)
    ensures NormalizeMembers(NormalizeMembers(ms)) == NormalizeMembers(ms)
    decreases ms
  {
    if ms != [] {
      NormalizeIdempotent(ms[0].value);
      MembersIdempotent(ms[1..]);
      assert NormalizeMembers(ms)[1..] == NormalizeMembers(ms[1..]);
    }
  }
}
