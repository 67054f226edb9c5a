/**
 The textual depth gate of the Spec boundary (`core/spec.py`): a scanner that
 never parses, against the depth of the parsed value, over every textual form
 of a JSON value (sections 2 to 7 of RFC 8259).
 */
module JsonNesting {
  const MAX_SPEC_DEPTH: nat := 32

  /** A parsed value; a string is its code points or escaped units, on which depth does not depend. */
  datatype Json =
    | Scalar(text: string)
    | Text(units: seq<nat>)
    | List(items: seq<Json>)
    | Dict(members: seq<Entry>)

  datatype Entry = Entry(key: seq<nat>, value: Json)

  /** One character of a string as written. */
  datatype Piece = Plain(c: char) | Escape(c: char) | Unicode(hex: string)

  /** A value as written, with its insignificant whitespace. */
  datatype Written =
    | Literal(text: string)
    | Quoted(pieces: seq<Piece>)
    | Brackets(pad: string, items: seq<Item>)
    | Braces(pad: string, members: seq<Member>)

  datatype Item = Item(before: string, value: Written, after: string)

  datatype Member = Member(lead: string, key: seq<Piece>, colon: string, gap: string, value: Written, after: string)

  // ----- legal texts -----

  predicate IsSpace(c: char) {
    c == ' ' || c == '\t' || c == '\n' || c == '\r'
  }

  predicate IsSpaces(s: string) {
    forall i :: 0 <= i < |s| ==> IsSpace(s[i])
  }

  predicate IsHex(c: char) {
    '0' <= c <= '9' || 'a' <= c <= 'f' || 'A' <= c <= 'F'
  }

  predicate LegalPiece(p: Piece) {
    match p
    case Plain(c) => c >= ' ' && c != '"' && c != '\\'
    case Escape(c) => c in {'"', '\\', '/', 'b', 'f', 'n', 'r', 't'}
    case Unicode(hex) => |hex| == 4 && forall i :: 0 <= i < 4 ==> IsHex(hex[i])
  }

  predicate LegalPieces(pieces: seq<Piece>) {
    forall i :: 0 <= i < |pieces| ==> LegalPiece(pieces[i])
  }

  /** Numbers and the three literal names use letters, digits, signs and points only. */
  predicate LegalLiteral(s: string) {
    s != "" && forall i :: 0 <= i < |s| ==>
      'a' <= s[i] <= 'z' || s[i] == 'E' || '0' <= s[i] <= '9' || s[i] in {'-', '+', '.'}
  }

  predicate Legal(w: Written) {
    match w
    case Literal(text) => LegalLiteral(text)
    case Quoted(pieces) => LegalPieces(pieces)
    case Brackets(pad, items) => IsSpaces(pad) && LegalItems(items)
    case Braces(pad, members) => IsSpaces(pad) && LegalMembers(members)
  }

  predicate LegalItems(items: seq<Item>) {
    if items == [] then true
    else
      && IsSpaces(items[0].before) && Legal(items[0].value) && IsSpaces(items[0].after)
      && LegalItems(items[1..])
  }

  predicate LegalMembers(members: seq<Member>) {
    if members == [] then true
    else
      var m := members[0];
      && IsSpaces(m.lead) && LegalPieces(m.key) && IsSpaces(m.colon) && IsSpaces(m.gap) && Legal(m.value)
      && IsSpaces(m.after) && LegalMembers(members[1..])
  }

  function PieceText(p: Piece): string {
    match p
    case Plain(c) => [c]
    case Escape(c) => ['\\', c]
    case Unicode(hex) => "\\u" + hex
  }

  function PiecesText(pieces: seq<Piece>): string {
    if pieces == [] then "" else PieceText(pieces[0]) + PiecesText(pieces[1..])
  }

  function QuotedText(pieces: seq<Piece>): string {
    "\"" + (PiecesText(pieces) + "\"")
  }

  /** The text of a value. */
  function Render(w: Written): string {
    match w
    case Literal(text) => text
    case Quoted(pieces) => QuotedText(pieces)
    case Brackets(pad, items) => "[" + (pad + (ItemsText(items) + "]"))
    case Braces(pad, members) => "{" + (pad + (MembersText(members) + "}"))
  }

  function ItemsText(items: seq<Item>): string {
    if items == [] then ""
    else
      items[0].before + (Render(items[0].value) + (items[0].after
      + ((if |items| > 1 then "," else "") + ItemsText(items[1..]))))
  }

  function MembersText(members: seq<Member>): string {
    if members == [] then ""
    else
      var m := members[0];
      m.lead + (QuotedText(m.key) + (m.colon + (":" + (m.gap + (Render(m.value) + (m.after
      + ((if |members| > 1 then "," else "") + MembersText(members[1..]))))))))
  }

  // ----- the value a text denotes -----

  function HexValue(c: char): nat
    requires IsHex(c)
  {
    if '0' <= c <= '9' then (c as int) - ('0' as int)
    else if 'a' <= c <= 'f' then (c as int) - ('a' as int) + 10
    else (c as int) - ('A' as int) + 10
  }

  function Unit(p: Piece): nat
    requires LegalPiece(p)
  {
    match p
    case Plain(c) => c as nat
    case Escape(c) =>
      if c == 'b' then 8 else if c == 'f' then 12 else if c == 'n' then 10
      else if c == 'r' then 13 else if c == 't' then 9 else c as nat
    case Unicode(h) => 4096 * HexValue(h[0]) + 256 * HexValue(h[1]) + 16 * HexValue(h[2]) + HexValue(h[3])
  }

  function Units(pieces: seq<Piece>): seq<nat>
    requires LegalPieces(pieces)
  {
    if pieces == [] then [] else [Unit(pieces[0])] + Units(pieces[1..])
  }

  function Value(w: Written): Json
    requires Legal(w)
  {
    match w
    case Literal(text) => Scalar(text)
    case Quoted(pieces) => Text(Units(pieces))
    case Brackets(_, items) => List(ItemValues(items))
    case Braces(_, members) => Dict(MemberValues(members))
  }

  function ItemValues(items: seq<Item>): seq<Json>
    requires LegalItems(items)
  {
    if items == [] then [] else [Value(items[0].value)] + ItemValues(items[1..])
  }

  function MemberValues(members: seq<Member>): seq<Entry>
    requires LegalMembers(members)
  {
    if members == [] then []
    else [Entry(Units(members[0].key), Value(members[0].value))] + MemberValues(members[1..])
  }

  // ----- the depth of a value, as the gate after parsing computes it -----

  function Max(a: int, b: int): int {
    if a < b then b else a
  }

  /** The maximum over the children, or the default when there are none. */
  function MaxOr(depths: seq<int>, default: int): int {
    if depths == [] then default
    else if |depths| == 1 then depths[0]
    else Max(depths[0], MaxOr(depths[1..], default))
  }

  function ObjectDepth(v: Json, depth: int): int {
    match v
    case Scalar(_) => depth - 1
    case Text(_) => depth - 1
    case List(items) => MaxOr(ItemDepths(items, depth + 1), depth)
    case Dict(members) => MaxOr(MemberDepths(members, depth + 1), depth)
  }

  function ItemDepths(items: seq<Json>, depth: int): (r: seq<int>)
    ensures |r| == |items|
  {
    if items == [] then [] else [ObjectDepth(items[0], depth)] + ItemDepths(items[1..], depth)
  }

  function MemberDepths(members: seq<Entry>, depth: int): (r: seq<int>)
    ensures |r| == |members|
  {
    if members == [] then [] else [ObjectDepth(members[0].value, depth)] + MemberDepths(members[1..], depth)
  }

  /** The number of containers on the longest path into a written value. */
  function Height(w: Written): nat {
    match w
    case Literal(_) => 0
    case Quoted(_) => 0
    case Brackets(_, items) => 1 + ItemsHeight(items)
    case Braces(_, members) => 1 + MembersHeight(members)
  }

  function ItemsHeight(items: seq<Item>): nat {
    if items == [] then 0 else Max(Height(items[0].value), ItemsHeight(items[1..]))
  }

  function MembersHeight(members: seq<Member>): nat {
    if members == [] then 0 else Max(Height(members[0].value), MembersHeight(members[1..]))
  }

  /** The recursive gate counts exactly the containers on the longest path. */
  lemma {:induction false} DepthIsHeight(w: Written, depth: int)
    requires Legal(w)
    ensures ObjectDepth(Value(w), depth) == depth - 1 + Height(w)
    decreases w, 0
  {
    match w
    case Literal(_) =>
    case Quoted(_) =>
    case Brackets(_, items) =>
      ItemsDepthIsHeight(items, depth + 1);
    case Braces(_, members) =>
      MembersDepthIsHeight(members, depth + 1);
  }

  lemma {:induction false} ItemsDepthIsHeight(items: seq<Item>, depth: int)
    requires LegalItems(items)
    ensures MaxOr(ItemDepths(ItemValues(items), depth), depth - 1) == depth - 1 + ItemsHeight(items)
    decreases items
  {
    if items != [] {
      DepthIsHeight(items[0].value, depth);
      ItemsDepthIsHeight(items[1..], depth);
      var values := ItemValues(items);
      assert values[1..] == ItemValues(items[1..]);
      assert ItemDepths(values, depth)[1..] == ItemDepths(values[1..], depth);
      assert |values| == 1 <==> ItemValues(items[1..]) == [];
    }
  }

  lemma {:induction false} MembersDepthIsHeight(members: seq<Member>, depth: int)
    requires LegalMembers(members)
    ensures MaxOr(MemberDepths(MemberValues(members), depth), depth - 1) == depth - 1 + MembersHeight(members)
    decreases members
  {
    if members != [] {
      DepthIsHeight(members[0].value, depth);
      MembersDepthIsHeight(members[1..], depth);
      var values := MemberValues(members);
      assert values[1..] == MemberValues(members[1..]);
      assert MemberDepths(values, depth)[1..] == MemberDepths(values[1..], depth);
      assert |values| == 1 <==> MemberValues(members[1..]) == [];
    }
  }

  // ----- the scanner -----

  datatype Scanner = Exceeded | At(depth: nat, inString: bool, escaped: bool)

  function Advance(s: Scanner, c: char): Scanner {
    if s.Exceeded? then Exceeded
    else if s.inString then
      if s.escaped then s.(escaped := false)
      else if c == '\\' then s.(escaped := true)
      else if c == '"' then s.(inString := false)
      else s
    else if c == '"' then s.(inString := true)
    else if c == '[' || c == '{' then
      if s.depth + 1 > MAX_SPEC_DEPTH then Exceeded else s.(depth := s.depth + 1)
    else if c == ']' || c == '}' then s.(depth := if s.depth == 0 then 0 else s.depth - 1)
    else s
  }

  function Scan(s: Scanner, text: string): Scanner
    decreases |text|
  {
    if text == "" then s else Scan(Advance(s, text[0]), text[1..])
  }

  const START: Scanner := At(0, false, false)

  /** The scan over the characters, stopping as soon as the limit is passed. */
  method NestingExceedsLimit(text: string) returns (exceeds: bool)
    ensures exceeds <==> Scan(START, text) == Exceeded
  {
    var depth, inString, escaped := 0, false, false;
    for i := 0 to |text|
      invariant 0 <= depth <= MAX_SPEC_DEPTH
      invariant Scan(START, text) == Scan(At(depth, inString, escaped), text[i..])
    {
      var c := text[i];
      assert text[i..][1..] == text[i + 1..];
      if inString {
        if escaped {
          escaped := false;
        } else if c == '\\' {
          escaped := true;
        } else if c == '"' {
          inString := false;
        }
        continue;
      }
      if c == '"' {
        inString := true;
      } else if c == '[' || c == '{' {
        depth := depth + 1;
        if depth > MAX_SPEC_DEPTH {
          ScanExceeded(text[i + 1..]);
          return true;
        }
      } else if c == ']' || c == '}' {
        depth := if depth == 0 then 0 else depth - 1;
      }
    }
    return false;
  }

  lemma {:induction false} ScanExceeded(text: string)
    ensures Scan(Exceeded, text) == Exceeded
    decreases |text|
  {
    if text != "" { ScanExceeded(text[1..]); }
  }

  lemma {:induction false} ScanAppend(s: Scanner, a: string, b: string)
    ensures Scan(s, a + b) == Scan(Scan(s, a), b)
    decreases |a|
  {
    if a == "" {
      assert a + b == b;
    } else {
      assert (a + b)[1..] == a[1..] + b;
      ScanAppend(Advance(s, a[0]), a[1..], b);
    }
  }

  /** Outside strings, characters that are neither quotes nor brackets change nothing. */
  lemma {:induction false} ScanInert(s: Scanner, text: string)
    requires s.At? ==> !s.inString
    requires forall i :: 0 <= i < |text| ==> text[i] !in {'"', '[', '{', ']', '}'}
    ensures Scan(s, text) == s
    decreases |text|
  {
    if text != "" {
      assert text[0] !in {'"', '[', '{', ']', '}'};
      ScanInert(s, text[1..]);
    }
  }

  lemma ScanOne(s: Scanner, c: char)
    ensures Scan(s, [c]) == Advance(s, c)
  {
    assert [c][1..] == "";
  }

  /** Inside a string every legal piece leaves the scanner inside it. */
  lemma {:induction false} ScanPieces(depth: nat, pieces: seq<Piece>)
    requires LegalPieces(pieces)
    ensures Scan(At(depth, true, false), PiecesText(pieces)) == At(depth, true, false)
    decreases |pieces|
  {
    if pieces != [] {
      var s := At(depth, true, false);
      ScanPiece(depth, pieces[0]);
      ScanAppend(s, PieceText(pieces[0]), PiecesText(pieces[1..]));
      ScanPieces(depth, pieces[1..]);
    }
  }

  lemma ScanPiece(depth: nat, p: Piece)
    requires LegalPiece(p)
    ensures Scan(At(depth, true, false), PieceText(p)) == At(depth, true, false)
  {
    var s := At(depth, true, false);
    match p
    case Plain(c) => ScanOne(s, c);
    case Escape(c) =>
      assert ['\\', c][1..] == [c];
      ScanOne(s.(escaped := true), c);
    case Unicode(hex) =>
      ScanAppend(s, "\\u", hex);
      assert "\\u"[1..] == "u";
      ScanOne(s.(escaped := true), 'u');
      assert forall i :: 0 <= i < 4 ==> IsHex(hex[i]) && hex[i] != '"' && hex[i] != '\\';
      ScanHex(s, hex);
  }

  lemma {:induction false} ScanHex(s: Scanner, hex: string)
    requires s.At? && s.inString && !s.escaped
    requires forall i :: 0 <= i < |hex| ==> hex[i] != '"' && hex[i] != '\\'
    ensures Scan(s, hex) == s
    decreases |hex|
  {
    if hex != "" { ScanHex(s, hex[1..]); }
  }

  lemma ScanQuoted(depth: nat, pieces: seq<Piece>)
    requires LegalPieces(pieces)
    ensures Scan(At(depth, false, false), QuotedText(pieces)) == At(depth, false, false)
  {
    var inside := At(depth, true, false);
    assert ("\"" + (PiecesText(pieces) + "\""))[1..] == PiecesText(pieces) + "\"";
    ScanPieces(depth, pieces);
    ScanAppend(inside, PiecesText(pieces), "\"");
    ScanOne(inside, '"');
  }

  /** What a text of the given height does to the scanner at a depth. */
  function Outcome(depth: nat, height: nat): Scanner {
    if depth + height > MAX_SPEC_DEPTH then Exceeded else At(depth, false, false)
  }

  lemma ScanSpaces(s: Scanner, text: string)
    requires IsSpaces(text) && (s.At? ==> !s.inString)
    ensures Scan(s, text) == s
  {
    forall i | 0 <= i < |text|
      ensures text[i] !in {'"', '[', '{', ']', '}'}
    {
      assert IsSpace(text[i]);
    }
    ScanInert(s, text);
  }

  /** Scanning the text of any value: back at the same depth, or past the limit, by its height alone. */
  lemma {:induction false} ScanValue(depth: nat, w: Written)
    requires Legal(w) && depth <= MAX_SPEC_DEPTH
    ensures Scan(At(depth, false, false), Render(w)) == Outcome(depth, Height(w))
    decreases w, 0
  {
    match w
    case Literal(text) => ScanInert(At(depth, false, false), text);
    case Quoted(pieces) => ScanQuoted(depth, pieces);
    case Brackets(pad, items) =>
      ScanContainer(depth, '[', pad, ItemsText(items), ']');
      if depth < MAX_SPEC_DEPTH {
        ScanItems(depth + 1, items);
        ScanClosing(depth, pad, ItemsText(items), ']', ItemsHeight(items));
      }
    case Braces(pad, members) =>
      ScanContainer(depth, '{', pad, MembersText(members), '}');
      if depth < MAX_SPEC_DEPTH {
        ScanMembers(depth + 1, members);
        ScanClosing(depth, pad, MembersText(members), '}', MembersHeight(members));
      }
  }

  lemma ScanContainer(depth: nat, open: char, pad: string, body: string, close: char)
    requires open == '[' || open == '{'
    ensures Scan(At(depth, false, false), [open] + (pad + (body + [close])))
            == if depth < MAX_SPEC_DEPTH then Scan(At(depth + 1, false, false), pad + (body + [close])) else Exceeded
  {
    var rest := pad + (body + [close]);
    assert ([open] + rest)[1..] == rest;
    if depth >= MAX_SPEC_DEPTH { ScanExceeded(rest); }
  }

  lemma ScanClosing(depth: nat, pad: string, body: string, close: char, height: nat)
    requires IsSpaces(pad) && (close == ']' || close == '}')
    requires Scan(At(depth + 1, false, false), body) == Outcome(depth + 1, height)
    ensures Scan(At(depth + 1, false, false), pad + (body + [close])) == Outcome(depth, 1 + height)
  {
    var s := At(depth + 1, false, false);
    ScanAppend(s, pad, body + [close]);
    ScanSpaces(s, pad);
    ScanAppend(s, body, [close]);
    ScanOne(Outcome(depth + 1, height), close);
  }

  /** Two texts one after the other: the higher one decides. */
  lemma ScanTwo(depth: nat, a: string, x: nat, b: string, y: nat)
    requires Scan(At(depth, false, false), a) == Outcome(depth, x)
    requires Scan(At(depth, false, false), b) == Outcome(depth, y)
    ensures Scan(At(depth, false, false), a + b) == Outcome(depth, Max(x, y))
  {
    ScanAppend(At(depth, false, false), a, b);
    if depth + x > MAX_SPEC_DEPTH { ScanExceeded(b); }
  }

  lemma FlatText(depth: nat, text: string)
    requires depth <= MAX_SPEC_DEPTH
    requires IsSpaces(text) || text == "," || text == ":"
    ensures Scan(At(depth, false, false), text) == Outcome(depth, 0)
  {
    if IsSpaces(text) {
      ScanSpaces(At(depth, false, false), text);
    } else {
      ScanInert(At(depth, false, false), text);
    }
  }

  lemma {:induction false} ScanItems(depth: nat, items: seq<Item>)
    requires LegalItems(items) && depth <= MAX_SPEC_DEPTH
    ensures Scan(At(depth, false, false), ItemsText(items)) == Outcome(depth, ItemsHeight(items))
    decreases items
  {
    if items != [] {
      var it := items[0];
      var tail, rest := if |items| > 1 then "," else "", ItemsText(items[1..]);
      var h, k := Height(it.value), ItemsHeight(items[1..]);
      ScanItems(depth, items[1..]);
      ScanValue(depth, it.value);
      FlatText(depth, tail);
      FlatText(depth, it.before);
      FlatText(depth, it.after);
      ScanTwo(depth, tail, 0, rest, k);
      ScanTwo(depth, it.after, 0, tail + rest, k);
      ScanTwo(depth, Render(it.value), h, it.after + (tail + rest), k);
      ScanTwo(depth, it.before, 0, Render(it.value) + (it.after + (tail + rest)), Max(h, k));
    }
  }

  lemma {:induction false} ScanMembers(depth: nat, members: seq<Member>)
    requires LegalMembers(members) && depth <= MAX_SPEC_DEPTH
    ensures Scan(At(depth, false, false), MembersText(members)) == Outcome(depth, MembersHeight(members))
    decreases members
  {
    if members != [] {
      var m := members[0];
      var tail, rest := if |members| > 1 then "," else "", MembersText(members[1..]);
      var h, k := Height(m.value), MembersHeight(members[1..]);
      ScanMembers(depth, members[1..]);
      ScanValue(depth, m.value);
      FlatText(depth, tail);
      FlatText(depth, m.lead);
      FlatText(depth, m.colon);
      FlatText(depth, m.gap);
      FlatText(depth, m.after);
      FlatText(depth, ":");
      ScanQuoted(depth, m.key);
      var r1 := m.after + (tail + rest);
      var r2 := Render(m.value) + r1;
      var r3 := ":" + (m.gap + r2);
      ScanTwo(depth, tail, 0, rest, k);
      ScanTwo(depth, m.after, 0, tail + rest, k);
      ScanTwo(depth, Render(m.value), h, r1, k);
      ScanTwo(depth, m.gap, 0, r2, Max(h, k));
      ScanTwo(depth, ":", 0, m.gap + r2, Max(h, k));
      ScanTwo(depth, m.colon, 0, r3, Max(h, k));
      ScanTwo(depth, QuotedText(m.key), 0, m.colon + r3, Max(h, k));
      ScanTwo(depth, m.lead, 0, QuotedText(m.key) + (m.colon + r3), Max(h, k));
    }
  }

  /** For every value and every way to write it, the scanner says yes exactly when the parsed value is too deep. */
  lemma ScannerIsExact(before: string, w: Written, after: string)
    requires IsSpaces(before) && Legal(w) && IsSpaces(after)
    ensures Scan(START, before + (Render(w) + after)) == Exceeded <==> ObjectDepth(Value(w), 1) > MAX_SPEC_DEPTH
  {
    FlatText(0, before);
    FlatText(0, after);
    ScanValue(0, w);
    ScanTwo(0, Render(w), Height(w), after, 0);
    ScanTwo(0, before, 0, Render(w) + after, Height(w));
    DepthIsHeight(w, 1);
  }
}
