/**
 Offsets into source text (`analysis/pipeline.py`): bytes against characters
 (UTF-8, section 3 of RFC 3629), and positions against offsets.
 */
module TextOffsets {

  // ----- bytes and characters -----

  type Byte = b: nat | b < 256

  function Utf8(c: char): (bytes: seq<Byte>)
    ensures 1 <= |bytes| <= 4
  {
    var p := c as int;
    var q := p / 64;
    var r := q / 64;
    if p < 0x80 then [p]
    else if p < 0x800 then [0xC0 + q, 0x80 + p % 64]
    else if p < 0x1_0000 then [0xE0 + r, 0x80 + q % 64, 0x80 + p % 64]
    else [0xF0 + r / 64, 0x80 + r % 64, 0x80 + q % 64, 0x80 + p % 64]
  }

  function Encode(text: string): seq<Byte> {
    if text == "" then [] else Utf8(text[0]) + Encode(text[1..])
  }

  /** The length a lead byte announces; 0 for a byte that leads nothing. */
  function Announced(b: Byte): nat {
    if b < 0x80 then 1
    else if 0xC2 <= b < 0xE0 then 2
    else if 0xE0 <= b < 0xF0 then 3
    else if 0xF0 <= b < 0xF5 then 4
    else 0
  }

  predicate Continues(b: Byte) {
    0x80 <= b < 0xC0
  }

  function Payload(b: Byte): int {
    b as int - 0x80
  }

  function Scalar(bytes: seq<Byte>): int
    requires 1 <= |bytes| <= 4
  {
    var lead := bytes[0] as int;
    if |bytes| == 1 then lead
    else if |bytes| == 2 then 64 * (lead - 0xC0) + Payload(bytes[1])
    else if |bytes| == 3 then 64 * (64 * (lead - 0xE0) + Payload(bytes[1])) + Payload(bytes[2])
    else 64 * (64 * (64 * (lead - 0xF0) + Payload(bytes[1])) + Payload(bytes[2])) + Payload(bytes[3])
  }

  predicate IsScalarValue(p: int) {
    0 <= p < 0xD800 || 0xE000 <= p < 0x11_0000
  }

  /** A complete, shortest-form sequence at the start. */
  predicate StartsCharacter(bytes: seq<Byte>) {
    && bytes != []
    && var n := Announced(bytes[0]);
       && 1 <= n <= |bytes| && (forall i :: 1 <= i < n ==> Continues(bytes[i]))
       && IsScalarValue(Scalar(bytes[..n])) && Utf8(Scalar(bytes[..n]) as char) == bytes[..n]
  }

  /** Decoding that leaves out whatever is not a character. */
  function DecodeIgnoring(bytes: seq<Byte>): string {
    if bytes == [] then ""
    else if StartsCharacter(bytes) then
      var n := Announced(bytes[0]);
      [Scalar(bytes[..n]) as char] + DecodeIgnoring(bytes[n..])
    else DecodeIgnoring(bytes[1..])
  }

  function ByteOffset(text: string, characters: nat): nat {
    |Encode(text[..if characters <= |text| then characters else |text|])|
  }

  function CharacterOffset(text: string, bytes: nat): nat {
    var all := Encode(text);
    |DecodeIgnoring(all[..if bytes <= |all| then bytes else |all|])|
  }

  lemma ScalarOfUtf8(c: char)
    ensures Scalar(Utf8(c)) == c as int && Announced(Utf8(c)[0]) == |Utf8(c)|
    ensures forall i :: 1 <= i < |Utf8(c)| ==> Continues(Utf8(c)[i])
  {
  }

  lemma DecodesFirst(c: char, rest: seq<Byte>)
    ensures DecodeIgnoring(Utf8(c) + rest) == [c] + DecodeIgnoring(rest)
  {
    var u := Utf8(c);
    var all := u + rest;
    ScalarOfUtf8(c);
    assert all[0] == u[0] && all[..|u|] == u && all[|u|..] == rest;
    assert forall i :: 1 <= i < |u| ==> all[i] == u[i];
    assert StartsCharacter(all);
  }

  lemma {:induction false} ContinuationsVanish(bytes: seq<Byte>)
    requires forall i :: 0 <= i < |bytes| ==> Continues(bytes[i])
    ensures DecodeIgnoring(bytes) == ""
  {
    if bytes != [] {
      assert Continues(bytes[0]);
      ContinuationsVanish(bytes[1..]);
    }
  }

  /** The bytes of a character cut short decode to nothing. */
  lemma CutVanishes(c: char, n: nat)
    requires n < |Utf8(c)|
    ensures DecodeIgnoring(Utf8(c)[..n]) == ""
  {
    ScalarOfUtf8(c);
    if n > 0 {
      var cut := Utf8(c)[..n];
      assert cut[0] == Utf8(c)[0];
      assert forall i :: 0 <= i < |cut[1..]| ==> cut[1..][i] == Utf8(c)[i + 1];
      ContinuationsVanish(cut[1..]);
    }
  }

  lemma EncodeCons(text: string)
    requires text != ""
    ensures Encode(text) == Utf8(text[0]) + Encode(text[1..])
  {
  }

  lemma Associate(a: seq<Byte>, b: seq<Byte>, c: seq<Byte>)
    ensures (a + b) + c == a + (b + c)
  {
  }

  lemma {:induction false} EncodeSplits(text: string, k: nat)
    requires k <= |text|
    ensures Encode(text) == Encode(text[..k]) + Encode(text[k..])
  {
    if k == 0 {
      assert text[..0] == "" && text[0..] == text;
    } else {
      hide Encode, Utf8;
      var front, back := text[..k], text[k..];
      assert front[1..] == text[1..][..k - 1] && text[1..][k - 1..] == back && front[0] == text[0];
      EncodeSplits(text[1..], k - 1);
      EncodeCons(text);
      EncodeCons(front);
      Associate(Utf8(text[0]), Encode(front[1..]), Encode(back));
    }
  }

  /** Decoding a prefix of the encoding yields the characters that lie wholly inside it. */
  lemma {:induction false} DecodePrefix(text: string, b: nat) returns (k: nat)
    requires b <= |Encode(text)|
    ensures k <= |text| && DecodeIgnoring(Encode(text)[..b]) == text[..k]
    ensures ByteOffset(text, k) <= b && (k < |text| ==> b < ByteOffset(text, k + 1))
  {
    if text == "" {
      k := 0;
    } else {
      var u, rest := Utf8(text[0]), Encode(text[1..]);
      if b < |u| {
        k := 0;
        assert Encode(text)[..b] == u[..b];
        CutVanishes(text[0], b);
        assert text[..1] == [text[0]];
        assert Encode(text[..1]) == u + Encode("");
      } else {
        k := DecodePrefix(text[1..], b - |u|);
        assert Encode(text)[..b] == u + rest[..b - |u|];
        DecodesFirst(text[0], rest[..b - |u|]);
        k := k + 1;
        assert text[..k] == [text[0]] + text[1..][..k - 1];
        OffsetStep(text, k);
        if k < |text| { OffsetStep(text, k + 1); }
      }
    }
  }

  lemma OffsetStep(text: string, k: nat)
    requires 1 <= k <= |text|
    ensures ByteOffset(text, k) == |Utf8(text[0])| + ByteOffset(text[1..], k - 1)
  {
    assert text[..k][1..] == text[1..][..k - 1];
  }

  lemma OffsetGrows(text: string, j: nat, k: nat)
    requires j < k <= |text|
    ensures ByteOffset(text, j) < ByteOffset(text, k) <= |Encode(text)|
  {
    EncodeSplits(text, k);
    EncodeSplits(text[..k], j);
    assert text[..k][..j] == text[..j];
    assert text[..k][j..] != "";
  }

  /** Characters to bytes and back is the identity. */
  lemma CharactersRoundTrip(text: string, k: nat)
    requires k <= |text|
    ensures CharacterOffset(text, ByteOffset(text, k)) == k
  {
    EncodeSplits(text, k);
    var b := ByteOffset(text, k);
    var m := DecodePrefix(text, b);
    if m < k {
      if m + 1 < k { OffsetGrows(text, m + 1, k); }
    } else if k < m {
      OffsetGrows(text, k, m);
    }
  }

  /** Bytes to characters and back rounds down to a character boundary, and is the identity exactly at one. */
  lemma BytesRoundTrip(text: string, b: nat)
    requires b <= |Encode(text)|
    ensures ByteOffset(text, CharacterOffset(text, b)) <= b
    ensures ByteOffset(text, CharacterOffset(text, b)) == b <==>
        exists k: nat :: k <= |text| && ByteOffset(text, k) == b
  {
    var m := DecodePrefix(text, b);
    assert CharacterOffset(text, b) == m;
    forall k: nat | k <= |text| && ByteOffset(text, k) == b
      ensures k == m
    {
      CharactersRoundTrip(text, k);
    }
  }

  // ----- positions and offsets -----

  datatype Position = Position(line: nat, column: nat)

  function Newlines(text: string): nat {
    if text == "" then 0 else (if text[|text| - 1] == '\n' then 1 else 0) + Newlines(text[..|text| - 1])
  }

  /** Where the last line begins, when only line feeds end lines. */
  function LineStart(text: string): (q: nat)
    ensures q <= |text|
    ensures q > 0 ==> text[q - 1] == '\n'
    ensures forall i :: q <= i < |text| ==> text[i] != '\n'
  {
    if text == "" then 0 else if text[|text| - 1] == '\n' then |text| else LineStart(text[..|text| - 1])
  }

  /** The position written into a source range. */
  function PositionAt(text: string, offset: nat): Position
    requires offset <= |text|
  {
    var prefix := text[..offset];
    Position(Newlines(prefix) + 1, offset - LineStart(prefix))
  }

  /** The line boundaries of `str.splitlines`. */
  predicate IsBreak(c: char) {
    var p := c as int;
    10 <= p <= 13 || 0x1C <= p <= 0x1E || p == 0x85 || p == 0x2028 || p == 0x2029
  }

  /** The length of the first line with its break; a carriage return takes a following line feed with it. */
  function FirstLine(text: string): (n: nat)
    requires text != ""
    ensures 1 <= n <= |text|
  {
    if text[0] == '\r' && |text| > 1 && text[1] == '\n' then 2
    else if IsBreak(text[0]) || |text| == 1 then 1
    else 1 + FirstLine(text[1..])
  }

  function SplitLines(text: string): seq<string> {
    if text == "" then [] else [text[..FirstLine(text)]] + SplitLines(text[FirstLine(text)..])
  }

  function Concat(lines: seq<string>): string {
    if lines == [] then "" else lines[0] + Concat(lines[1..])
  }

  /** The offset read back from a position. */
  function OffsetAt(text: string, p: Position): nat
    requires p.line >= 1
  {
    var lines := SplitLines(text);
    var n := if p.line - 1 <= |lines| then p.line - 1 else |lines|;
    |Concat(lines[..n])| + p.column
  }

  /** A line break that is neither a line feed nor a carriage return before one. */
  predicate HasForeignBreak(text: string) {
    exists i :: 0 <= i < |text| && IsBreak(text[i]) && text[i] != '\n'
                && !(text[i] == '\r' && i + 1 < |text| && text[i + 1] == '\n')
  }

  predicate EndsLine(text: string) {
    text == "" || text[|text| - 1] == '\n'
  }

  lemma {:induction false} FirstLineLocal(a: string, b: string)
    requires a != "" && EndsLine(a)
    ensures FirstLine(a + b) == FirstLine(a) && EndsLine(a[FirstLine(a)..])
  {
    assert (a + b)[0] == a[0];
    if |a| > 1 {
      assert (a + b)[1] == a[1] && (a + b)[1..] == a[1..] + b;
      if !(a[0] == '\r' && a[1] == '\n') && !IsBreak(a[0]) {
        FirstLineLocal(a[1..], b);
        assert a[1..][FirstLine(a[1..])..] == a[1 + FirstLine(a[1..])..];
      }
    }
  }

  lemma SlicesOfJoin(a: string, b: string, n: nat)
    requires n <= |a|
    ensures (a + b)[..n] == a[..n] && (a + b)[n..] == a[n..] + b
  {
  }

  lemma SplitStep(text: string)
    requires text != ""
    ensures SplitLines(text) == [text[..FirstLine(text)]] + SplitLines(text[FirstLine(text)..])
  {
  }

  /** After a line feed, splitting starts afresh. */
  lemma {:induction false} SplitAtLine(a: string, b: string)
    requires EndsLine(a)
    ensures SplitLines(a + b) == SplitLines(a) + SplitLines(b)
    decreases |a|
  {
    if a == "" {
      assert a + b == b;
    } else {
      FirstLineLocal(a, b);
      var n := FirstLine(a);
      SlicesOfJoin(a, b, n);
      SplitAtLine(a[n..], b);
      SplitStep(a);
      SplitStep(a + b);
    }
  }

  lemma {:induction false} ConcatSplit(text: string)
    ensures Concat(SplitLines(text)) == text
    decreases |text|
  {
    if text != "" {
      var n := FirstLine(text);
      ConcatSplit(text[n..]);
      assert SplitLines(text)[1..] == SplitLines(text[n..]);
      assert text == text[..n] + text[n..];
    }
  }

  lemma {:induction false} LinesNonEmpty(text: string, i: nat)
    requires i < |SplitLines(text)|
    ensures SplitLines(text)[i] != ""
    decreases |text|
  {
    if i > 0 { LinesNonEmpty(text[FirstLine(text)..], i - 1); }
  }

  lemma {:induction false} ConcatShorter(lines: seq<string>, n: nat)
    requires n < |lines| && forall i :: 0 <= i < |lines| ==> lines[i] != ""
    ensures |Concat(lines[..n])| < |Concat(lines)|
  {
    if n > 0 {
      ConcatShorter(lines[1..], n - 1);
      assert lines[..n][1..] == lines[1..][..n - 1];
    } else {
      assert lines[0] != "";
    }
  }

  lemma {:induction false} NewlinesConcat(a: string, b: string)
    ensures Newlines(a + b) == Newlines(a) + Newlines(b)
    decreases |b|
  {
    if b == "" {
      assert a + b == a;
    } else {
      assert (a + b)[..|a + b| - 1] == a + b[..|b| - 1];
      NewlinesConcat(a, b[..|b| - 1]);
    }
  }

  lemma NewlinesOne(c: char)
    ensures Newlines([c]) == if c == '\n' then 1 else 0
  {
    assert [c][..0] == "";
  }

  /** A break ends just before position n, not inside a carriage return and its line feed. */
  predicate LineEnds(text: string, n: nat) {
    1 <= n <= |text| && IsBreak(text[n - 1]) && !(text[n - 1] == '\r' && n < |text| && text[n] == '\n')
  }

  /** What the first n characters count: one line feed or a foreign break, and the rest counts apart. */
  ghost predicate CountsApart(text: string, n: nat)
    requires n <= |text|
  {
    && Newlines(text[..n]) <= 1
    && (Newlines(text[..n]) == 1 <==> !HasForeignBreak(text[..n]))
    && (HasForeignBreak(text) <==> HasForeignBreak(text[..n]) || HasForeignBreak(text[n..]))
  }

  /** The first line holds one line feed, at its end, unless it ends in a foreign break. */
  lemma {:induction false} FirstLineCounts(text: string)
    requires text != "" && LineEnds(text, FirstLine(text))
    ensures CountsApart(text, FirstLine(text))
  {
    hide CountsApart, HasForeignBreak, Newlines;
    var n := FirstLine(text);
    if text[0] == '\r' && |text| > 1 && text[1] == '\n' {
      BreakCounts(text, 2);
    } else if IsBreak(text[0]) || |text| == 1 {
      BreakCounts(text, 1);
    } else {
      assert text == [text[0]] + text[1..];
      FirstLineCounts(text[1..]);
      LongerLine(text[0], text[1..], n - 1);
    }
  }

  /** A line that is nothing but its break. */
  lemma BreakCounts(text: string, n: nat)
    requires LineEnds(text, n) && (n == 1 || (n == 2 && text[0] == '\r' && text[1] == '\n'))
    ensures CountsApart(text, n)
  {
    var first, rest := text[..n], text[n..];
    assert text == first + rest;
    assert first == if n == 1 then [text[0]] else ['\r'] + ['\n'];
    NewlinesOne(text[0]);
    if n == 2 {
      NewlinesConcat(['\r'], ['\n']);
      NewlinesOne('\n');
    }
    ForeignConcat(first, rest);
  }

  /** One more character before a first line, not a break, changes none of its counts. */
  lemma LongerLine(c: char, text: string, n: nat)
    requires !IsBreak(c) && n <= |text| && CountsApart(text, n)
    ensures CountsApart([c] + text, n + 1)
  {
    assert ([c] + text)[..n + 1] == [c] + text[..n] && ([c] + text)[n + 1..] == text[n..];
    NewlinesConcat([c], text[..n]);
    NewlinesOne(c);
    ForeignCons(c, text[..n]);
    ForeignCons(c, text);
    hide HasForeignBreak, Newlines;
  }

  lemma ForeignCons(c: char, text: string)
    requires !IsBreak(c)
    ensures HasForeignBreak([c] + text) <==> HasForeignBreak(text)
  {
    var all := [c] + text;
    if HasForeignBreak(text) {
      var i :| 0 <= i < |text| && IsBreak(text[i]) && text[i] != '\n'
               && !(text[i] == '\r' && i + 1 < |text| && text[i + 1] == '\n');
      assert all[i + 1] == text[i];
      assert i + 1 < |text| ==> all[i + 2] == text[i + 1];
    }
    if HasForeignBreak(all) {
      var i :| 0 <= i < |all| && IsBreak(all[i]) && all[i] != '\n'
               && !(all[i] == '\r' && i + 1 < |all| && all[i + 1] == '\n');
      assert all[i] == text[i - 1];
      assert i + 1 < |all| ==> all[i + 1] == text[i];
    }
  }

  /** Two texts of which the first does not end in a carriage return that a line feed would complete. */
  lemma ForeignConcat(a: string, b: string)
    requires a != "" && (a[|a| - 1] == '\r' ==> b == "" || b[0] != '\n')
    ensures HasForeignBreak(a + b) <==> HasForeignBreak(a) || HasForeignBreak(b)
  {
    var all := a + b;
    if HasForeignBreak(a) {
      var i :| 0 <= i < |a| && IsBreak(a[i]) && a[i] != '\n'
               && !(a[i] == '\r' && i + 1 < |a| && a[i + 1] == '\n');
      assert all[i] == a[i];
      assert i + 1 < |a| ==> all[i + 1] == a[i + 1];
      assert i + 1 == |a| && b != "" ==> all[i + 1] == b[0];
    }
    if HasForeignBreak(b) {
      var i :| 0 <= i < |b| && IsBreak(b[i]) && b[i] != '\n'
               && !(b[i] == '\r' && i + 1 < |b| && b[i + 1] == '\n');
      assert all[|a| + i] == b[i];
      assert i + 1 < |b| ==> all[|a| + i + 1] == b[i + 1];
    }
    if HasForeignBreak(all) {
      var i :| 0 <= i < |all| && IsBreak(all[i]) && all[i] != '\n'
               && !(all[i] == '\r' && i + 1 < |all| && all[i + 1] == '\n');
      if i < |a| {
        assert a[i] == all[i];
        assert i + 1 < |a| ==> a[i + 1] == all[i + 1];
      } else {
        assert b[i - |a|] == all[i];
        assert i + 1 < |all| ==> b[i + 1 - |a|] == all[i + 1];
      }
    }
  }

  /** An unfinished last line holds no break before its end. */
  lemma {:induction false} LastLine(text: string)
    requires text != "" && !EndsLine(text) && FirstLine(text) == |text|
    ensures Newlines(text) == 0 && !HasForeignBreak(text[..|text| - 1])
  {
    if |text| == 1 {
      NewlinesOne(text[0]);
      assert text == [text[0]];
    } else {
      LastLine(text[1..]);
      assert text == [text[0]] + text[1..];
      NewlinesConcat([text[0]], text[1..]);
      NewlinesOne(text[0]);
      assert text[..|text| - 1] == [text[0]] + text[1..][..|text| - 2];
      ForeignCons(text[0], text[1..][..|text| - 2]);
    }
  }

  /**
   `splitlines` finds at least as many lines as the line feeds end, and one more
   for an unfinished last line; and exactly as many if and only if there is no
   foreign break, where one at the very end of an unfinished text does not count.
   */
  lemma {:induction false} LinesAndNewlines(text: string)
    ensures |SplitLines(text)| >= Newlines(text) + Unfinished(text)
    ensures |SplitLines(text)| == Newlines(text) + Unfinished(text)
            <==> !HasForeignBreak(text[..|text| - Unfinished(text)])
    decreases |text|
  {
    hide HasForeignBreak, FirstLine, Newlines, SplitLines, LineEnds;
    if text == "" {
      NothingCounts();
    } else {
      var n := FirstLine(text);
      var rest := text[n..];
      SplitStep(text);
      if !EndsLine(text) && n == |text| {
        LastLine(text);
        NothingCounts();
        assert rest == "";
      } else {
        LineEnd(text);
        LastIsLast(text, n);
        FirstLineCounts(text);
        CutForeign(text, n);
        LinesAndNewlines(rest);
        NewlinesConcat(text[..n], rest);
        assert text == text[..n] + rest;
      }
    }
  }

  lemma NothingCounts()
    ensures SplitLines("") == [] && Newlines("") == 0 && !HasForeignBreak("")
  {
  }

  /** One unfinished line, or none. */
  function Unfinished(text: string): nat {
    if EndsLine(text) then 0 else 1
  }

  lemma FinishedLines(text: string)
    requires EndsLine(text)
    ensures |SplitLines(text)| >= Newlines(text)
    ensures |SplitLines(text)| == Newlines(text) <==> !HasForeignBreak(text)
  {
    LinesAndNewlines(text);
    assert text[..|text|] == text;
  }

  lemma LastIsLast(text: string, n: nat)
    requires n <= |text| && text != "" && (n == |text| ==> EndsLine(text))
    ensures EndsLine(text[n..]) <==> EndsLine(text)
  {
    if n < |text| { assert text[n..][|text| - n - 1] == text[|text| - 1]; }
  }

  /** What is left out at the end of an unfinished text leaves the breaks of its first line. */
  lemma CutForeign(text: string, n: nat)
    requires text != "" && n == FirstLine(text) && LineEnds(text, n) && Unfinished(text) == Unfinished(text[n..])
    ensures HasForeignBreak(text[..|text| - Unfinished(text)])
            <==> HasForeignBreak(text[..n]) || HasForeignBreak(text[n..][..|text| - n - Unfinished(text)])
  {
    hide HasForeignBreak, FirstLine;
    var more := text[n..][..|text| - n - Unfinished(text)];
    assert text[..|text| - Unfinished(text)] == text[..n] + more;
    assert more != "" ==> more[0] == text[n];
    ForeignConcat(text[..n], more);
  }

  /** A line followed by more, or of a finished text, ends in a break. */
  lemma {:induction false} LineEnd(text: string)
    requires text != "" && (FirstLine(text) < |text| || EndsLine(text))
    ensures LineEnds(text, FirstLine(text))
  {
    if !(text[0] == '\r' && |text| > 1 && text[1] == '\n') && !IsBreak(text[0]) && |text| > 1 {
      LineEnd(text[1..]);
    }
  }

  lemma {:induction false} NoNewlines(text: string)
    requires forall i :: 0 <= i < |text| ==> text[i] != '\n'
    ensures Newlines(text) == 0
  {
    if text != "" { NoNewlines(text[..|text| - 1]); }
  }

  /**
   A position read back gives its offset exactly when no foreign line break lies
   above its line.
   */
  lemma PositionRoundTrip(text: string, offset: nat)
    requires offset <= |text|
    ensures OffsetAt(text, PositionAt(text, offset)) == offset
            <==> !HasForeignBreak(text[..LineStart(text[..offset])])
  {
    var prefix := text[..offset];
    var q := LineStart(prefix);
    var above, below := text[..q], text[q..];
    assert text == above + below && prefix == above + prefix[q..];
    NoNewlines(prefix[q..]);
    NewlinesConcat(above, prefix[q..]);
    SplitAtLine(above, below);
    FinishedLines(above);
    LinesOfPrefix(above, SplitLines(below), Newlines(above));
  }

  /** The first lines of a text that ends one of them: all of it, or less. */
  lemma LinesOfPrefix(above: string, more: seq<string>, n: nat)
    requires n <= |SplitLines(above)|
    ensures |Concat((SplitLines(above) + more)[..n])| == |above| <==> n == |SplitLines(above)|
  {
    var lines := SplitLines(above);
    ConcatSplit(above);
    forall i | 0 <= i < |lines|
      ensures lines[i] != ""
    {
      LinesNonEmpty(above, i);
    }
    assert (lines + more)[..n] == lines[..n];
    if n < |lines| {
      ConcatShorter(lines, n);
    } else {
      assert lines[..n] == lines;
    }
  }

  /** So every offset of a text survives when its only line breaks are line feeds, with or without carriage returns. */
  lemma PlainTextRoundTrips(text: string, offset: nat)
    requires offset <= |text| && !HasForeignBreak(text)
    ensures OffsetAt(text, PositionAt(text, offset)) == offset
  {
    var q := LineStart(text[..offset]);
    var above := text[..q];
    PositionRoundTrip(text, offset);
    if above != "" {
      assert above[q - 1] == '\n';
      ForeignConcat(above, text[q..]);
      assert text == above + text[q..];
    }
  }
}
