/** Logical task keys of the Draft (`runtime/draft_graph.py`): what is printed, and what the parsers read back. */
module TaskKeys {
  import opened Options
  import opened ScopePatterns

  const ARTIFACTS := "draft.artifacts:"
  const TURN := "draft.turn:"
  const ROUND := "draft.explore.coordinator:round:"

  /**
   The value of a decimal character, or -1.  Python's `isdecimal` and `int` accept
   the decimal digits of every script; of them only the ASCII ones are fixed here.
   */
  ghost predicate IsNumeral(digit: char -> int) {
    && (forall c: char :: '0' <= c <= '9' ==> digit(c) == (c as int) - ('0' as int))
    && (forall c: char :: (c as int) < 128 && !('0' <= c <= '9') ==> digit(c) == -1)
    && (forall c: char :: -1 <= digit(c) <= 9)
  }

  function DigitOf(n: nat): char
    requires n < 10
  {
    "0123456789"[n]
  }

  function Decimal(n: nat): (r: string)
    ensures r != ""
  {
    if n < 10 then [DigitOf(n)] else Decimal(n / 10) + [DigitOf(n % 10)]
  }

  predicate IsDigest(s: string) {
    |s| == 64 && forall i :: 0 <= i < 64 ==> '0' <= s[i] <= '9' || 'a' <= s[i] <= 'f'
  }

  /** A key with a revision and the digest of a message. */
  function RevisionKey(prefix: string, revision: nat, digest: string): string {
    prefix + (Decimal(revision) + (":" + digest))
  }

  function RoundKey(round: nat): string {
    ROUND + Decimal(round)
  }

  function ValueOf(digit: char -> int, s: string): int {
    if s == "" then 0 else 10 * ValueOf(digit, s[..|s| - 1]) + digit(s[|s| - 1])
  }

  function ReadNumber(digit: char -> int, s: string): Option<int> {
    if s == "" || (exists i :: 0 <= i < |s| && digit(s[i]) < 0) || s[0] == '0' then None else Some(ValueOf(digit, s))
  }

  function ReadRevision(digit: char -> int, prefix: string, key: string): Option<int> {
    if !(prefix <= key) then None
    else
      var parts := Split(key[|prefix|..], ':');
      if |parts| != 2 || !IsDigest(parts[1]) then None else ReadNumber(digit, parts[0])
  }

  function ReadRound(digit: char -> int, key: string): Option<int> {
    if !(ROUND <= key) then None else ReadNumber(digit, key[|ROUND|..])
  }

  predicate IsAscii(s: string) {
    forall i :: 0 <= i < |s| ==> (s[i] as int) < 128
  }

  predicate IsPlainNumber(s: string) {
    s != "" && s[0] != '0' && forall i :: 0 <= i < |s| ==> '0' <= s[i] <= '9'
  }

  // ----- numbers -----

  lemma {:induction false} DecimalReads(digit: char -> int, n: nat)
    requires IsNumeral(digit)
    ensures ValueOf(digit, Decimal(n)) == n
  {
    var d := Decimal(n);
    if n < 10 {
      assert d[..0] == "";
    } else {
      DecimalReads(digit, n / 10);
      assert d[..|d| - 1] == Decimal(n / 10) && d[|d| - 1] == DigitOf(n % 10);
    }
  }

  lemma {:induction false} DecimalIsPlain(n: nat)
    requires n >= 1
    ensures IsPlainNumber(Decimal(n))
  {
    if n >= 10 {
      var d, front := Decimal(n), Decimal(n / 10);
      DecimalIsPlain(n / 10);
      assert d == front + [DigitOf(n % 10)];
      assert forall i :: 0 <= i < |front| ==> d[i] == front[i];
    }
  }

  lemma {:induction false} PlainNumberPrints(digit: char -> int, s: string)
    requires IsNumeral(digit) && IsPlainNumber(s)
    ensures ValueOf(digit, s) >= 1 && Decimal(ValueOf(digit, s)) == s
  {
    var last := |s| - 1;
    var front := s[..last];
    LastDigit(digit, s);
    assert ValueOf(digit, s) == 10 * ValueOf(digit, front) + digit(s[last]);
    assert s == front + [s[last]];
    if last == 0 {
      assert front == "" && ValueOf(digit, front) == 0;
      assert Decimal(digit(s[0])) == [DigitOf(digit(s[0]))];
    } else {
      assert IsPlainNumber(front);
      hide ValueOf, Decimal, IsNumeral, DigitOf, IsPlainNumber;
      PlainNumberPrints(digit, front);
      DecimalStep(ValueOf(digit, front), digit(s[last]));
    }
  }

  lemma LastDigit(digit: char -> int, s: string)
    requires IsNumeral(digit) && IsPlainNumber(s)
    ensures 0 <= digit(s[|s| - 1]) < 10 && DigitOf(digit(s[|s| - 1])) == s[|s| - 1]
    ensures |s| == 1 ==> digit(s[0]) >= 1
  {
    assert '0' <= s[|s| - 1] <= '9';
  }

  lemma DecimalStep(n: nat, v: nat)
    requires n >= 1 && v < 10
    ensures Decimal(10 * n + v) == Decimal(n) + [DigitOf(v)]
  {
    assert (10 * n + v) / 10 == n && (10 * n + v) % 10 == v;
  }

  lemma AsciiNumber(digit: char -> int, s: string)
    requires IsNumeral(digit) && IsAscii(s)
    ensures ReadNumber(digit, s).Some? <==> IsPlainNumber(s)
  {
    forall i | 0 <= i < |s|
      ensures digit(s[i]) >= 0 <==> '0' <= s[i] <= '9'
    {
    }
  }

  // ----- splitting -----

  lemma {:induction false} SplitNothing(s: string)
    requires ':' !in s
    ensures Split(s, ':') == [s]
  {
    if s != "" {
      assert s == [s[0]] + s[1..] && s[0] in s;
      SplitNothing(s[1..]);
    }
  }

  lemma {:induction false} SplitAt(a: string, b: string)
    requires ':' !in a
    ensures Split(a + (":" + b), ':') == [a] + Split(b, ':')
  {
    if a == "" {
      assert a + (":" + b) == ":" + b;
      assert (":" + b)[1..] == b;
    } else {
      assert (a + (":" + b))[1..] == a[1..] + (":" + b);
      assert a == [a[0]] + a[1..] && a[0] in a;
      SplitAt(a[1..], b);
    }
  }

  lemma {:induction false} OnePart(s: string)
    requires |Split(s, ':')| == 1
    ensures Split(s, ':') == [s]
  {
    if s != "" {
      assert s == [s[0]] + s[1..];
      OnePart(s[1..]);
    }
  }

  lemma {:induction false} TwoParts(s: string)
    requires |Split(s, ':')| == 2
    ensures s == Split(s, ':')[0] + (":" + Split(s, ':')[1])
  {
    if s[0] == ':' {
      OnePart(s[1..]);
      assert s == [] + (":" + s[1..]);
    } else {
      TwoParts(s[1..]);
      assert s == [s[0]] + s[1..];
    }
  }

  // ----- keys -----

  /**
   On ASCII keys, which are the only ones an AgentRun may carry, a parser accepts
   exactly what the printer prints, with the number that was printed.
   */
  lemma RevisionKeyExact(digit: char -> int, prefix: string, key: string, n: int)
    requires IsNumeral(digit) && IsAscii(key)
    ensures ReadRevision(digit, prefix, key) == Some(n)
            <==> n >= 1 && exists d :: IsDigest(d) && key == RevisionKey(prefix, n, d)
  {
    if ReadRevision(digit, prefix, key) == Some(n) {
      var rest := key[|prefix|..];
      var parts := Split(rest, ':');
      TwoParts(rest);
      assert key == prefix + rest;
      assert forall i :: 0 <= i < |parts[0]| ==> parts[0][i] == key[|prefix| + i];
      AsciiNumber(digit, parts[0]);
      PlainNumberPrints(digit, parts[0]);
      assert key == RevisionKey(prefix, n, parts[1]);
    }
    if n >= 1 && exists d :: IsDigest(d) && key == RevisionKey(prefix, n, d) {
      var d :| IsDigest(d) && key == RevisionKey(prefix, n, d);
      PrintedKeyReads(digit, prefix, n, d);
    }
  }

  /** Printing and reading back is the identity, for every numeral system. */
  lemma PrintedKeyReads(digit: char -> int, prefix: string, n: nat, d: string)
    requires IsNumeral(digit) && n >= 1 && IsDigest(d)
    ensures ReadRevision(digit, prefix, RevisionKey(prefix, n, d)) == Some(n)
  {
    var key, number := RevisionKey(prefix, n, d), Decimal(n);
    DecimalIsPlain(n);
    assert key[|prefix|..] == number + (":" + d);
    SplitAt(number, d);
    SplitNothing(d);
    NumberReads(digit, n);
  }

  lemma NumberReads(digit: char -> int, n: nat)
    requires IsNumeral(digit) && n >= 1
    ensures ReadNumber(digit, Decimal(n)) == Some(n)
  {
    DecimalReads(digit, n);
    DecimalIsPlain(n);
    assert IsAscii(Decimal(n));
    AsciiNumber(digit, Decimal(n));
  }

  lemma RoundKeyExact(digit: char -> int, key: string, n: int)
    requires IsNumeral(digit) && IsAscii(key)
    ensures ReadRound(digit, key) == Some(n) <==> n >= 1 && key == RoundKey(n)
  {
    if ROUND <= key {
      var rest := key[|ROUND|..];
      assert key == ROUND + rest;
      assert IsAscii(rest);
      AsciiNumber(digit, rest);
      if IsPlainNumber(rest) { PlainNumberPrints(digit, rest); }
    }
    if n >= 1 && key == RoundKey(n) {
      assert key[|ROUND|..] == Decimal(n);
      NumberReads(digit, n);
    }
  }

  /** No key is read by two of the parsers. */
  lemma KeysAreDisjoint(digit: char -> int, key: string)
    ensures ReadRevision(digit, ARTIFACTS, key).Some? ==>
              ReadRevision(digit, TURN, key).None? && ReadRound(digit, key).None?
    ensures ReadRevision(digit, TURN, key).Some? ==> ReadRound(digit, key).None?
  {
    if ARTIFACTS <= key { assert key[6] == ARTIFACTS[6] == 'a'; }
    if TURN <= key { assert key[6] == TURN[6] == 't'; }
    if ROUND <= key { assert key[6] == ROUND[6] == 'e'; }
  }

  /** Where another script has digits, a key with one of them is read as a number that prints differently. */
  lemma ForeignDigitsRead(digit: char -> int, c: char)
    requires IsNumeral(digit) && (c as int) >= 128 && digit(c) >= 1
    ensures ReadRound(digit, ROUND + [c]) == Some(digit(c)) && ROUND + [c] != RoundKey(digit(c))
  {
    assert (ROUND + [c])[|ROUND|..] == [c];
    assert [c][..0] == "";
    assert ValueOf(digit, [c]) == 10 * ValueOf(digit, "") + digit(c);
    assert ROUND <= ROUND + [c];
    assert [c][0] != '0';
    assert ReadNumber(digit, [c]) == Some(digit(c));
    assert forall n: nat :: n < 10 ==> '0' <= DigitOf(n) <= '9';
    assert Decimal(digit(c)) == [DigitOf(digit(c))];
    assert RoundKey(digit(c))[|ROUND|] == DigitOf(digit(c)) && (ROUND + [c])[|ROUND|] == c;
  }
}
