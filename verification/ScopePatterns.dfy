/**
 The finite path-pattern language of Spec v3 (`core/scope.py`).

 A pattern is a literal file, a directory (it ends in `/`), or a file with one
 `*` in its last segment.  The module states the language of a pattern through
 the regular expression the program builds, and proves that the syntactic
 containment test decides inclusion of those languages.
 */
module ScopePatterns {

  datatype PatternError =
    | EmptyPattern
    | ContainsNul
    | NotRelative
    | UnsupportedSyntax
    | DoubleStar
    | UnsafeSegment
    | MisplacedStar

  datatype Validation = Valid(pattern: string) | Invalid(error: PatternError)

  const UNSUPPORTED := {'?', '[', ']', '{', '}', '(', ')', '|', '+', '^', '$', '\\'}

  predicate EndsWith(s: string, t: string) {
    |t| <= |s| && s[|s| - |t|..] == t
  }

  /** Python's `s.split(separator)` for a one-character separator. */
  function Split(s: string, separator: char): (parts: seq<string>)
    ensures |parts| > 0
  {
    if s == [] then [[]]
    else
      var rest := Split(s[1..], separator);
      if s[0] == separator then [[]] + rest else [[s[0]] + rest[0]] + rest[1..]
  }

  function IndexOf(s: string, c: char): (i: nat)
    requires c in s
    ensures i < |s| && s[i] == c && c !in s[..i]
  {
    if s[0] == c then 0 else 1 + IndexOf(s[1..], c)
  }

  function CountOf(s: string, c: char): nat {
    if s == [] then 0 else (if s[0] == c then 1 else 0) + CountOf(s[1..], c)
  }

  predicate HasDoubleStar(s: string) {
    exists i :: 0 <= i < |s| - 1 && s[i] == '*' && s[i + 1] == '*'
  }

  predicate IsDirectory(pattern: string) {
    EndsWith(pattern, "/")
  }

  function Body(pattern: string): string {
    if IsDirectory(pattern) then pattern[..|pattern| - 1] else pattern
  }

  function ValidateScopePattern(pattern: string): Validation {
    if pattern == "" then Invalid(EmptyPattern)
    else if '\0' in pattern then Invalid(ContainsNul)
    else if pattern[0] == '/' || pattern[0] == '~' || '\\' in pattern then Invalid(NotRelative)
    else if exists c :: c in pattern && c in UNSUPPORTED then Invalid(UnsupportedSyntax)
    else if HasDoubleStar(pattern) then Invalid(DoubleStar)
    else
      var body := Body(pattern);
      var parts := Split(body, '/');
      if exists part :: part in parts && part in {"", ".", "..", ".git"} then Invalid(UnsafeSegment)
      else if '*' in body
              && (IsDirectory(pattern) || CountOf(body, '*') > 1 || '*' !in parts[|parts| - 1])
      then Invalid(MisplacedStar)
      else Valid(pattern)
  }

  predicate IsValid(pattern: string) {
    ValidateScopePattern(pattern).Valid?
  }

  // ----- the language of a pattern -----

  /** The anchored regular expression of a body: `*` stands for `[^/]+`, everything else for itself. */
  ghost predicate RegexMatches(body: string, text: string) {
    if body == "" then text == ""
    else if body[0] == '*' then
      exists k :: 1 <= k <= |text| && '/' !in text[..k] && RegexMatches(body[1..], text[k..])
    else
      text != "" && text[0] == body[0] && RegexMatches(body[1..], text[1..])
  }

  /** `$` accepts the end of the text and also the position before one final newline. */
  ghost predicate AnchoredMatches(body: string, text: string) {
    RegexMatches(body, text) || (EndsWith(text, "\n") && RegexMatches(body, text[..|text| - 1]))
  }

  predicate InsideGit(path: string) {
    path == ".git" || ".git/" <= path
  }

  ghost predicate Matches(pattern: string, path: string) {
    && !InsideGit(path)
    && if IsDirectory(pattern) then pattern <= path else AnchoredMatches(pattern, path)
  }

  // ----- the containment test -----

  function BeforeStar(pattern: string): string
    requires '*' in pattern
  {
    pattern[..IndexOf(pattern, '*')]
  }

  function AfterStar(pattern: string): string
    requires '*' in pattern
  {
    pattern[IndexOf(pattern, '*') + 1..]
  }

  ghost predicate PatternIsContained(inc: string, exc: string) {
    if IsDirectory(inc) then inc <= exc
    else if '*' !in inc then inc == exc
    else if '*' in exc then
      && BeforeStar(inc) <= BeforeStar(exc)
      && EndsWith(AfterStar(exc), AfterStar(inc))
      && '/' !in BeforeStar(exc)[|BeforeStar(inc)|..]
    else Matches(inc, exc)
  }

  ghost predicate ExcludesAreContained(includes: seq<string>, excludes: seq<string>) {
    forall e :: e in excludes ==> exists i :: i in includes && PatternIsContained(i, e)
  }

  // ----- patterns after validation -----

  /** The three shapes validation leaves. */
  datatype Pattern = Directory(prefix: string) | Literal(text: string) | Starred(before: string, after: string)

  function Parse(pattern: string): Pattern {
    if IsDirectory(pattern) then Directory(pattern)
    else if '*' in pattern then Starred(BeforeStar(pattern), AfterStar(pattern))
    else Literal(pattern)
  }

  predicate Shaped(p: Pattern) {
    match p
    case Directory(prefix) => EndsWith(prefix, "/") && '?' !in prefix && !(".git/" <= prefix)
    case Literal(text) => text != "" && !EndsWith(text, "/") && '?' !in text && !InsideGit(text)
    case Starred(before, after) =>
      '?' !in before && '?' !in after && '/' !in after && !(".git/" <= before)
  }

  /** A text has the form before, one or more characters other than `/`, after. */
  predicate StarShape(before: string, after: string, text: string) {
    && |before| + |after| < |text|
    && before <= text
    && EndsWith(text, after)
    && '/' !in text[|before|..|text| - |after|]
  }

  /** The language of a shaped pattern in closed form, final newline included. */
  predicate Accepts(p: Pattern, path: string) {
    match p
    case Directory(prefix) => prefix <= path
    case Literal(text) => path == text || path == text + "\n"
    case Starred(before, after) =>
      StarShape(before, after, path)
      || (EndsWith(path, "\n") && StarShape(before, after, path[..|path| - 1]))
  }

  predicate Contained(i: Pattern, e: Pattern) {
    match i
    case Directory(prefix) =>
      (match e
       case Directory(inner) => prefix <= inner
       case Literal(text) => prefix <= text
       case Starred(before, _) => prefix <= before)
    case Literal(_) => e == i
    case Starred(before, after) =>
      match e
      case Directory(_) => false
      case Literal(text) => Accepts(i, text)
      case Starred(outer, tail) => before <= outer && EndsWith(tail, after) && '/' !in outer[|before|..]
  }

  // ----- what validation guarantees -----

  lemma {:induction false} SplitFirst(s: string, separator: char)
    ensures var first := Split(s, separator)[0];
            separator !in first && first <= s && (|first| == |s| || s[|first|] == separator)
  {
    if s != [] {
      SplitFirst(s[1..], separator);
    }
  }

  lemma {:induction false} SplitLast(s: string, separator: char) returns (head: string)
    ensures var parts := Split(s, separator);
            && s == head + parts[|parts| - 1]
            && separator !in parts[|parts| - 1]
            && (if |parts| == 1 then head == [] else head != [] && head[|head| - 1] == separator)
  {
    head := [];
    if s != [] {
      var rest := Split(s[1..], separator);
      var tail := SplitLast(s[1..], separator);
      if s[0] == separator || |rest| > 1 {
        head := [s[0]] + tail;
      } else {
        head := [];
      }
    }
  }

  lemma {:induction false} CountIsOne(s: string, c: char, i: nat)
    requires i < |s| && s[i] == c && CountOf(s, c) <= 1
    ensures c !in s[..i] && c !in s[i + 1..]
  {
    if i == 0 {
      CountIsZero(s[1..], c);
    } else {
      CountPositive(s[1..], c, i - 1);
      CountIsOne(s[1..], c, i - 1);
      assert s[1..][i..] == s[i + 1..];
      assert s[..i] == [s[0]] + s[1..][..i - 1];
    }
  }

  lemma {:induction false} CountIsZero(s: string, c: char)
    requires CountOf(s, c) == 0
    ensures c !in s
  {
    if s != [] {
      CountIsZero(s[1..], c);
      assert s == [s[0]] + s[1..];
    }
  }

  lemma {:induction false} CountPositive(s: string, c: char, i: nat)
    requires i < |s| && s[i] == c
    ensures CountOf(s, c) > 0
  {
    if i > 0 {
      CountPositive(s[1..], c, i - 1);
    }
  }

  /** A prefix without a character ends before that character occurs. */
  lemma PrefixAvoids(prefix: string, whole: string, c: char, at: nat)
    requires prefix <= whole && c !in prefix && at < |whole| && whole[at] == c
    ensures |prefix| <= at
  {
    assert forall k :: 0 <= k < |prefix| ==> whole[k] == prefix[k] && prefix[k] in prefix;
  }

  lemma SuffixAvoids(suffix: string, whole: string, c: char, at: nat)
    requires EndsWith(whole, suffix) && c !in suffix && at < |whole| && whole[at] == c
    ensures at < |whole| - |suffix|
  {
    var n := |whole| - |suffix|;
    assert forall k :: n <= k < |whole| ==> whole[k] == suffix[k - n] && suffix[k - n] in suffix;
  }

  lemma FirstOfGit(body: string)
    requires InsideGit(body)
    ensures Split(body, '/')[0] == ".git"
  {
    SplitFirst(body, '/');
    var first := Split(body, '/')[0];
    assert body[..4] == ".git";
    assert body[0] == '.' && body[1] == 'g' && body[2] == 'i' && body[3] == 't';
    if |body| > 4 { PrefixAvoids(first, body, '/', 4); }
    assert |first| == 4;
    assert first == body[..4];
  }

  lemma StarIsLast(body: string)
    requires '*' in body && CountOf(body, '*') <= 1
    requires var parts := Split(body, '/'); '*' in parts[|parts| - 1]
    ensures '*' !in BeforeStar(body) && '*' !in AfterStar(body) && '/' !in AfterStar(body)
    ensures body == BeforeStar(body) + "*" + AfterStar(body)
  {
    var parts := Split(body, '/');
    var last := parts[|parts| - 1];
    var head := SplitLast(body, '/');
    var i := IndexOf(body, '*');
    CountIsOne(body, '*', i);
    var j :| 0 <= j < |last| && last[j] == '*';
    assert body[|head| + j] == '*';
    OneStar(body, i, |head| + j);
    AfterStarIsTail(body, head, last, i, j);
    hide Split, CountOf, IndexOf;
  }

  lemma AfterStarIsTail(body: string, head: string, last: string, i: nat, j: nat)
    requires '*' in body && i == IndexOf(body, '*') && body == head + last && '/' !in last && j < |last|
    requires i == |head| + j && '*' !in body[..i] && '*' !in body[i + 1..]
    ensures '*' !in BeforeStar(body) && '*' !in AfterStar(body) && '/' !in AfterStar(body)
    ensures body == BeforeStar(body) + "*" + AfterStar(body)
  {
    hide IndexOf;
    assert AfterStar(body) == last[j + 1..];
  }

  lemma OneStar(s: string, i: nat, j: nat)
    requires i < |s| && j < |s| && s[i] == s[j] == '*'
    requires CountOf(s, '*') <= 1
    ensures i == j
  {
    CountIsOne(s, '*', i);
    PrefixAvoids(s[..i], s, '*', j);
    SuffixAvoids(s[i + 1..], s, '*', j);
  }

  /** The checks of the validator that the containment argument uses. */
  predicate Checked(pattern: string) {
    var body := Body(pattern);
    var parts := Split(body, '/');
    && pattern != "" && '?' !in pattern
    && parts[0] != ".git" && parts[|parts| - 1] != ""
    && ('*' in body ==> !IsDirectory(pattern) && CountOf(body, '*') <= 1 && '*' in parts[|parts| - 1])
  }

  lemma ValidIsChecked(pattern: string)
    requires IsValid(pattern)
    ensures Checked(pattern)
  {
    var parts := Split(Body(pattern), '/');
    assert '?' in UNSUPPORTED;
    assert parts[0] in parts && parts[|parts| - 1] in parts;
  }

  /** Everything the containment argument needs from a validated pattern. */
  lemma ValidIsShaped(pattern: string)
    requires IsValid(pattern)
    ensures Shaped(Parse(pattern))
    ensures '?' !in pattern
    ensures IsDirectory(pattern) ==> '*' !in pattern
    ensures !IsDirectory(pattern) && '*' in pattern ==>
              && pattern == BeforeStar(pattern) + "*" + AfterStar(pattern)
              && '*' !in BeforeStar(pattern) && '*' !in AfterStar(pattern)
  {
    ValidIsChecked(pattern);
    CheckedIsShaped(pattern);
  }

  lemma CheckedIsShaped(pattern: string)
    requires Checked(pattern)
    ensures Shaped(Parse(pattern))
    ensures IsDirectory(pattern) ==> '*' !in pattern
    ensures !IsDirectory(pattern) && '*' in pattern ==>
              && pattern == BeforeStar(pattern) + "*" + AfterStar(pattern)
              && '*' !in BeforeStar(pattern) && '*' !in AfterStar(pattern)
  {
    var body := Body(pattern);
    if InsideGit(body) { FirstOfGit(body); }
    if IsDirectory(pattern) {
      assert pattern == body + "/";
      assert '*' in pattern ==> '*' in body;
      if ".git/" <= pattern { GitDirectory(body); }
    } else if '*' in pattern {
      StarIsLast(pattern);
      assert BeforeStar(pattern) <= pattern;
    }
  }

  lemma GitDirectory(body: string)
    requires ".git/" <= body + "/"
    ensures InsideGit(body)
  {
    if |body| == 4 {
      assert body == (body + "/")[..4];
    } else {
      assert body == (body + "/")[..|body|];
    }
  }

  // ----- the regular expression in closed form -----

  lemma {:induction false} LiteralMatches(body: string, text: string)
    requires '*' !in body
    ensures RegexMatches(body, text) <==> text == body
  {
    if body != "" {
      assert body[0] in body;
      if text != "" {
        LiteralMatches(body[1..], text[1..]);
        assert text == [text[0]] + text[1..];
      }
      assert body == [body[0]] + body[1..];
    }
  }

  lemma StarAtFront(after: string, text: string)
    requires '*' !in after
    ensures RegexMatches("*" + after, text) <==> StarShape("", after, text)
  {
    var body := "*" + after;
    assert body[1..] == after;
    forall k | 1 <= k <= |text|
      ensures RegexMatches(body[1..], text[k..]) <==> text[k..] == after
    {
      LiteralMatches(after, text[k..]);
    }
    if StarShape("", after, text) {
      var k := |text| - |after|;
      assert text[0..k] == text[..k];
      assert RegexMatches(body[1..], text[k..]);
    }
    if RegexMatches(body, text) {
      var k :| 1 <= k <= |text| && '/' !in text[..k] && RegexMatches(body[1..], text[k..]);
      assert k == |text| - |after|;
      assert text[0..k] == text[..k];
    }
  }

  lemma {:induction false} StarMatches(before: string, after: string, text: string)
    requires '*' !in before && '*' !in after
    ensures RegexMatches(before + "*" + after, text) <==> StarShape(before, after, text)
    decreases |before|
  {
    var body := before + "*" + after;
    if before == "" {
      assert body == "*" + after;
      StarAtFront(after, text);
    } else {
      assert body[0] == before[0] != '*';
      assert body[1..] == before[1..] + "*" + after;
      if text != "" {
        StarMatches(before[1..], after, text[1..]);
        StarShapeTail(before, after, text);
      }
    }
  }

  lemma StarShapeTail(before: string, after: string, text: string)
    requires before != "" && text != ""
    ensures StarShape(before, after, text)
            <==> text[0] == before[0] && StarShape(before[1..], after, text[1..])
  {
    if |before| + |after| < |text| {
      assert text[1..][|before[1..]|..|text[1..]| - |after|] == text[|before|..|text| - |after|];
      assert text[1..][|text[1..]| - |after|..] == text[|text| - |after|..];
      assert before == [before[0]] + before[1..];
      assert text == [text[0]] + text[1..];
    }
  }

  lemma MatchesAccepts(pattern: string, path: string)
    requires IsValid(pattern)
    ensures Matches(pattern, path) <==> !InsideGit(path) && Accepts(Parse(pattern), path)
  {
    ValidIsShaped(pattern);
    if !IsDirectory(pattern) {
      if '*' in pattern {
        StarMatches(BeforeStar(pattern), AfterStar(pattern), path);
        if EndsWith(path, "\n") { StarMatches(BeforeStar(pattern), AfterStar(pattern), path[..|path| - 1]); }
      } else {
        LiteralMatches(pattern, path);
        if EndsWith(path, "\n") {
          LiteralMatches(pattern, path[..|path| - 1]);
          assert path == path[..|path| - 1] + "\n";
        }
      }
    }
  }

  lemma StarShapeEnd(before: string, after: string, text: string)
    requires StarShape(before, after, text) && '/' !in after
    ensures text[|text| - 1] != '/' && text[|text| - 1] in text[|before|..]
  {
    if after == "" {
      var middle := text[|before|..|text|];
      assert middle[|middle| - 1] == text[|text| - 1];
    } else {
      assert after[|after| - 1] == text[|text| - 1];
    }
    assert text[|before|..][|text| - 1 - |before|] == text[|text| - 1];
  }

  lemma SlashIsNotStarred(i: Pattern, text: string)
    requires i.Starred? && Shaped(i) && EndsWith(text, "/")
    ensures !Accepts(i, text)
  {
    assert text[|text| - 1] == '/';
    if StarShape(i.before, i.after, text) { StarShapeEnd(i.before, i.after, text); }
  }

  /** The test on text and the test on shapes agree. */
  lemma ContainmentOfShapes(inc: string, exc: string)
    requires IsValid(inc) && IsValid(exc)
    ensures PatternIsContained(inc, exc) <==> Contained(Parse(inc), Parse(exc))
  {
    ValidIsShaped(inc);
    ValidIsShaped(exc);
    if IsDirectory(inc) {
      if !IsDirectory(exc) && '*' in exc {
        var before := BeforeStar(exc);
        assert before <= exc && exc[|before|] == '*';
        if inc <= exc {
          PrefixAvoids(inc, exc, '*', |before|);
          assert before == exc[..|before|];
        }
      }
    } else if '*' in inc {
      if '*' !in exc {
        MatchesAccepts(inc, exc);
        if IsDirectory(exc) { SlashIsNotStarred(Parse(inc), exc); }
      }
    }
  }

  // ----- deciding inclusion -----

  /** Every path of `e` is a path of `i`. */
  ghost predicate Included(e: Pattern, i: Pattern) {
    forall path: string :: !InsideGit(path) && Accepts(e, path) ==> Accepts(i, path)
  }

  /** A path of the pattern that others match only on purpose: `?` occurs in no valid pattern. */
  function Witness(p: Pattern): string {
    match p
    case Directory(prefix) => prefix
    case Literal(text) => text
    case Starred(before, after) => before + "?????" + after
  }

  lemma WitnessIsAccepted(p: Pattern)
    requires Shaped(p)
    ensures !InsideGit(Witness(p)) && Accepts(p, Witness(p))
    ensures !p.Directory? ==> !InsideGit(Witness(p) + "\n") && Accepts(p, Witness(p) + "\n")
  {
    var path := Witness(p);
    match p {
      case Directory(_) =>
      case Literal(text) =>
        assert (text + "\n")[..|text|] == text;
        if InsideGit(text + "\n") { GitBeforeNewline(text); }
      case Starred(before, after) =>
        assert path[|before|..|path| - |after|] == "?????";
        assert (path + "\n")[..|path|] == path;
        assert path + "\n" == before + "?????" + (after + "\n");
        if InsideGit(path) { GitBeforeMark(before, after); }
        if InsideGit(path + "\n") { GitBeforeMark(before, after + "\n"); }
    }
  }

  lemma GitBeforeNewline(text: string)
    requires InsideGit(text + "\n")
    ensures ".git/" <= text
  {
    var whole := text + "\n";
    assert whole[|text|] == '\n';
    if ".git/" <= whole {
      PrefixAvoids(".git/", whole, '\n', |text|);
      assert text == whole[..|text|];
    }
  }

  lemma GitBeforeMark(before: string, after: string)
    requires InsideGit(before + "?????" + after)
    ensures ".git/" <= before
  {
    var path := before + "?????" + after;
    assert path[|before|] == '?';
    if ".git/" <= path {
      PrefixAvoids(".git/", path, '?', |before|);
      assert before == path[..|before|];
    }
  }

  /** If no `?` occurs in the ends of a star shape, a marked text shows where they lie. */
  lemma MarkedStar(before: string, after: string, outer: string, tail: string)
    requires '?' !in before && '?' !in after
    requires StarShape(before, after, outer + "?????" + tail)
    ensures before <= outer && EndsWith(tail, after) && '/' !in outer[|before|..]
  {
    var path := outer + "?????" + tail;
    assert path[|outer|] == '?' && path[|path| - |tail| - 1] == '?';
    PrefixAvoids(before, path, '?', |outer|);
    SuffixAvoids(after, path, '?', |path| - |tail| - 1);
    assert outer == path[..|outer|];
    assert tail[|tail| - |after|..] == path[|path| - |after|..];
    forall k | |before| <= k < |outer|
      ensures outer[k] != '/'
    {
      assert path[|before|..|path| - |after|][k - |before|] == outer[k];
    }
  }

  lemma MarkedPrefix(prefix: string, outer: string, tail: string)
    requires '?' !in prefix && prefix <= outer + "?????" + tail
    ensures prefix <= outer
  {
    var path := outer + "?????" + tail;
    assert path[|outer|] == '?';
    PrefixAvoids(prefix, path, '?', |outer|);
    assert outer == path[..|outer|];
  }

  /** A pattern matching the witness of another contains it, unless only a final newline was spared. */
  lemma WitnessDecides(i: Pattern, e: Pattern)
    requires Shaped(i) && Shaped(e)
    requires Accepts(i, Witness(e))
    ensures Contained(i, e) || (EndsWith(Witness(e), "\n") && !e.Directory? && !i.Directory?)
  {
    match i
    case Directory(prefix) =>
      if e.Starred? { MarkedPrefix(prefix, e.before, e.after); }
    case Literal(text) =>
      MarkInWitness(e);
    case Starred(before, after) =>
      if e.Directory? { SlashIsNotStarred(i, e.prefix); }
      if e.Starred? && StarShape(before, after, Witness(e)) { MarkedStar(before, after, e.before, e.after); }
  }

  lemma {:induction false} OnlyNewlines(whole: string, suffix: string, t: nat)
    requires EndsWith(whole, "\n")
    requires EndsWith(whole[..|whole| - 1], suffix) && EndsWith(whole + "\n", suffix)
    requires t < |suffix|
    ensures suffix[|suffix| - 1 - t] == '\n'
  {
    var k := |suffix|;
    assert suffix[k - 1 - t] == (whole + "\n")[|whole| - t];
    if t == 1 {
      assert whole[|whole| - 1] == '\n';
    } else if t >= 2 {
      OnlyNewlines(whole, suffix, t - 2);
      assert suffix[k - 1 - (t - 2)] == whole[..|whole| - 1][|whole| - t];
    }
  }

  /** A suffix found both one character before and one newline after the end is found at the end. */
  lemma SuffixBetween(whole: string, suffix: string)
    requires EndsWith(whole, "\n")
    requires EndsWith(whole[..|whole| - 1], suffix) && EndsWith(whole + "\n", suffix)
    ensures EndsWith(whole, suffix)
  {
    var k := |suffix|;
    forall j | 0 <= j < k
      ensures whole[|whole| - k + j] == suffix[j]
    {
      OnlyNewlines(whole, suffix, k - 1 - j);
      if j < k - 1 {
        OnlyNewlines(whole, suffix, k - 2 - j);
        assert suffix[j + 1] == whole[..|whole| - 1][|whole| - k + j];
      } else {
        assert whole[|whole| - 1] == '\n';
      }
    }
    assert whole[|whole| - k..] == suffix;
  }

  /** A star shape that holds of the text with a newline more and with one less holds of the text. */
  lemma StarShapeBetween(before: string, after: string, text: string)
    requires EndsWith(text, "\n")
    requires StarShape(before, after, text[..|text| - 1]) && StarShape(before, after, text + "\n")
    ensures StarShape(before, after, text)
  {
    SuffixBetween(text, after);
    assert before <= text[..|text| - 1] <= text;
    forall k | |before| <= k < |text| - |after|
      ensures text[k] != '/'
    {
      assert (text + "\n")[|before|..|text| + 1 - |after|][k - |before|] == text[k];
    }
  }

  /** Inclusion of the languages always implies the syntactic test. */
  lemma InclusionImpliesContainment(i: Pattern, e: Pattern)
    requires Shaped(i) && Shaped(e) && Included(e, i)
    ensures Contained(i, e)
  {
    WitnessIsAccepted(e);
    IncludedAt(e, i, Witness(e));
    WitnessDecides(i, e);
    if EndsWith(Witness(e), "\n") && !e.Directory? && !i.Directory? {
      IncludedAt(e, i, Witness(e) + "\n");
      TwoWitnessesDecide(i, e);
    }
  }

  lemma IncludedAt(e: Pattern, i: Pattern, path: string)
    requires Included(e, i) && !InsideGit(path) && Accepts(e, path)
    ensures Accepts(i, path)
  {
  }

  lemma TwoWitnessesDecide(i: Pattern, e: Pattern)
    requires Shaped(i) && Shaped(e) && !e.Directory? && !i.Directory?
    requires EndsWith(Witness(e), "\n")
    requires Accepts(i, Witness(e)) && Accepts(i, Witness(e) + "\n")
    ensures Contained(i, e)
  {
    var path := Witness(e);
    assert (path + "\n")[..|path|] == path;
    match i
    case Literal(text) =>
      SameWithNewline(path, text);
      MarkInWitness(e);
    case Starred(before, after) =>
      if !StarShape(before, after, path) { StarShapeBetween(before, after, path); }
      if e.Starred? { MarkedStar(before, after, e.before, e.after); }
  }

  lemma SameWithNewline(path: string, text: string)
    requires path == text || path == text + "\n"
    requires path + "\n" == text || path + "\n" == text + "\n"
    ensures path == text
  {
    assert |path + "\n"| == |path| + 1 && |text + "\n"| == |text| + 1;
  }

  lemma MarkInWitness(e: Pattern)
    ensures e.Starred? ==> '?' in Witness(e)
  {
    if e.Starred? {
      assert Witness(e)[|e.before|] == '?';
    }
  }

  /**
   The one family on which the test says yes and inclusion fails: a starred
   include that reaches a literal exclude only by leaving out its final newline.
   */
  predicate NewlineGap(i: Pattern, e: Pattern) {
    && i.Starred? && e.Literal?
    && EndsWith(e.text, "\n")
    && !StarShape(i.before, i.after, e.text)
    && StarShape(i.before, i.after, e.text[..|e.text| - 1])
  }

  lemma GapBreaksInclusion(i: Pattern, e: Pattern)
    requires Shaped(i) && Shaped(e) && NewlineGap(i, e)
    ensures Contained(i, e) && !Included(e, i)
  {
    WitnessIsAccepted(e);
    var path := e.text + "\n";
    assert path[..|path| - 1] == e.text;
    if StarShape(i.before, i.after, path) {
      StarShapeBetween(i.before, i.after, e.text);
    }
    assert !Accepts(i, path);
  }

  lemma StarCovers(before: string, after: string, outer: string, tail: string, text: string)
    requires before <= outer && EndsWith(tail, after) && '/' !in outer[|before|..] && '/' !in tail
    requires StarShape(outer, tail, text)
    ensures StarShape(before, after, text)
  {
    assert text[|text| - |tail|..] == tail;
    assert text[|text| - |after|..] == tail[|tail| - |after|..];
    forall k | |before| <= k < |text| - |after|
      ensures text[k] != '/'
    {
      if k < |outer| {
        assert outer[|before|..][k - |before|] == text[k];
      } else if k < |text| - |tail| {
        assert text[|outer|..|text| - |tail|][k - |outer|] == text[k];
      } else {
        assert tail[k - (|text| - |tail|)] == text[k];
      }
    }
  }

  lemma ContainmentImpliesInclusion(i: Pattern, e: Pattern)
    requires Shaped(i) && Shaped(e) && Contained(i, e) && !NewlineGap(i, e)
    ensures Included(e, i)
  {
    forall path | !InsideGit(path) && Accepts(e, path)
      ensures Accepts(i, path)
    {
      match i
      case Directory(prefix) => DirectoryCovers(prefix, e, path);
      case Literal(_) =>
      case Starred(before, after) =>
        match e {
          case Starred(outer, tail) =>
            if StarShape(outer, tail, path) {
              StarCovers(before, after, outer, tail, path);
            } else {
              StarCovers(before, after, outer, tail, path[..|path| - 1]);
            }
          case Literal(text) =>
            assert (text + "\n")[..|text|] == text;
        }
    }
  }

  lemma DirectoryCovers(prefix: string, e: Pattern, path: string)
    requires Shaped(e) && Contained(Directory(prefix), e) && Accepts(e, path)
    ensures prefix <= path
  {
    if e.Starred? && !StarShape(e.before, e.after, path) {
      assert e.before <= path[..|path| - 1] <= path;
    }
  }

  // ----- the main results, on pattern text -----

  /** Every path the exclude pattern matches is matched by the include pattern. */
  ghost predicate LanguageIncluded(exc: string, inc: string) {
    forall path :: Matches(exc, path) ==> Matches(inc, path)
  }

  lemma LanguageOfShapes(exc: string, inc: string)
    requires IsValid(inc) && IsValid(exc)
    ensures LanguageIncluded(exc, inc) <==> Included(Parse(exc), Parse(inc))
  {
    forall path: string
      ensures Matches(exc, path) <==> !InsideGit(path) && Accepts(Parse(exc), path)
      ensures Matches(inc, path) <==> !InsideGit(path) && Accepts(Parse(inc), path)
    {
      MatchesAccepts(exc, path);
      MatchesAccepts(inc, path);
    }
  }

  /** For all validated patterns the test decides inclusion exactly outside the newline gap. */
  lemma PatternContainmentExact(inc: string, exc: string)
    requires IsValid(inc) && IsValid(exc)
    ensures (PatternIsContained(inc, exc) <==> LanguageIncluded(exc, inc)) <==> !NewlineGap(Parse(inc), Parse(exc))
    ensures LanguageIncluded(exc, inc) ==> PatternIsContained(inc, exc)
  {
    var i, e := Parse(inc), Parse(exc);
    ValidIsShaped(inc);
    ValidIsShaped(exc);
    ContainmentOfShapes(inc, exc);
    LanguageOfShapes(exc, inc);
    if NewlineGap(i, e) {
      GapBreaksInclusion(i, e);
    } else if Contained(i, e) {
      ContainmentImpliesInclusion(i, e);
    }
    if Included(e, i) { InclusionImpliesContainment(i, e); }
  }

  /** The gap is real: `a*c` is said to contain the file `abc` followed by a newline. */
  lemma NewlineGapExample()
    ensures IsValid("a*c") && IsValid("abc\n")
    ensures PatternIsContained("a*c", "abc\n") && !LanguageIncluded("abc\n", "a*c")
  {
    PlainIsValid("abc\n");
    StarredIsValid("a", "c");
    assert "a" + "*" + "c" == "a*c";
    hide IsValid;
    StarReachesNewline();
  }

  lemma StarReachesNewline()
    ensures PatternIsContained("a*c", "abc\n")
    ensures Matches("abc\n", "abc\n" + "\n") && !Matches("a*c", "abc\n" + "\n")
  {
    var inc, exc := "a*c", "abc\n";
    assert exc[..3] == "abc";
    assert IndexOf(inc[1..], '*') == 0;
    assert BeforeStar(inc) == "a" && AfterStar(inc) == "c";
    assert inc == "a" + "*" + "c";
    StarMatches("a", "c", exc);
    StarMatches("a", "c", exc[..3]);
    LiteralMatches(exc, exc + "\n");
    assert (exc + "\n")[..4] == exc;
    LiteralMatches(exc, exc);
    StarMatches("a", "c", exc + "\n");
  }

  /** Letters and line feeds, the characters of the examples. */
  predicate IsPlain(s: string) {
    forall c :: c in s ==> c == '\n' || 'a' <= c <= 'z'
  }

  lemma {:induction false} OneSegment(s: string)
    requires '/' !in s
    ensures Split(s, '/') == [s]
  {
    if s != "" {
      OneSegment(s[1..]);
      assert s == [s[0]] + s[1..];
    }
  }

  lemma {:induction false} CountBeside(a: string, b: string)
    requires '*' !in a && '*' !in b
    ensures CountOf(a + "*" + b, '*') == 1 && CountOf(b, '*') == 0
  {
    if a != "" {
      assert (a + "*" + b)[1..] == a[1..] + "*" + b;
      CountBeside(a[1..], b);
    } else if b != "" {
      assert (a + "*" + b)[1..] == b;
      CountBeside(a, b[1..]);
    }
  }

  lemma PlainIsValid(s: string)
    requires s != "" && IsPlain(s)
    ensures IsValid(s)
  {
    assert s[0] in s;
    assert s[0] != '.';
    forall i | 0 <= i < |s|
      ensures s[i] != '*'
    {
      assert s[i] in s;
    }
    OneSegment(s);
    OneSegmentIsValid(s);
  }

  lemma StarredIsValid(a: string, b: string)
    requires IsPlain(a) && IsPlain(b) && a != "" && b != ""
    ensures IsValid(a + "*" + b)
  {
    var s := a + "*" + b;
    StarredChars(a, b);
    CountBeside(a, b);
    hide IsPlain, CountOf;
    OneSegment(s);
    OneSegmentIsValid(s);
  }

  lemma StarredChars(a: string, b: string)
    requires IsPlain(a) && IsPlain(b) && a != "" && b != ""
    ensures var s := a + "*" + b;
            && s != "" && (forall c :: c in s ==> c == '*' || c == '\n' || 'a' <= c <= 'z')
            && s[0] != '.' && !HasDoubleStar(s)
  {
    var s := a + "*" + b;
    assert s[0] == a[0] && a[0] in a;
    assert forall c :: c in s ==> c == '*' || c in a || c in b;
    forall i | 0 <= i < |s| && i != |a|
      ensures s[i] != '*'
    {
      if i < |a| {
        assert s[i] == a[i] && a[i] in a;
      } else {
        assert s[i] == b[i - |a| - 1] && b[i - |a| - 1] in b;
      }
    }
  }

  /** A name of plain characters and at most one star passes every check. */
  lemma OneSegmentIsValid(s: string)
    requires s != "" && (forall c :: c in s ==> c == '*' || c == '\n' || 'a' <= c <= 'z')
    requires s[0] != '.' && !HasDoubleStar(s) && Split(s, '/') == [s]
    requires '*' in s ==> CountOf(s, '*') <= 1
    ensures IsValid(s)
  {
    hide HasDoubleStar, Split, CountOf;
    assert s[0] in s && s[|s| - 1] in s;
    assert !IsDirectory(s) && Body(s) == s;
    assert s != "." && s != ".." && s != ".git";
    assert forall part :: part in [s] ==> part == s;
  }

  /** Every excluded path is an included path. */
  ghost predicate ExclusionsInside(includes: seq<string>, excludes: seq<string>) {
    forall path, e :: e in excludes && Matches(e, path) ==> Reaches(includes, path)
  }

  ghost predicate Reaches(includes: seq<string>, path: string) {
    exists i :: i in includes && Matches(i, path)
  }

  /** Two paths of an exclude that together decide whether the includes cover it. */
  ghost predicate Witnessed(includes: seq<string>, e: string) {
    var path := Witness(Parse(e));
    Reaches(includes, path) && (IsDirectory(e) || Reaches(includes, path + "\n"))
  }

  /** The language of a pattern without the newline that `$` spares. */
  predicate Exactly(p: Pattern, path: string) {
    match p
    case Directory(prefix) => prefix <= path
    case Literal(text) => path == text
    case Starred(before, after) => StarShape(before, after, path)
  }

  /** The same pattern for paths with a newline more. */
  function WithNewline(p: Pattern): Pattern {
    match p
    case Directory(_) => p
    case Literal(text) => Literal(text + "\n")
    case Starred(before, after) => Starred(before, after + "\n")
  }

  /** A pattern that accepts the witness of another accepts all of its language, spared newlines aside. */
  lemma WitnessCovers(i: Pattern, e: Pattern, path: string)
    requires Shaped(i) && Shaped(e) && Accepts(i, Witness(e)) && Exactly(e, path)
    ensures Accepts(i, path)
  {
    match i
    case Directory(prefix) =>
      if e.Starred? { MarkedPrefix(prefix, e.before, e.after); }
    case Literal(_) => MarkInWitness(e);
    case Starred(before, after) =>
      match e {
        case Directory(inner) => SlashIsNotStarred(i, inner);
        case Literal(_) =>
        case Starred(outer, tail) => MarkCovers(before, after, outer, tail, path);
      }
  }

  lemma MarkCovers(before: string, after: string, outer: string, tail: string, path: string)
    requires Shaped(Starred(before, after)) && Shaped(Starred(outer, tail))
    requires Accepts(Starred(before, after), outer + "?????" + tail) && StarShape(outer, tail, path)
    ensures Accepts(Starred(before, after), path)
  {
    hide StarShape;
    var marked := outer + "?????" + tail;
    if StarShape(before, after, marked) {
      MarkedStar(before, after, outer, tail);
      StarCovers(before, after, outer, tail, path);
    } else {
      LastOfMarked(outer, tail);
      assert marked[|marked| - 1] == '\n';
      var shorter := tail[..|tail| - 1];
      assert tail == shorter + "\n";
      assert marked[..|marked| - 1] == outer + "?????" + shorter;
      ShorterShape(outer, shorter, path);
      MarkedStar(before, after, outer, shorter);
      StarCovers(before, after, outer, shorter, path[..|path| - 1]);
    }
  }

  lemma ShorterShape(before: string, after: string, path: string)
    requires StarShape(before, after + "\n", path)
    ensures EndsWith(path, "\n") && StarShape(before, after, path[..|path| - 1])
  {
    var end := after + "\n";
    assert path[|path| - |end|..] == end;
    assert path[|path| - 1] == end[|end| - 1];
    var shorter := path[..|path| - 1];
    assert shorter[|shorter| - |after|..] == end[..|after|] == after;
    assert shorter[|before|..|shorter| - |after|] == path[|before|..|path| - |end|];
  }

  lemma LongerShape(before: string, after: string, path: string)
    requires StarShape(before, after, path)
    ensures StarShape(before, after + "\n", path + "\n")
  {
    var longer, end := path + "\n", after + "\n";
    assert longer[|longer| - |end|..] == path[|path| - |after|..] + "\n";
    assert longer[|before|..|longer| - |end|] == path[|before|..|path| - |after|];
    assert before == path[..|before|] == longer[..|before|];
  }

  lemma NewlineShapes(e: Pattern, path: string)
    requires Shaped(e) && !e.Directory?
    ensures Witness(WithNewline(e)) == Witness(e) + "\n"
    ensures Shaped(WithNewline(e))
    ensures Exactly(e, path) ==> Exactly(WithNewline(e), path + "\n")
  {
    hide StarShape;
    match e
    case Literal(text) =>
      if InsideGit(text + "\n") { GitBeforeNewline(text); }
      hide InsideGit;
      assert (text + "\n")[|text|] == '\n';
    case Starred(before, after) =>
      if StarShape(before, after, path) { LongerShape(before, after, path); }
      assert before + "?????" + (after + "\n") == before + "?????" + after + "\n";
  }

  lemma ParseIsDirectory(e: string)
    ensures IsDirectory(e) <==> Parse(e).Directory?
  {
  }

  /** The includes cover an exclude exactly when they reach its witnesses. */
  lemma CoverageExact(includes: seq<string>, e: string)
    requires IsValid(e) && forall i :: i in includes ==> IsValid(i)
    ensures Witnessed(includes, e) <==> forall path :: Matches(e, path) ==> Reaches(includes, path)
  {
    hide Matches, IsValid, Parse, StarShape, Shaped, Witness;
    var p := Parse(e);
    var marked := Witness(p);
    ValidIsShaped(e);
    ParseIsDirectory(e);
    WitnessIsAccepted(p);
    MatchesAccepts(e, marked);
    MatchesAccepts(e, marked + "\n");
    if Witnessed(includes, e) {
      forall path | Matches(e, path)
        ensures Reaches(includes, path)
      {
        MatchesAccepts(e, path);
        if Exactly(p, path) {
          WitnessReaches(includes, p, marked, path);
        } else {
          var shorter := path[..|path| - 1];
          assert path == shorter + "\n";
          NewlineShapes(p, shorter);
          WitnessReaches(includes, WithNewline(p), marked + "\n", path);
        }
      }
    }
  }

  lemma WitnessReaches(includes: seq<string>, p: Pattern, marked: string, path: string)
    requires Shaped(p) && marked == Witness(p) && Reaches(includes, marked) && Exactly(p, path) && !InsideGit(path)
    requires forall i :: i in includes ==> IsValid(i)
    ensures Reaches(includes, path)
  {
    var i :| i in includes && Matches(i, marked);
    ValidIsShaped(i);
    MatchesAccepts(i, marked);
    WitnessCovers(Parse(i), p, path);
    MatchesAccepts(i, path);
  }

  /**
   The whole gate.  Every excluded path is an included path exactly when the
   includes reach the witnesses of every exclude, and that is what the gate
   answers unless an exclude ends in a newline: the union of several includes
   never covers another exclude that no single one covers.
   */
  lemma ExcludesContainedExact(includes: seq<string>, excludes: seq<string>)
    requires forall p :: p in includes || p in excludes ==> IsValid(p)
    ensures ExclusionsInside(includes, excludes) <==> forall e :: e in excludes ==> Witnessed(includes, e)
    ensures (ExcludesAreContained(includes, excludes) <==> ExclusionsInside(includes, excludes))
            || exists e :: e in excludes && EndsWith(e, "\n")
  {
    forall e | e in excludes
      ensures Witnessed(includes, e) <==> forall path :: Matches(e, path) ==> Reaches(includes, path)
      ensures !EndsWith(e, "\n") ==>
                (Witnessed(includes, e) <==> exists i :: i in includes && PatternIsContained(i, e))
    {
      CoverageExact(includes, e);
      if !EndsWith(e, "\n") { WitnessedIsContained(includes, e); }
    }
  }

  lemma WitnessedIsContained(includes: seq<string>, e: string)
    requires IsValid(e) && !EndsWith(e, "\n") && forall i :: i in includes ==> IsValid(i)
    ensures Witnessed(includes, e) <==> exists i :: i in includes && PatternIsContained(i, e)
  {
    if Witnessed(includes, e) {
      var i := CoveringInclude(includes, e);
    }
    if i :| i in includes && PatternIsContained(i, e) {
      PatternContainmentExact(i, e);
      forall path | Matches(e, path)
        ensures Reaches(includes, path)
      {
        assert Matches(i, path);
      }
      CoverageExact(includes, e);
    }
  }

  lemma CoveringInclude(includes: seq<string>, e: string) returns (i: string)
    requires IsValid(e) && forall i :: i in includes ==> IsValid(i)
    requires Witnessed(includes, e) && !EndsWith(e, "\n")
    ensures i in includes && PatternIsContained(i, e)
  {
    var path := Witness(Parse(e));
    ValidIsShaped(e);
    i :| i in includes && Matches(i, path);
    ValidIsShaped(i);
    MatchesAccepts(i, path);
    WitnessDecides(Parse(i), Parse(e));
    ContainmentOfShapes(i, e);
    if Parse(e).Starred? && EndsWith(path, "\n") { MarkedEnd(e); }
  }

  /** For an exclude that ends in a newline the gate errs both ways: too lenient, and too strict. */
  lemma NewlineExcludeExamples()
    ensures IsValid("a*c") && IsValid("abc") && IsValid("abc\n") && IsValid("abc\n\n")
    ensures ExcludesAreContained(["a*c"], ["abc\n"]) && !ExclusionsInside(["a*c"], ["abc\n"])
    ensures !ExcludesAreContained(["abc", "abc\n\n"], ["abc\n"])
    ensures ExclusionsInside(["abc", "abc\n\n"], ["abc\n"])
  {
    hide IsValid, Matches, PatternIsContained, Parse, IsDirectory, ExclusionsInside, ExcludesAreContained;
    NewlineGapExample();
    PlainIsLiteral("abc");
    PlainIsLiteral("abc\n\n");
    TooLenient();
    TooStrict("abc", "abc\n", "abc\n\n");
  }

  lemma TooLenient()
    ensures ExcludesAreContained(["a*c"], ["abc\n"]) && !ExclusionsInside(["a*c"], ["abc\n"])
  {
    StarReachesNewline();
    hide Matches, PatternIsContained;
    assert "a*c" in ["a*c"] && "abc\n" in ["abc\n"];
    assert !Reaches(["a*c"], "abc\n" + "\n");
  }

  /** Two literals cover the literal between them, one through each of its two paths. */
  lemma TooStrict(a: string, b: string, c: string)
    requires a != "" && IsPlain(a) && b == a + "\n" && c == b + "\n"
    ensures !ExcludesAreContained([a, c], [b]) && ExclusionsInside([a, c], [b])
  {
    var both := [a, c];
    assert both[0] == a && both[1] == c && b in [b];
    PlainIsLiteral(a);
    PlainIsLiteral(b);
    PlainIsLiteral(c);
    forall path | Matches(b, path)
      ensures Reaches(both, path)
    {
      MatchesAccepts(b, path);
      MatchesAccepts(a, path);
      MatchesAccepts(c, path);
      assert a in both && c in both;
    }
    assert |a| < |b| < |c|;
    assert forall i :: i in both ==> !PatternIsContained(i, b);
  }

  lemma PlainIsLiteral(s: string)
    requires s != "" && IsPlain(s)
    ensures IsValid(s) && Parse(s) == Literal(s) && !IsDirectory(s) && '*' !in s
  {
    PlainIsValid(s);
    assert s[|s| - 1] in s;
  }

  lemma MarkedEnd(e: string)
    requires IsValid(e) && Parse(e).Starred? && EndsWith(Witness(Parse(e)), "\n")
    ensures EndsWith(e, "\n")
  {
    ValidIsShaped(e);
    LastOfMarked(BeforeStar(e), AfterStar(e));
    assert e[|e| - 1] == '\n';
  }

  lemma LastOfMarked(before: string, after: string)
    ensures var path := before + "?????" + after;
            path[|path| - 1] == if after == "" then '?' else after[|after| - 1]
  {
  }
}
