/** The reply patterns of the proxy's parsers, as explicit matchers.

    Every pattern is `<tag>\s+\d+\s:\s` followed by one of three shapes:
      WordThenCount        `(\w+)\s:\s(\d+)`
      Identifier           `([A-Za-z0-9_]+)`
      TextBeforeSemicolon  `(.+?)\s;`
    Each greedy run is followed by a character outside its class (`\s+` by a
    digit, `\d+` and `\w+` by whitespace), so a backtracking regex engine can
    only succeed with the longest run; the matchers below take that run. The
    lazy `.+?` takes the shortest group after which `\s;` follows. `re.search`
    returns the match that starts at the least position. */
module ReplyGrammar {
  import opened PyText

  datatype CharClass = Space | Digit | Word

  predicate InClass(c: char, k: CharClass) {
    match k
    case Space => IsSpace(c)
    case Digit => IsDigit(c)
    case Word => IsWordChar(c)
  }

  datatype Shape = WordThenCount | Identifier | TextBeforeSemicolon

  datatype Pattern = Pattern(tag: string, shape: Shape)

  function Arity(shape: Shape): nat {
    if shape == WordThenCount then 2 else 1
  }

  /** End of the longest run of class `k` that starts at `i`. */
  function RunEnd(s: string, i: nat, k: CharClass): (j: nat)
    requires i <= |s|
    ensures i <= j <= |s|
    decreases |s| - i
  {
    if i < |s| && InClass(s[i], k) then RunEnd(s, i + 1, k) else i
  }

  /** The run is of class `k` and is followed by a character outside it, or
      by the end of `s`. */
  lemma {:induction false} RunEndSpec(s: string, i: nat, k: CharClass)
    requires i <= |s|
    ensures forall m :: i <= m < RunEnd(s, i, k) ==> InClass(s[m], k)
    ensures RunEnd(s, i, k) < |s| ==> !InClass(s[RunEnd(s, i, k)], k)
    decreases |s| - i
  {
    if i < |s| && InClass(s[i], k) {
      RunEndSpec(s, i + 1, k);
    }
  }

  /** A run is pinned down by its two ends. */
  lemma {:induction false} RunEndAt(s: string, i: nat, j: nat, k: CharClass)
    requires i <= j <= |s|
    requires forall m :: i <= m < j ==> InClass(s[m], k)
    requires j < |s| ==> !InClass(s[j], k)
    ensures RunEnd(s, i, k) == j
    decreases j - i
  {
    if i < j {
      RunEndAt(s, i + 1, j, k);
    }
  }

  predicate LiteralAt(s: string, i: nat, lit: string) {
    i + |lit| <= |s| && s[i..i + |lit|] == lit
  }

  /** `\s:\s`: one whitespace character, a colon, one whitespace character. */
  predicate SeparatorAt(s: string, i: nat) {
    i + 3 <= |s| && IsSpace(s[i]) && s[i + 1] == ':' && IsSpace(s[i + 2])
  }

  /** `<tag>\s+\d+\s:\s` at `i`: the position just after it. */
  function HeadAt(s: string, i: nat, tag: string): (r: Option<nat>)
    ensures r.Some? ==> LiteralAt(s, i, tag) && i + |tag| + 5 <= r.value <= |s|
  {
    if !LiteralAt(s, i, tag) then None
    else
      var a := i + |tag|;
      var b := RunEnd(s, a, Space);
      var c := RunEnd(s, b, Digit);
      if a < b && b < c && SeparatorAt(s, c) then Some(c + 3) else None
  }

  /** Can the lazy group `(.+?)` that starts at `a` end at `k`, with `\s;` after it? */
  predicate LazyStop(s: string, a: nat, k: nat) {
    a < k && k + 2 <= |s| && IsSpace(s[k]) && s[k + 1] == ';' &&
    forall m :: a <= m < k ==> s[m] != '\n'
  }

  /** The least end `k >= j` of the lazy group at `a`, the ends before `j` having
      been tried and the group so far having no newline (`.` excludes it). */
  function LazyEnd(s: string, a: nat, j: nat): (r: Option<nat>)
    requires a < j <= |s| + 1
    requires forall m :: a <= m < j - 1 ==> s[m] != '\n'
    ensures r.Some? ==> j <= r.value && r.value + 2 <= |s|
    decreases |s| + 1 - j
  {
    if j > |s| || s[j - 1] == '\n' then None
    else if j + 2 <= |s| && IsSpace(s[j]) && s[j + 1] == ';' then Some(j)
    else LazyEnd(s, a, j + 1)
  }

  /** The lazy group ends at the least possible stop from `j` on, and there
      is none when it fails. */
  lemma {:induction false} LazyEndSpec(s: string, a: nat, j: nat)
    requires a < j <= |s| + 1
    requires forall m :: a <= m < j - 1 ==> s[m] != '\n'
    ensures var r := LazyEnd(s, a, j);
      (r.Some? ==> LazyStop(s, a, r.value)) &&
      (r.Some? ==> forall k :: j <= k < r.value ==> !LazyStop(s, a, k)) &&
      (r.None? ==> forall k :: j <= k ==> !LazyStop(s, a, k))
    decreases |s| + 1 - j
  {
    if j > |s| || s[j - 1] == '\n' {
    } else if j + 2 <= |s| && IsSpace(s[j]) && s[j + 1] == ';' {
    } else {
      LazyEndSpec(s, a, j + 1);
    }
  }

  /** The groups of pattern `p` when it matches at position `i`. */
  function MatchAt(p: Pattern, s: string, i: nat): (r: Option<seq<string>>)
    ensures r.Some? ==> |r.value| == Arity(p.shape) && |r.value[0]| > 0
  {
    match HeadAt(s, i, p.tag)
    case None => None
    case Some(a) =>
      match p.shape
      case WordThenCount =>
        var b := RunEnd(s, a, Word);
        if a < b && SeparatorAt(s, b) then
          var c := RunEnd(s, b + 3, Digit);
          if b + 3 < c then Some([s[a..b], s[b + 3..c]]) else None
        else None
      case Identifier =>
        var b := RunEnd(s, a, Word);
        if a < b then Some([s[a..b]]) else None
      case TextBeforeSemicolon =>
        match LazyEnd(s, a, a + 1)
        case None => None
        case Some(b) => Some([s[a..b]])
  }

  /** A slice inside a run of word characters is a word. */
  lemma {:induction false} WordSlice(s: string, a: nat, b: nat)
    requires a <= b <= |s|
    requires forall m :: a <= m < b ==> InClass(s[m], Word)
    ensures AllWord(s[a..b])
  {
    forall m | 0 <= m < b - a ensures IsWordChar(s[a..b][m]) {
      assert s[a..b][m] == s[a + m] && InClass(s[a + m], Word);
    }
  }

  /** A slice inside a run of digits is all digits. */
  lemma {:induction false} DigitSlice(s: string, a: nat, b: nat)
    requires a <= b <= |s|
    requires forall m :: a <= m < b ==> InClass(s[m], Digit)
    ensures AllDigits(s[a..b])
  {
    forall m | 0 <= m < b - a ensures IsDigit(s[a..b][m]) {
      assert s[a..b][m] == s[a + m] && InClass(s[a + m], Digit);
    }
  }

  /** A slice of a stretch without newlines has none. */
  lemma {:induction false} NoNewlineSlice(s: string, a: nat, b: nat)
    requires a <= b <= |s|
    requires forall m :: a <= m < b ==> s[m] != '\n'
    ensures '\n' !in s[a..b]
  {
    forall m | 0 <= m < b - a ensures s[a..b][m] != '\n' {
      assert s[a..b][m] == s[a + m];
    }
  }

  /** The groups of `(\w+)\s:\s(\d+)` after the head ending at `a`. */
  lemma {:induction false} WordThenCountGroups(s: string, a: nat, g: seq<string>)
    requires a <= |s|
    requires var b := RunEnd(s, a, Word);
      a < b && SeparatorAt(s, b) && b + 3 < RunEnd(s, b + 3, Digit) &&
      g == [s[a..b], s[b + 3..RunEnd(s, b + 3, Digit)]]
    ensures |g| == 2 && AllWord(g[0]) && |g[1]| > 0 && AllDigits(g[1])
  {
    var b := RunEnd(s, a, Word);
    var c := RunEnd(s, b + 3, Digit);
    RunEndSpec(s, a, Word);
    WordSlice(s, a, b);
    RunEndSpec(s, b + 3, Digit);
    DigitSlice(s, b + 3, c);
  }

  /** The group of `([A-Za-z0-9_]+)` after the head ending at `a`. */
  lemma {:induction false} IdentifierGroup(s: string, a: nat, g: string)
    requires a <= |s|
    requires g == s[a..RunEnd(s, a, Word)]
    ensures AllWord(g)
  {
    RunEndSpec(s, a, Word);
    WordSlice(s, a, RunEnd(s, a, Word));
  }

  /** The group of `(.+?)\s;` after the head ending at `a`. */
  lemma {:induction false} TextGroup(s: string, a: nat, b: nat)
    requires a < |s| + 1
    requires LazyEnd(s, a, a + 1) == Some(b)
    ensures b <= |s| && '\n' !in s[a..b]
  {
    LazyEndSpec(s, a, a + 1);
    assert LazyStop(s, a, b);
    NoNewlineSlice(s, a, b);
  }

  /** A match starts with the tag, and its groups are of the classes the
      pattern's shape names. */
  lemma {:induction false} MatchAtSpec(p: Pattern, s: string, i: nat)
    ensures var r := MatchAt(p, s, i);
      (r.Some? ==> LiteralAt(s, i, p.tag)) &&
      (r.Some? && p.shape != TextBeforeSemicolon ==> AllWord(r.value[0])) &&
      (r.Some? && p.shape == WordThenCount ==> |r.value[1]| > 0 && AllDigits(r.value[1])) &&
      (r.Some? && p.shape == TextBeforeSemicolon ==> '\n' !in r.value[0])
  {
    var r := MatchAt(p, s, i);
    if r.Some? {
      var a := HeadAt(s, i, p.tag).value;
      match p.shape
      case WordThenCount =>
        WordThenCountGroups(s, a, r.value);
      case Identifier =>
        IdentifierGroup(s, a, r.value[0]);
      case TextBeforeSemicolon =>
        TextGroup(s, a, LazyEnd(s, a, a + 1).value);
    }
  }

  /** `re.search` from position `from` on: the least matching position and its groups. */
  function SearchFrom(p: Pattern, s: string, from: nat): Option<(nat, seq<string>)>
    decreases |s| + 1 - from
  {
    if from > |s| then None
    else match MatchAt(p, s, from)
      case Some(g) => Some((from, g))
      case None => SearchFrom(p, s, from + 1)
  }

  /** The search finds the least position from `from` on where the pattern
      matches, with that match's groups, and nothing when there is none. */
  lemma {:induction false} SearchFromSpec(p: Pattern, s: string, from: nat)
    ensures var r := SearchFrom(p, s, from);
      (r.Some? ==> from <= r.value.0 <= |s| && MatchAt(p, s, r.value.0) == Some(r.value.1)) &&
      (r.Some? ==> forall j :: from <= j < r.value.0 ==> MatchAt(p, s, j).None?) &&
      (r.None? ==> forall j :: from <= j <= |s| ==> MatchAt(p, s, j).None?)
    decreases |s| + 1 - from
  {
    if from <= |s| && MatchAt(p, s, from).None? {
      SearchFromSpec(p, s, from + 1);
      var r := SearchFrom(p, s, from + 1);
      assert SearchFrom(p, s, from) == r;
      if r.Some? {
        forall j | from <= j < r.value.0 ensures MatchAt(p, s, j).None? {
          if j > from { assert from + 1 <= j < r.value.0; }
        }
      } else {
        forall j | from <= j <= |s| ensures MatchAt(p, s, j).None? {
          if j > from { assert from + 1 <= j <= |s|; }
        }
      }
    }
  }

  function Search(p: Pattern, s: string): Option<(nat, seq<string>)> {
    SearchFrom(p, s, 0)
  }

  /** Where the tag does not occur, the search finds nothing. */
  lemma {:induction false} NoTagNoMatch(p: Pattern, s: string)
    requires forall i :: 0 <= i <= |s| ==> !LiteralAt(s, i, p.tag)
    ensures Search(p, s).None?
  {
    SearchFromSpec(p, s, 0);
  }

  /** Positions in a preamble without `!` cannot start a match of a tag that
      begins with `!`, so the search skips them. */
  lemma {:induction false}  SkipPreamble(p: Pattern, s: string, k: nat, from: nat)
    requires |p.tag| > 0 && p.tag[0] == '!'
    requires from <= k <= |s|
    requires forall m :: from <= m < k ==> s[m] != '!'
    ensures SearchFrom(p, s, from) == SearchFrom(p, s, k)
    decreases k - from
  {
    if from < k {
      assert !LiteralAt(s, from, p.tag) by {
        if from + |p.tag| <= |s| {
          assert s[from..from + |p.tag|][0] == s[from];
        }
      }
      assert HeadAt(s, from, p.tag).None?;
      assert SearchFrom(p, s, from) == SearchFrom(p, s, from + 1);
      SkipPreamble(p, s, k, from + 1);
    }
  }

  // ---------------------------------------------------------------- replies as the device writes them

  /** `<pre><tag> <code> : ` — a reply head after some preamble. */
  function Head(pre: string, tag: string, code: nat): string {
    pre + tag + " " + NatToString(code) + " : "
  }

  /** The head matches and ends where the field text begins. */
  lemma {:induction false} HeadMatches(pre: string, tag: string, code: nat, rest: string)
    ensures var s := Head(pre, tag, code) + rest;
      HeadAt(s, |pre|, tag) == Some(|Head(pre, tag, code)|)
  {
    var d := NatToString(code);
    var s := Head(pre, tag, code) + rest;
    var a := |pre| + |tag|;
    assert s == pre + tag + " " + d + " : " + rest;
    assert s[|pre|..a] == tag;
    assert s[a] == ' ';
    assert s[a + 1] == d[0];
    RunEndAt(s, a, a + 1, Space);
    forall m | a + 1 <= m < a + 1 + |d| ensures IsDigit(s[m]) {
      assert s[m] == d[m - a - 1];
    }
    assert s[a + 1 + |d|] == ' ';
    RunEndAt(s, a + 1, a + 1 + |d|, Digit);
    assert SeparatorAt(s, a + 1 + |d|);
  }

  /** Cutting `s` where a known prefix ends. */
  lemma {:induction false} SplitAt(s: string, a: nat, x: string, y: string)
    requires a <= |s| && s[a..] == x + y
    ensures a + |x| <= |s| && s[a..a + |x|] == x && s[a + |x|..] == y
    ensures |x| > 0 ==> s[a] == x[0]
  {
    assert s[a..a + |x|] == s[a..][..|x|];
    assert s[a + |x|..] == s[a..][|x|..];
    if |x| > 0 { assert s[a] == s[a..][0]; }
  }

  /** A head after a preamble starts with the preamble. */
  lemma {:induction false} HeadPrefix(pre: string, tag: string, code: nat, rest: string)
    ensures var s := Head(pre, tag, code) + rest; |pre| <= |s| && s[..|pre|] == pre
  {
    var s := Head(pre, tag, code) + rest;
    assert s == pre + (tag + " " + NatToString(code) + " : " + rest);
  }

  /** A run of class `k` of text `run` at `a`, ended by `stop` or by the end of `s`. */
  lemma {:induction false} RunOf(s: string, a: nat, run: string, stop: string, k: CharClass)
    requires a <= |s| && s[a..] == run + stop
    requires forall m :: 0 <= m < |run| ==> InClass(run[m], k)
    requires stop == [] || !InClass(stop[0], k)
    ensures RunEnd(s, a, k) == a + |run|
    ensures s[a..a + |run|] == run
  {
    forall m | a <= m < a + |run| ensures InClass(s[m], k) {
      assert s[m] == s[a..][m - a];
    }
    if a + |run| < |s| {
      assert s[a + |run|] == s[a..][|run|] == stop[0];
    }
    RunEndAt(s, a, a + |run|, k);
    assert s[a..a + |run|] == s[a..][..|run|];
  }

  /** The part ` : <digits><rest>` at position `b`. */
  lemma {:induction false} CountFields(s: string, b: nat, count: string, rest: string)
    requires b <= |s| && s[b..] == " : " + (count + rest)
    requires |count| > 0 && AllDigits(count)
    requires rest == [] || !IsDigit(rest[0])
    ensures SeparatorAt(s, b)
    ensures RunEnd(s, b + 3, Digit) == b + 3 + |count|
    ensures s[b + 3..b + 3 + |count|] == count
  {
    SplitAt(s, b, " : ", count + rest);
    assert s[b..][1] == ':' && s[b..][2] == ' ';
    RunOf(s, b + 3, count, rest, Digit);
  }

  /** The field part `<word> : <digits><rest>` at position `a`. */
  lemma {:induction false} WordThenCountFields(s: string, a: nat, word: string, count: string, rest: string)
    requires a <= |s| && s[a..] == word + (" : " + (count + rest))
    requires |word| > 0 && AllWord(word)
    requires |count| > 0 && AllDigits(count)
    requires rest == [] || !IsDigit(rest[0])
    ensures RunEnd(s, a, Word) == a + |word|
    ensures SeparatorAt(s, a + |word|)
    ensures RunEnd(s, a + |word| + 3, Digit) == a + |word| + 3 + |count|
    ensures s[a..a + |word|] == word
    ensures s[a + |word| + 3..a + |word| + 3 + |count|] == count
  {
    RunOf(s, a, word, " : " + (count + rest), Word);
    SplitAt(s, a, word, " : " + (count + rest));
    CountFields(s, a + |word|, count, rest);
  }

  /** After a head, the field part of `WordThenCount` yields its two groups. */
  lemma {:induction false} MatchWordThenCountAt(s: string, i: nat, tag: string, word: string, count: string, rest: string)
    requires HeadAt(s, i, tag).Some?
    requires s[HeadAt(s, i, tag).value..] == word + (" : " + (count + rest))
    requires |word| > 0 && AllWord(word)
    requires |count| > 0 && AllDigits(count)
    requires rest == [] || !IsDigit(rest[0])
    ensures MatchAt(Pattern(tag, WordThenCount), s, i) == Some([word, count])
  {
    WordThenCountFields(s, HeadAt(s, i, tag).value, word, count, rest);
  }

  /** `<head><word> : <digits><rest>` matches with groups `word` and `digits`, when
      `rest` does not continue the digits. */
  lemma {:induction false} MatchWordThenCount(pre: string, tag: string, code: nat, word: string, count: string, rest: string)
    requires |word| > 0 && AllWord(word)
    requires |count| > 0 && AllDigits(count)
    requires rest == [] || !IsDigit(rest[0])
    ensures MatchAt(Pattern(tag, WordThenCount), Head(pre, tag, code) + (word + " : " + count + rest), |pre|) == Some([word, count])
  {
    var h := Head(pre, tag, code);
    var body := word + " : " + count + rest;
    AppendAssoc4(word, " : ", count, rest);
    AppendAssoc(" : ", count, rest);
    assert body == word + (" : " + (count + rest));
    HeadMatches(pre, tag, code, body);
    assert (h + body)[|h|..] == body;
    MatchWordThenCountAt(h + body, |pre|, tag, word, count, rest);
  }

  /** `<head><ident><rest>` matches with group `ident`, when `rest` does not
      continue the identifier. */
  lemma {:induction false} MatchIdentifier(pre: string, tag: string, code: nat, ident: string, rest: string)
    requires |ident| > 0 && AllWord(ident)
    requires rest == [] || !IsWordChar(rest[0])
    ensures MatchAt(Pattern(tag, Identifier), Head(pre, tag, code) + (ident + rest), |pre|) == Some([ident])
  {
    var h := Head(pre, tag, code);
    var s := h + (ident + rest);
    HeadMatches(pre, tag, code, ident + rest);
    assert s[|h|..] == ident + rest;
    RunOf(s, |h|, ident, rest, Word);
  }

  /** The lazy group at `a` ends at `b` when `\s;` follows `b`, no newline
      comes before it, and no earlier end from `j` on is followed by `\s;`. */
  lemma {:induction false} LazyEndAt(s: string, a: nat, j: nat, b: nat)
    requires a < j <= b && b + 2 <= |s| && IsSpace(s[b]) && s[b + 1] == ';'
    requires forall m :: a <= m < b ==> s[m] != '\n'
    requires forall k :: j <= k < b ==> !(IsSpace(s[k]) && s[k + 1] == ';')
    ensures LazyEnd(s, a, j) == Some(b)
    decreases b - j
  {
    if j < b {
      LazyEndAt(s, a, j + 1, b);
    }
  }

  /** The field part `<text> ;<rest>` at position `a`. */
  lemma {:induction false} TextField(s: string, a: nat, text: string, rest: string)
    requires a <= |s| && s[a..] == text + " ;" + rest
    requires |text| > 0 && '\n' !in text && ';' !in text
    ensures LazyEnd(s, a, a + 1) == Some(a + |text|)
    ensures s[a..a + |text|] == text
  {
    AppendAssoc(text, " ;", rest);
    SplitAt(s, a, text, " ;" + rest);
    var b := a + |text|;
    SplitAt(s, b, " ;", rest);
    forall m | a <= m < b ensures s[m] == text[m - a] {
      assert s[m] == s[a..a + |text|][m - a];
    }
    assert s[b] == ' ' && s[b + 1] == ';' by {
      assert s[b..b + 2] == " ;";
      assert s[b] == s[b..b + 2][0] && s[b + 1] == s[b..b + 2][1];
    }
    LazyEndAt(s, a, a + 1, b);
  }

  /** `<head><text> ;<rest>` matches with group `text`, when `text` is not empty
      and holds neither a newline nor a semicolon. */
  lemma {:induction false} MatchTextBeforeSemicolon(pre: string, tag: string, code: nat, text: string, rest: string)
    requires |text| > 0 && '\n' !in text && ';' !in text
    ensures MatchAt(Pattern(tag, TextBeforeSemicolon), Head(pre, tag, code) + (text + " ;" + rest), |pre|) == Some([text])
  {
    var h := Head(pre, tag, code);
    var body := text + " ;" + rest;
    HeadMatches(pre, tag, code, body);
    assert (h + body)[|h|..] == body;
    TextField(h + body, |h|, text, rest);
  }

  /** The search finds a match that starts just after a preamble without `!`. */
  lemma {:induction false} SearchAfterPreamble(p: Pattern, s: string, pre: string, groups: seq<string>)
    requires |p.tag| > 0 && p.tag[0] == '!'
    requires '!' !in pre && |pre| <= |s| && s[..|pre|] == pre
    requires MatchAt(p, s, |pre|) == Some(groups)
    ensures Search(p, s) == Some((|pre|, groups))
  {
    forall m | 0 <= m < |pre| ensures s[m] != '!' {
      assert s[m] == pre[m];
    }
    SkipPreamble(p, s, |pre|, 0);
  }

  /** A reply whose head follows a preamble without `!` is found at the head. */
  lemma {:induction false} SearchAfterHead(p: Pattern, pre: string, code: nat, body: string, groups: seq<string>)
    requires |p.tag| > 0 && p.tag[0] == '!' && '!' !in pre
    requires MatchAt(p, Head(pre, p.tag, code) + body, |pre|) == Some(groups)
    ensures Search(p, Head(pre, p.tag, code) + body) == Some((|pre|, groups))
  {
    HeadPrefix(pre, p.tag, code, body);
    SearchAfterPreamble(p, Head(pre, p.tag, code) + body, pre, groups);
  }
}
