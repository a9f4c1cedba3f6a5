/** The few operations on Python `str` and `int` that the proxy relies on, over
    `seq<char>`. Character classes are the ASCII part of Python's Unicode ones:
    the device's replies are decoded as ASCII with undecodable bytes dropped, so
    on replies they are exact. */
module PyText {

  datatype Option<T> = None | Some(value: T)

  /** `str.isspace()` / regex `\s` on ASCII: \t \n \v \f \r, \x1c-\x1f and space. */
  predicate IsSpace(c: char) {
    (9 <= c as int <= 13) || (28 <= c as int <= 32)
  }

  /** Regex `\d` on ASCII. */
  predicate IsDigit(c: char) {
    '0' <= c <= '9'
  }

  /** Regex `\w` on ASCII, which is also the class `[A-Za-z0-9_]`. */
  predicate IsWordChar(c: char) {
    ('a' <= c <= 'z') || ('A' <= c <= 'Z') || IsDigit(c) || c == '_'
  }

  predicate AllDigits(s: string) {
    forall i :: 0 <= i < |s| ==> IsDigit(s[i])
  }

  predicate AllWord(s: string) {
    forall i :: 0 <= i < |s| ==> IsWordChar(s[i])
  }

  /** `s.startswith(prefix)`. */
  predicate StartsWith(s: string, prefix: string) {
    |prefix| <= |s| && s[..|prefix|] == prefix
  }

  // ---------------------------------------------------------------- strip

  /** Number of whitespace characters at the front of `s`. */
  function LeadingSpace(s: string): (k: nat)
    ensures k <= |s|
  {
    if |s| == 0 || !IsSpace(s[0]) then 0 else 1 + LeadingSpace(s[1..])
  }

  /** The leading run is whitespace and ends at a non-space or at the end. */
  lemma {:induction false} LeadingSpaceSpec(s: string)
    ensures forall j :: 0 <= j < LeadingSpace(s) ==> IsSpace(s[j])
    ensures LeadingSpace(s) < |s| ==> !IsSpace(s[LeadingSpace(s)])
  {
    if |s| > 0 && IsSpace(s[0]) {
      LeadingSpaceSpec(s[1..]);
      forall j | 0 < j < LeadingSpace(s) ensures IsSpace(s[j]) {
        assert s[j] == s[1..][j - 1];
      }
    }
  }

  /** Number of whitespace characters at the end of `s`. */
  function TrailingSpace(s: string): (k: nat)
    ensures k <= |s|
  {
    if |s| == 0 || !IsSpace(s[|s| - 1]) then 0 else 1 + TrailingSpace(s[..|s| - 1])
  }

  /** The trailing run is whitespace and starts after a non-space or at the front. */
  lemma {:induction false} TrailingSpaceSpec(s: string)
    ensures forall j :: |s| - TrailingSpace(s) <= j < |s| ==> IsSpace(s[j])
    ensures TrailingSpace(s) < |s| ==> !IsSpace(s[|s| - 1 - TrailingSpace(s)])
  {
    if |s| > 0 && IsSpace(s[|s| - 1]) {
      var t := s[..|s| - 1];
      TrailingSpaceSpec(t);
      forall j | |s| - TrailingSpace(s) <= j < |s| - 1 ensures IsSpace(s[j]) {
        assert s[j] == t[j];
      }
    }
  }

  /** `s.strip()`. */
  function Strip(s: string): string {
    var t := s[LeadingSpace(s)..];
    t[..|t| - TrailingSpace(t)]
  }

  /** `strip` cuts the leading run and the trailing run of what is left. */
  lemma {:induction false} StripCut(s: string)
    ensures var l := LeadingSpace(s);
      l + TrailingSpace(s[l..]) <= |s| && Strip(s) == s[l..|s| - TrailingSpace(s[l..])]
  {
  }

  /** A slice with no whitespace at either end is trimmed. */
  lemma {:induction false} TrimmedSlice(s: string, a: nat, b: nat)
    requires a <= b <= |s|
    requires a < b ==> !IsSpace(s[a]) && !IsSpace(s[b - 1])
    ensures Trimmed(s[a..b])
  {
    if a < b {
      assert s[a..b][0] == s[a] && s[a..b][b - a - 1] == s[b - 1];
    }
  }

  /** The trailing run of `s[l..]`, stated on `s`. */
  lemma {:induction false} TrailingSpaceFrom(s: string, l: nat)
    requires l <= |s|
    ensures var e := TrailingSpace(s[l..]);
      l + e <= |s| &&
      (forall j :: |s| - e <= j < |s| ==> IsSpace(s[j])) &&
      (l + e < |s| ==> !IsSpace(s[|s| - 1 - e]))
  {
    var t := s[l..];
    TrailingSpaceSpec(t);
    var e := TrailingSpace(t);
    forall j | |s| - e <= j < |s| ensures IsSpace(s[j]) {
      assert s[j] == t[j - l];
    }
    if l + e < |s| {
      assert s[|s| - 1 - e] == t[|t| - 1 - e];
    }
  }

  lemma {:induction false} SplitThree<T>(s: seq<T>, a: nat, b: nat)
    requires a <= b <= |s|
    ensures s == s[..a] + s[a..b] + s[b..]
  {
  }

  /** `s` is the stripped text with only whitespace around it, and the
      stripped text neither starts nor ends with whitespace. */
  lemma {:induction false} StripSpec(s: string)
    ensures Trimmed(Strip(s))
    ensures LeadingSpace(s) + |Strip(s)| <= |s|
    ensures s == s[..LeadingSpace(s)] + Strip(s) + s[LeadingSpace(s) + |Strip(s)|..]
    ensures forall j :: 0 <= j < LeadingSpace(s) ==> IsSpace(s[j])
    ensures forall j :: LeadingSpace(s) + |Strip(s)| <= j < |s| ==> IsSpace(s[j])
  {
    var l := LeadingSpace(s);
    var b := |s| - TrailingSpace(s[l..]);
    StripCut(s);
    LeadingSpaceSpec(s);
    TrailingSpaceFrom(s, l);
    assert Strip(s) == s[l..b];
    TrimmedSlice(s, l, b);
    SplitThree(s, l, b);
  }

  predicate AllSpace(s: string) {
    forall i :: 0 <= i < |s| ==> IsSpace(s[i])
  }

  /** Neither starts nor ends with whitespace. */
  predicate Trimmed(s: string) {
    s == [] || (!IsSpace(s[0]) && !IsSpace(s[|s| - 1]))
  }

  lemma {:induction false} LeadingSpaceIs(s: string, k: nat)
    requires k <= |s| && AllSpace(s[..k])
    requires k < |s| ==> !IsSpace(s[k])
    ensures LeadingSpace(s) == k
    decreases k
  {
    if k > 0 {
      assert s[0] == s[..k][0];
      assert s[1..][..k - 1] == s[1..k];
      assert forall i :: 0 <= i < k - 1 ==> s[1..k][i] == s[..k][i + 1];
      LeadingSpaceIs(s[1..], k - 1);
    }
  }

  lemma {:induction false} TrailingSpaceIs(s: string, k: nat)
    requires k <= |s| && AllSpace(s[|s| - k..])
    requires k < |s| ==> !IsSpace(s[|s| - 1 - k])
    ensures TrailingSpace(s) == k
    decreases k
  {
    if k > 0 {
      assert s[|s| - 1] == s[|s| - k..][k - 1];
      var t := s[..|s| - 1];
      assert t[|t| - (k - 1)..] == s[|s| - k..|s| - 1];
      TrailingSpaceIs(t, k - 1);
    }
  }

  /** `strip` removes exactly the whitespace around a trimmed text. */
  lemma {:induction false} StripOf(x: string, r: string, y: string)
    requires AllSpace(x) && AllSpace(y) && Trimmed(r)
    ensures Strip(x + r + y) == r
  {
    var s := x + r + y;
    if |r| > 0 {
      assert s[..|x|] == x && s[|x|] == r[0];
      LeadingSpaceIs(s, |x|);
      var t := s[|x|..];
      assert t == r + y;
      assert t[|t| - |y|..] == y;
      assert t[|t| - 1 - |y|] == r[|r| - 1];
      TrailingSpaceIs(t, |y|);
      assert t[..|t| - |y|] == r;
    } else {
      assert s == x + y;
      assert forall i :: 0 <= i < |s| ==> IsSpace(s[i]) by {
        forall i | 0 <= i < |s| ensures IsSpace(s[i]) {
          if i < |x| { assert s[i] == x[i]; } else { assert s[i] == y[i - |x|]; }
        }
      }
      assert s[..|s|] == s;
      LeadingSpaceIs(s, |s|);
    }
  }

  /** Text without surrounding whitespace is left alone by `strip`. */
  lemma {:induction false} StripKeepsTrimmed(s: string)
    requires Trimmed(s)
    ensures Strip(s) == s
  {
    StripOf([], s, []);
    assert [] + s + [] == s;
  }

  /** `strip` is idempotent. */
  lemma {:induction false} StripIdempotent(s: string)
    ensures Strip(Strip(s)) == Strip(s)
  {
    StripSpec(s);
    StripKeepsTrimmed(Strip(s));
  }

  lemma {:induction false} AllSpaceConcat(a: string, b: string)
    requires AllSpace(a) && AllSpace(b)
    ensures AllSpace(a + b)
  {
    forall i | 0 <= i < |a + b| ensures IsSpace((a + b)[i]) {
      if i < |a| { assert (a + b)[i] == a[i]; } else { assert (a + b)[i] == b[i - |a|]; }
    }
  }

  /** `s` is its stripped text with whitespace around it. */
  lemma {:induction false} StripParts(s: string) returns (x: string, y: string)
    ensures s == x + Strip(s) + y && AllSpace(x) && AllSpace(y)
  {
    StripSpec(s);
    var l := LeadingSpace(s);
    var r := Strip(s);
    x := s[..l];
    y := s[l + |r|..];
    forall i | 0 <= i < |y| ensures IsSpace(y[i]) {
      assert y[i] == s[l + |r| + i];
    }
  }

  /** Extra whitespace around a text does not change what `strip` returns. */
  lemma {:induction false} StripPadding(pad1: string, s: string, pad2: string)
    requires AllSpace(pad1) && AllSpace(pad2)
    ensures Strip(pad1 + s + pad2) == Strip(s)
  {
    var x, y := StripParts(s);
    StripSpec(s);
    AllSpaceConcat(pad1, x);
    AllSpaceConcat(y, pad2);
    Regroup(pad1, x, Strip(s), y, pad2);
    StripOf(pad1 + x, Strip(s), y + pad2);
  }

  lemma {:induction false} Regroup(a: string, b: string, c: string, d: string, e: string)
    ensures a + (b + c + d) + e == (a + b) + c + (d + e)
  {
  }

  // ---------------------------------------------------------------- lower

  function LowerChar(c: char): char {
    if 'A' <= c <= 'Z' then (c as int + 32) as char else c
  }

  /** `s.lower()` for ASCII letters; every other character is kept. */
  function Lower(s: string): (r: string)
    ensures |r| == |s|
    ensures forall i :: 0 <= i < |r| ==> !('A' <= r[i] <= 'Z')
    ensures forall i :: 0 <= i < |r| ==> r[i] == s[i] || ('A' <= s[i] <= 'Z' && r[i] as int == s[i] as int + 32)
  {
    seq(|s|, i requires 0 <= i < |s| => LowerChar(s[i]))
  }

  // ---------------------------------------------------------------- join / split

  /** `sep.join(parts)`. */
  function Join(sep: string, parts: seq<string>): (r: string)
    ensures |parts| == 0 ==> r == ""
    ensures |parts| > 1 ==> StartsWith(r, parts[0] + sep)
  {
    if |parts| == 0 then ""
    else if |parts| == 1 then parts[0]
    else parts[0] + sep + Join(sep, parts[1..])
  }

  /** The least index of `c` in `s`. */
  function IndexOf(s: string, c: char): (r: Option<nat>)
    ensures r.None? <==> c !in s
    ensures r.Some? ==> r.value < |s| && s[r.value] == c && c !in s[..r.value]
  {
    if |s| == 0 then None
    else if s[0] == c then Some(0)
    else match IndexOf(s[1..], c)
      case None => None
      case Some(i) => assert s[1..][..i] == s[1..i + 1]; Some(i + 1)
  }

  /** `s.split(c)` for a one-character separator. */
  function Split(s: string, c: char): (parts: seq<string>)
    ensures |parts| >= 1
    ensures forall k :: 0 <= k < |parts| ==> c !in parts[k]
    ensures Join([c], parts) == s
    decreases |s|
  {
    match IndexOf(s, c)
    case None => [s]
    case Some(i) =>
      var rest := Split(s[i + 1..], c);
      assert ([s[..i]] + rest)[1..] == rest;
      assert s == s[..i] + [c] + s[i + 1..];
      [s[..i]] + rest
  }

  /** Splitting a joined list on the separator gives the list back, when no
      part contains the separator. */
  lemma {:induction false} SplitJoin(parts: seq<string>, c: char)
    requires |parts| >= 1
    requires forall i :: 0 <= i < |parts| ==> c !in parts[i]
    ensures Split(Join([c], parts), c) == parts
  {
    if |parts| == 1 {
      assert IndexOf(parts[0], c).None?;
    } else {
      var tail := Join([c], parts[1..]);
      var s := parts[0] + [c] + tail;
      assert s == Join([c], parts);
      assert s[|parts[0]|] == c;
      assert s[..|parts[0]|] == parts[0];
      assert IndexOf(s, c) == Some(|parts[0]|);
      assert s[|parts[0]| + 1..] == tail;
      SplitJoin(parts[1..], c);
      assert Split(s, c) == [parts[0]] + parts[1..];
    }
  }

  // ---------------------------------------------------------------- sequences

  lemma {:induction false} AppendAssoc<T>(a: seq<T>, b: seq<T>, c: seq<T>)
    ensures a + b + c == a + (b + c)
  {
  }

  lemma {:induction false} AppendAssoc4<T>(h: seq<T>, a: seq<T>, b: seq<T>, c: seq<T>)
    ensures h + a + b + c == h + (a + b + c)
  {
    AppendAssoc(h, a, b);
    AppendAssoc(h, a + b, c);
  }

  lemma {:induction false} AppendAssoc5<T>(h: seq<T>, a: seq<T>, b: seq<T>, c: seq<T>, d: seq<T>)
    ensures h + a + b + c + d == h + (a + b + c + d)
  {
    AppendAssoc4(h, a, b, c);
    AppendAssoc(h, a + b + c, d);
  }

  lemma {:induction false} AppendThree<T>(l: seq<T>, x: T, y: T, z: T)
    ensures l + [x] + [y] + [z] == l + [x, y, z]
  {
  }

  // ---------------------------------------------------------------- integers

  function DigitChar(d: nat): (c: char)
    requires d < 10
    ensures IsDigit(c)
  {
    ('0' as int + d) as char
  }

  function DigitValue(c: char): (d: nat)
    requires IsDigit(c)
    ensures d < 10 && DigitChar(d) == c
  {
    c as int - '0' as int
  }

  /** `str(n)` for a natural number: canonical decimal, no leading zero. */
  function NatToString(n: nat): (s: string)
    ensures |s| > 0 && AllDigits(s)
    ensures s[0] == '0' <==> n == 0
    ensures n == 0 ==> s == "0"
  {
    if n < 10 then [DigitChar(n)] else NatToString(n / 10) + [DigitChar(n % 10)]
  }

  /** The value of a string of decimal digits. */
  function DigitsValue(s: string): nat
    requires AllDigits(s)
  {
    if |s| == 0 then 0 else 10 * DigitsValue(s[..|s| - 1]) + DigitValue(s[|s| - 1])
  }

  /** Reading back the decimal text of `n` gives `n`. */
  lemma {:induction false} DigitsOfNat(n: nat)
    ensures DigitsValue(NatToString(n)) == n
  {
    if n >= 10 {
      var s := NatToString(n);
      assert s == NatToString(n / 10) + [DigitChar(n % 10)];
      assert s[..|s| - 1] == NatToString(n / 10);
      DigitsOfNat(n / 10);
    }
  }

  /** `str(i)` for any integer. */
  function IntToString(i: int): (s: string)
    ensures |s| > 0
  {
    if i < 0 then "-" + NatToString(-i) else NatToString(i)
  }

  /** The integer literals the model accepts for Python's `int(s)`: an optional
      sign followed by at least one ASCII digit. */
  predicate IsIntLiteral(s: string) {
    |s| > 0 &&
    if s[0] == '+' || s[0] == '-' then |s| > 1 && AllDigits(s[1..]) else AllDigits(s)
  }

  /** `int(s)`, or `None` where Python raises `ValueError`. */
  function ParseInt(s: string): (r: Option<int>)
    ensures r.Some? <==> IsIntLiteral(s)
    ensures r.Some? && s[0] == '-' ==> r.value <= 0
    ensures r.Some? && s[0] != '-' ==> r.value >= 0
  {
    if !IsIntLiteral(s) then None
    else if s[0] == '-' then Some(-(DigitsValue(s[1..]) as int))
    else if s[0] == '+' then Some(DigitsValue(s[1..]))
    else Some(DigitsValue(s))
  }

  /** `int(str(i)) == i`. */
  lemma {:induction false} IntRoundTrip(i: int)
    ensures ParseInt(IntToString(i)) == Some(i)
  {
    var s := IntToString(i);
    if i < 0 {
      assert s[1..] == NatToString(-i);
      DigitsOfNat(-i);
    } else {
      DigitsOfNat(i);
    }
  }

  /** `str(ValueError)` raised by `int(s)`; Python's quoting of `s` by `repr`
      is modelled as plain single quotes. */
  function IntError(s: string): string {
    "invalid literal for int() with base 10: '" + s + "'"
  }
}
