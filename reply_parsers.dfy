/** The reply parsers of the proxy: each searches a device reply for its
    pattern and extracts the groups, with a fixed fallback when the pattern
    does not occur. */
module ReplyParsers {
  import opened PyText
  import opened ReplyGrammar

  const StatusPattern := Pattern("!status?", WordThenCount)
  const ProtocolPattern := Pattern("!net_protocol?", Identifier)
  const PortPattern := Pattern("!net_port?", TextBeforeSemicolon)
  const RecordPattern := Pattern("!record?", WordThenCount)
  const Net2filePattern := Pattern("!net2file?", WordThenCount)

  /** `parse_status`: the state word of a `status?` reply, else "unknown". */
  function ParseStatus(reply: string): string {
    SearchFromSpec(StatusPattern, reply, 0);
    match Search(StatusPattern, reply)
    case None => "unknown"
    case Some(m) => m.1[0]
  }

  /** `parse_protocol`: the identifier of a `net_protocol?` reply, else "unknown". */
  function ParseProtocol(reply: string): string {
    SearchFromSpec(ProtocolPattern, reply, 0);
    match Search(ProtocolPattern, reply)
    case None => "unknown"
    case Some(m) => m.1[0]
  }

  /** `parse_port`: the stripped text before ` ;` of a `net_port?` reply, else "unknown". */
  function ParsePort(reply: string): string {
    SearchFromSpec(PortPattern, reply, 0);
    match Search(PortPattern, reply)
    case None => "unknown"
    case Some(m) => Strip(m.1[0])
  }

  /** The reply of `record-status`: `"<state> <bytes>B"` when the `record?`
      pattern matches, else the stripped reply. */
  function RecordStatusText(reply: string): (r: string)
    ensures Search(RecordPattern, reply).None? ==> r == Strip(reply)
  {
    SearchFromSpec(RecordPattern, reply, 0);
    match Search(RecordPattern, reply)
    case None => Strip(reply)
    case Some(m) => m.1[0] + " " + m.1[1] + "B"
  }

  /** `parse_net2file`: the state word and the byte count of a `net2file?`
      reply, else ("unknown", 0). */
  function ParseNet2file(reply: string): (string, nat) {
    SearchFromSpec(Net2filePattern, reply, 0);
    match Search(Net2filePattern, reply)
    case None => ("unknown", 0)
    case Some(m) => MatchAtSpec(Net2filePattern, reply, m.0); (m.1[0], DigitsValue(m.1[1]))
  }

  /** Whatever the reply, the state sensor is a word or "unknown". */
  lemma {:induction false} ParseStatusShape(reply: string)
    ensures var r := ParseStatus(reply);
      r == "unknown" || (|r| > 0 && AllWord(r))
  {
    SearchFromSpec(StatusPattern, reply, 0);
    match Search(StatusPattern, reply)
    case None =>
    case Some(m) => MatchAtSpec(StatusPattern, reply, m.0);
  }

  /** Whatever the reply, the protocol sensor is an identifier or "unknown". */
  lemma {:induction false} ParseProtocolShape(reply: string)
    ensures var r := ParseProtocol(reply);
      r == "unknown" || (|r| > 0 && AllWord(r))
  {
    SearchFromSpec(ProtocolPattern, reply, 0);
    match Search(ProtocolPattern, reply)
    case None =>
    case Some(m) => MatchAtSpec(ProtocolPattern, reply, m.0);
  }

  /** Whatever the reply, the port sensor is one line without surrounding
      whitespace, or "unknown". */
  lemma {:induction false} ParsePortShape(reply: string)
    ensures var r := ParsePort(reply);
      r == "unknown" || (Trimmed(r) && '\n' !in r)
  {
    SearchFromSpec(PortPattern, reply, 0);
    match Search(PortPattern, reply)
    case None =>
    case Some(m) =>
      MatchAtSpec(PortPattern, reply, m.0);
      StripSpec(m.1[0]);
      StripNoNewline(m.1[0]);
  }

  /** Whatever the reply, the capture state is a word, or the pair is the
      ("unknown", 0) fallback. */
  lemma {:induction false} ParseNet2fileShape(reply: string)
    ensures var r := ParseNet2file(reply);
      r == ("unknown", 0) || (|r.0| > 0 && AllWord(r.0))
  {
    SearchFromSpec(Net2filePattern, reply, 0);
    match Search(Net2filePattern, reply)
    case None =>
    case Some(m) => MatchAtSpec(Net2filePattern, reply, m.0);
  }

  lemma {:induction false} StripNoNewline(s: string)
    requires '\n' !in s
    ensures '\n' !in Strip(s)
  {
    var x, y := StripParts(s);
    forall i | 0 <= i < |Strip(s)| ensures Strip(s)[i] != '\n' {
      assert Strip(s)[i] == s[|x| + i];
    }
  }

  // ---------------------------------------------------------------- round trips

  /** A `status?` reply built from a state word gives the word back. */
  lemma {:induction false} ParseStatusReads(pre: string, code: nat, word: string, count: string, rest: string)
    requires '!' !in pre
    requires |word| > 0 && AllWord(word)
    requires |count| > 0 && AllDigits(count)
    requires rest == [] || !IsDigit(rest[0])
    ensures ParseStatus(Head(pre, "!status?", code) + word + " : " + count + rest) == word
  {
    AppendAssoc5(Head(pre, "!status?", code), word, " : ", count, rest);
    MatchWordThenCount(pre, "!status?", code, word, count, rest);
    SearchAfterHead(StatusPattern, pre, code, word + " : " + count + rest, [word, count]);
  }

  /** A `net_protocol?` reply built from an identifier gives it back. */
  lemma {:induction false} ParseProtocolReads(pre: string, code: nat, ident: string, rest: string)
    requires '!' !in pre
    requires |ident| > 0 && AllWord(ident)
    requires rest == [] || !IsWordChar(rest[0])
    ensures ParseProtocol(Head(pre, "!net_protocol?", code) + ident + rest) == ident
  {
    AppendAssoc(Head(pre, "!net_protocol?", code), ident, rest);
    MatchIdentifier(pre, "!net_protocol?", code, ident, rest);
    SearchAfterHead(ProtocolPattern, pre, code, ident + rest, [ident]);
  }

  /** A `net_port?` reply built from a text gives the text back, stripped. */
  lemma {:induction false} ParsePortReads(pre: string, code: nat, text: string, rest: string)
    requires '!' !in pre
    requires |text| > 0 && '\n' !in text && ';' !in text
    ensures ParsePort(Head(pre, "!net_port?", code) + text + " ;" + rest) == Strip(text)
  {
    AppendAssoc4(Head(pre, "!net_port?", code), text, " ;", rest);
    MatchTextBeforeSemicolon(pre, "!net_port?", code, text, rest);
    SearchAfterHead(PortPattern, pre, code, text + " ;" + rest, [text]);
  }

  /** A `record?` reply built from a state and a byte count is summarised as
      `"<state> <count>B"`. */
  lemma {:induction false} RecordStatusReads(pre: string, code: nat, word: string, count: string, rest: string)
    requires '!' !in pre
    requires |word| > 0 && AllWord(word)
    requires |count| > 0 && AllDigits(count)
    requires rest == [] || !IsDigit(rest[0])
    ensures RecordStatusText(Head(pre, "!record?", code) + word + " : " + count + rest) == word + " " + count + "B"
  {
    AppendAssoc5(Head(pre, "!record?", code), word, " : ", count, rest);
    MatchWordThenCount(pre, "!record?", code, word, count, rest);
    SearchAfterHead(RecordPattern, pre, code, word + " : " + count + rest, [word, count]);
  }

  /** A `net2file?` reply built from a state and a byte count gives both back. */
  lemma {:induction false} ParseNet2fileReads(pre: string, code: nat, word: string, bytes: nat, rest: string)
    requires '!' !in pre
    requires |word| > 0 && AllWord(word)
    requires rest == [] || !IsDigit(rest[0])
    ensures ParseNet2file(Head(pre, "!net2file?", code) + word + " : " + NatToString(bytes) + rest) == (word, bytes)
  {
    var count := NatToString(bytes);
    AppendAssoc5(Head(pre, "!net2file?", code), word, " : ", count, rest);
    MatchWordThenCount(pre, "!net2file?", code, word, count, rest);
    SearchAfterHead(Net2filePattern, pre, code, word + " : " + count + rest, [word, count]);
    DigitsOfNat(bytes);
  }

  // ---------------------------------------------------------------- fallbacks

  /** A reply in which the tag does not occur parses as "unknown". */
  lemma {:induction false} ParseStatusFallback(reply: string)
    requires forall i :: 0 <= i <= |reply| ==> !LiteralAt(reply, i, "!status?")
    ensures ParseStatus(reply) == "unknown"
  {
    NoTagNoMatch(StatusPattern, reply);
  }

  lemma {:induction false} ParseProtocolFallback(reply: string)
    requires forall i :: 0 <= i <= |reply| ==> !LiteralAt(reply, i, "!net_protocol?")
    ensures ParseProtocol(reply) == "unknown"
  {
    NoTagNoMatch(ProtocolPattern, reply);
  }

  lemma {:induction false} ParsePortFallback(reply: string)
    requires forall i :: 0 <= i <= |reply| ==> !LiteralAt(reply, i, "!net_port?")
    ensures ParsePort(reply) == "unknown"
  {
    NoTagNoMatch(PortPattern, reply);
  }

  lemma {:induction false} ParseNet2fileFallback(reply: string)
    requires forall i :: 0 <= i <= |reply| ==> !LiteralAt(reply, i, "!net2file?")
    ensures ParseNet2file(reply) == ("unknown", 0)
  {
    NoTagNoMatch(Net2filePattern, reply);
  }
}
