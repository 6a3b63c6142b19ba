/** Identifiers, keywords, string prefixes, operators and IPython escape commands. */
module Words {
  import opened Text
  import opened Tokens

  datatype Mode = Module | Expression | Ipython

  /** A source with the mode it is read in, and the outside tables the lexer consults: the two XID
      properties of Unicode, NFKC normalisation and the parser of floating-point literals. */
  datatype Env = Env(
    src: string, mode: Mode,
    xidStart: char -> bool, xidContinue: char -> bool,
    nfkc: string -> string, isFloat: string -> bool)

  const KEYWORDS: set<string> := {
    "False", "None", "True", "and", "as", "assert", "async", "await", "break", "case", "class", "continue",
    "def", "del", "elif", "else", "except", "finally", "for", "from", "global", "if", "import", "in", "is",
    "lambda", "match", "nonlocal", "not", "or", "pass", "raise", "return", "try", "type", "while", "with", "yield"
  }

  predicate IsAsciiIdentifierStart(c: char) {
    'a' <= c <= 'z' || 'A' <= c <= 'Z' || c == '_'
  }

  predicate ContinuesIdentifier(env: Env, c: char) {
    if IsAscii(c) then IsAsciiIdentifierStart(c) || IsDigit(c) else env.xidContinue(c)
  }

  /** The end of the identifier characters from `p` on, and whether every character looked at so far is ASCII. */
  function EatIdentifier(env: Env, p: nat, isAscii: bool): (r: (nat, bool))
    requires p <= |env.src|
    ensures p <= r.0 <= |env.src|
    decreases |env.src| - p
  {
    if p == |env.src| then (p, isAscii)
    else
      var stillAscii := isAscii && IsAscii(env.src[p]);
      if ContinuesIdentifier(env, env.src[p]) then EatIdentifier(env, p + 1, stillAscii) else (p, stillAscii)
  }

  datatype Word = Word(pos: nat, kind: TokenKind, value: TokenValue)

  /** The identifier or keyword that begins at `start`. */
  function ScanWord(env: Env, start: nat): (r: Word)
    requires start < |env.src|
    ensures start < r.pos <= |env.src|
    ensures r.kind.Name? || r.kind.Keyword?
  {
    var run := EatIdentifier(env, start + 1, IsAscii(env.src[start]));
    var text := env.src[start..run.0];
    if !run.1 then Word(run.0, Name, NameValue(env.nfkc(text)))
    else if text in KEYWORDS then Word(run.0, Keyword(text), NoValue)
    else Word(run.0, Name, NameValue(text))
  }

  lemma {:induction false} AsciiFlag(env: Env, p: nat, isAscii: bool)
    requires p <= |env.src|
    ensures var r := EatIdentifier(env, p, isAscii);
            && (forall k :: p <= k < r.0 ==> ContinuesIdentifier(env, env.src[k]))
            && (r.0 < |env.src| ==> !ContinuesIdentifier(env, env.src[r.0]))
            && (r.1 <==> isAscii && forall k :: p <= k <= r.0 && k < |env.src| ==> IsAscii(env.src[k]))
    decreases |env.src| - p
  {
    if p < |env.src| && ContinuesIdentifier(env, env.src[p]) {
      AsciiFlag(env, p + 1, isAscii && IsAscii(env.src[p]));
    }
  }

  /** A keyword's spelling is a keyword token exactly when the character after it is ASCII or the end of
      the text: the flag meant to say that the identifier is ASCII also covers the character that ends it. */
  lemma KeywordToken(env: Env, start: nat)
    requires start < |env.src| && IsAscii(env.src[start])
    ensures var r := ScanWord(env, start);
            var text := env.src[start..r.pos];
            && (forall k :: start < k < r.pos ==> ContinuesIdentifier(env, env.src[k]))
            && (r.pos < |env.src| ==> !ContinuesIdentifier(env, env.src[r.pos]))
            && ((forall c <- text :: IsAscii(c)) ==>
                  (r.kind == Keyword(text) <==> text in KEYWORDS && (r.pos < |env.src| ==> IsAscii(env.src[r.pos]))))
  {
    hide EatIdentifier;
    AsciiFlag(env, start + 1, true);
    var r := ScanWord(env, start);
    var text := env.src[start..r.pos];
    if forall c <- text :: IsAscii(c) {
      forall k | start <= k < r.pos ensures IsAscii(env.src[k]) {
        assert text[k - start] in text;
      }
    }
  }

  /** `if` followed by a non-ASCII character that is no part of an identifier is lexed as a name. */
  lemma KeywordBeforeNonAscii(env: Env)
    requires env.src == "if\U{20AC}" && !env.xidContinue('\U{20AC}')
    ensures ScanWord(env, 0).kind == Name && ScanWord(env, 0).pos == 2
  {
    assert EatIdentifier(env, 2, true) == (2, false);
    assert EatIdentifier(env, 1, true) == (2, false);
  }

  predicate IsQuote(c: char) {
    c == '\'' || c == '"'
  }

  /** The flags of a one-letter string prefix. */
  function SinglePrefix(c: char): Option<Flags> {
    if c == 'f' || c == 'F' then Some(NO_FLAGS.(fstring := true))
    else if c == 'u' || c == 'U' then Some(NO_FLAGS.(unicode := true))
    else if c == 'b' || c == 'B' then Some(NO_FLAGS.(bytes := true))
    else if c == 'r' then Some(NO_FLAGS.(rawLower := true))
    else if c == 'R' then Some(NO_FLAGS.(rawUpper := true))
    else None
  }

  /** The flags of a two-letter string prefix. */
  function DoublePrefix(a: char, b: char): Option<Flags> {
    if (a == 'r' && (b == 'f' || b == 'F')) || ((a == 'f' || a == 'F') && b == 'r') then
      Some(NO_FLAGS.(fstring := true, rawLower := true))
    else if (a == 'R' && (b == 'f' || b == 'F')) || ((a == 'f' || a == 'F') && b == 'R') then
      Some(NO_FLAGS.(fstring := true, rawUpper := true))
    else if (a == 'r' && (b == 'b' || b == 'B')) || ((a == 'b' || a == 'B') && b == 'r') then
      Some(NO_FLAGS.(bytes := true, rawLower := true))
    else if (a == 'R' && (b == 'b' || b == 'B')) || ((a == 'b' || a == 'B') && b == 'R') then
      Some(NO_FLAGS.(bytes := true, rawUpper := true))
    else None
  }

  function Union(a: Flags, b: Flags): Flags {
    Flags(a.doubleQuotes || b.doubleQuotes, a.tripleQuoted || b.tripleQuoted, a.unicode || b.unicode,
          a.bytes || b.bytes, a.fstring || b.fstring, a.rawLower || b.rawLower, a.rawUpper || b.rawUpper)
  }

  /** Section 2.4.1: a two-letter prefix is a raw letter with a bytes or f-string letter, in either order,
      and means what its letters mean. */
  lemma PrefixLettersCombine(a: char, b: char)
    ensures DoublePrefix(a, b) == DoublePrefix(b, a)
    ensures DoublePrefix(a, b).Some? <==>
            && SinglePrefix(a).Some? && SinglePrefix(b).Some?
            && SinglePrefix(a).value.IsRaw() != SinglePrefix(b).value.IsRaw()
            && !SinglePrefix(a).value.unicode && !SinglePrefix(b).value.unicode
    ensures DoublePrefix(a, b).Some? ==> DoublePrefix(a, b).value == Union(SinglePrefix(a).value, SinglePrefix(b).value)
  {
  }

  predicate StartsOperator(c: char) {
    c in {'=', '+', '*', '/', '%', '|', '^', '&', '-', '@', '!', '~', ':', ';', '<', '>', ',', '.'}
  }

  /** The operator or delimiter that begins with `c`, given the two characters after it. */
  function OperatorText(c: char, c1: char, c2: char): string {
    if c == '*' then
      if c1 == '=' then "*="
      else if c1 == '*' then if c2 == '=' then "**=" else "**"
      else "*"
    else if c == '/' then
      if c1 == '=' then "/="
      else if c1 == '/' then if c2 == '=' then "//=" else "//"
      else "/"
    else if c == '<' then
      if c1 == '<' then if c2 == '=' then "<<=" else "<<"
      else if c1 == '=' then "<="
      else "<"
    else if c == '>' then
      if c1 == '>' then if c2 == '=' then ">>=" else ">>"
      else if c1 == '=' then ">="
      else ">"
    else if c == '-' then
      if c1 == '=' then "-=" else if c1 == '>' then "->" else "-"
    else if c == '.' then
      if c1 == '.' && c2 == '.' then "..." else "."
    else if c in {'=', '+', '%', '|', '^', '&', '@', '!', ':'} && c1 == '=' then [c, '=']
    else [c]
  }

  const OPERATORS: set<string> := {
    "=", "==", "+", "+=", "*", "*=", "**", "**=", "/", "/=", "//", "//=", "%", "%=", "|", "|=", "^", "^=", "&", "&=",
    "-", "-=", "->", "@", "@=", "!", "!=", "~", ":", ":=", ";", "<", "<=", "<<", "<<=", ">", ">=", ">>", ">>=", ",",
    ".", "..."
  }

  /** Maximal munch: the operator read is the longest one of the language that the source begins with here. */
  lemma LongestOperator(c: char, c1: char, c2: char, op: string)
    requires StartsOperator(c)
    ensures var text := OperatorText(c, c1, c2);
            && text in OPERATORS
            && text <= [c, c1, c2]
            && (op in OPERATORS && op <= [c, c1, c2] ==> |op| <= |text|)
  {
    if op in OPERATORS && op <= [c, c1, c2] {
      assert op[0] == c;
      if |op| == 2 {
        assert op[1] == c1;
      } else if |op| == 3 {
        assert op[1] == c1 && op[2] == c2;
      }
    }
  }

  /** The kind of an IPython escape command is its escape token. */
  function EscapeToken(c: char, c1: char): string {
    if c == c1 && (c == '!' || c == '?' || c == '%') then [c, c1] else [c]
  }

  function QuestionRun(src: string, p: nat): (q: nat)
    requires p <= |src|
    ensures p <= q <= |src|
    decreases |src| - p
  {
    if p < |src| && src[p] == '?' then QuestionRun(src, p + 1) else p
  }

  predicate IsPythonWhitespace(c: char) {
    c == ' ' || c == '\t' || c == '\U{0C}'
  }

  function TrimStart(text: string): string {
    if text != [] && (text[0] == ' ' || text[0] == '?') then TrimStart(text[1..]) else text
  }

  /** Whether the question marks from `p` to `q` end a help command whose text so far is `text`. */
  predicate EndsHelp(src: string, p: nat, q: nat, text: string): (r: bool)
    ensures r ==> q - p <= 2
  {
    && q - p <= 2
    && text != [] && !IsPythonWhitespace(text[|text| - 1])
    && (First(src, q) == '\n' || First(src, q) == '\r' || First(src, q) == EOF_CHAR)
  }

  function HelpCommand(kind: string, text: string, marks: nat): TokenValue
    requires 1 <= marks <= 2
  {
    var text' :=
      if kind == "?" || kind == "??" then TrimStart(text)
      else if kind == "%" || kind == "%%" then kind + text
      else text;
    IpyValue(if marks == 1 then "?" else "??", text')
  }

  datatype Command = Command(pos: nat, value: TokenValue)

  function ScanCommand(src: string, kind: string, p: nat, text: string): (r: Command)
    requires p <= |src|
    ensures p <= r.pos <= |src|
    decreases |src| - p
  {
    var c := First(src, p);
    if c == '\n' || c == '\r' || c == EOF_CHAR then Command(p, IpyValue(kind, text))
    else if c == '\\' then
      if Second(src, p) == '\r' then
        ScanCommand(src, kind, if First(src, p + 2) == '\n' then p + 3 else p + 2, text)
      else if Second(src, p) == '\n' then ScanCommand(src, kind, p + 2, text)
      else ScanCommand(src, kind, p + 1, text + ['\\'])
    else if c == '?' then
      var q := QuestionRun(src, p + 1);
      if EndsHelp(src, p, q, text) then Command(q, HelpCommand(kind, text, q - p))
      else ScanCommand(src, kind, q, text + src[p..q])
    else ScanCommand(src, kind, p + 1, text + [c])
  }

  /** Over a backslash: a line break behind it is joined over, and otherwise the backslash is text. */
  lemma CommandBackslash(src: string, kind: string, p: nat, text: string)
    requires p < |src| && src[p] == '\\'
    ensures var c := First(src, p + 1);
            ScanCommand(src, kind, p, text) ==
              if c == '\r' then ScanCommand(src, kind, if First(src, p + 2) == '\n' then p + 3 else p + 2, text)
              else if c == '\n' then ScanCommand(src, kind, p + 2, text)
              else ScanCommand(src, kind, p + 1, text + ['\\'])
  {
  }

  lemma CommandQuestions(src: string, kind: string, p: nat, text: string)
    requires p < |src| && src[p] == '?'
    ensures var q := QuestionRun(src, p + 1);
            ScanCommand(src, kind, p, text) ==
              if EndsHelp(src, p, q, text) then Command(q, HelpCommand(kind, text, q - p))
              else ScanCommand(src, kind, q, text + src[p..q])
  {
  }

  lemma CommandOther(src: string, kind: string, p: nat, text: string)
    requires p <= |src|
    ensures var c := First(src, p);
            && (c in {'\n', '\r', EOF_CHAR} ==> ScanCommand(src, kind, p, text) == Command(p, IpyValue(kind, text)))
            && (c !in {'\n', '\r', EOF_CHAR, '\\', '?'} ==>
                  ScanCommand(src, kind, p, text) == ScanCommand(src, kind, p + 1, text + [c]))
  {
  }
}
