/** The lexer and the string parser together: what a String token holds can always be read to its end. */
module LexedStrings {
  import opened Text
  import opened Tokens
  import opened Words
  import opened LexerSpec
  import opened LexerSteps
  import opened LexerRuns
  import NumberScan
  import StringScan
  import Decoder

  ghost predicate HoldsPairedText(r: Lex) {
    r.kind == TokenKind.String ==> r.value.StringValue? && StringScan.Paired(r.value.text, 0, |r.value.text|)
  }

  lemma StringIsPaired(env: Env, s: Lex)
    requires s.start < s.pos <= |env.src| && IsQuote(env.src[s.pos - 1])
    ensures HoldsPairedText(LexString(env, s))
  {
    hide StringScan.ScanString, StringScan.Paired;
    var quote := env.src[s.pos - 1];
    var triple := QuoteFlags(env.src, s.flags, s.pos).tripleQuoted;
    var begin := if triple then s.pos + 2 else s.pos;
    var end := StringScan.ScanString(env.src, quote, triple, begin, false);
    if end.Closed? {
      StringScan.ClosedIsPaired(env.src, quote, triple, begin, false);
      StringScan.PairedSlice(env.src, begin, begin, end.valueEnd);
    }
  }

  lemma IdentifierIsPaired(env: Env, s: Lex)
    requires s.start == s.pos < |env.src|
    ensures HoldsPairedText(LexIdentifier(env, s))
  {
    hide LexString, StringScan.Paired, ScanWord, SinglePrefix, DoublePrefix;
    var prefix := StringPrefix(env.src, s.pos);
    if prefix.Some? && !prefix.value.0.fstring {
      StringIsPaired(env, s.(pos := s.pos + prefix.value.1 + 1, flags := prefix.value.0));
    }
  }

  lemma CharacterIsPaired(env: Env, m: Lex)
    requires m.pos < |env.src|
    ensures HoldsPairedText(LexCharacter(env, m))
  {
    hide LexString, LexIdentifier, LexOperator, LexEscapeCommand, IsEscapeCommand,
         NumberScan.ScanNumber, StringScan.Paired;
    var s := m.(start := m.pos);
    if IsQuote(env.src[m.pos]) {
      StringIsPaired(env, s.(pos := s.pos + 1));
    } else {
      IdentifierIsPaired(env, s);
    }
  }

  /** A String token, raw or not, single- or triple-quoted, never holds an unpaired backslash. */
  lemma StringTokensArePaired(env: Env, s: Lex)
    requires s.pos <= |env.src|
    ensures HoldsPairedText(NextToken(env, s))
  {
    hide BeforeCharacter, LexCharacter, StringScan.Paired;
    var s' := s.(start := s.pos, value := NoValue, flags := NO_FLAGS);
    BeforeHasEffect(env, s');
    match BeforeCharacter(env, s')
    case Emitted(r) =>
    case Ready(m) =>
      if m.pos < |env.src| {
        CharacterIsPaired(env, m);
      }
      CharacterOrEnd(env, m);
  }

  /** Decoding the text of a String token never runs out in the middle of an escape: the error that the
      decoder keeps for that case cannot occur for strings and bytes that come from the lexer. */
  lemma LexedStringsNeverRunOut(env: Env, s: Lex, names: string -> Option<char>)
    requires s.pos <= |env.src| && NextToken(env, s).kind == TokenKind.String
    ensures var r := NextToken(env, s);
            && r.value.StringValue?
            && var literal := Decoder.Literal(r.value.text, r.flags.bytes, names);
               literal.NamesArePlain() && Decoder.Decode(literal, 0).Failed? ==>
                 Decoder.Decode(literal, 0).problem.kind != StringError
  {
    hide NextToken, Decoder.Decode;
    StringTokensArePaired(env, s);
    var r := NextToken(env, s);
    var literal := Decoder.Literal(r.value.text, r.flags.bytes, names);
    if literal.NamesArePlain() {
      Decoder.PairedNeverRunsOut(literal, 0);
    }
  }
}
