/** Brackets and f-strings where the lexer is moved back: what re-lexing keeps of the invariant, and what not. */
module ReLexNesting {
  import opened Text
  import opened Tokens
  import opened Indentation
  import opened FStrings
  import opened Words
  import opened LexerSpec
  import opened LexerSteps
  import opened LexerRuns
  import opened LexerInvariants
  import FStringScan

  /** The innermost open f-string, if there is one, has a replacement field open. */
  predicate NoneOrInField(s: Lex) {
    s.fstrings != [] ==> s.fstrings[|s.fstrings| - 1].InExpression(s.nesting)
  }

  /** Giving up a bracket keeps f-strings nested exactly when it is not the one that the innermost f-string
      was opened in. */
  lemma GivingUpABracket(env: Env, s: Lex)
    requires s.nesting > 0 && Nested(s.fstrings, s.nesting)
    ensures ReLex(env, s, None) == (false, s.(nesting := s.nesting - 1))
    ensures Nested(s.fstrings, s.nesting - 1) <==> NoneOrInField(s)
  {
  }

  /** A re-lex that does not move keeps the invariant exactly when no bracket is open, under that condition, or when
      the last bracket is given up at the end of the text. */
  lemma StayingKeepsInvariant(env: Env, s: Lex, newline: Option<nat>)
    requires Invariant(env, s) && (newline.Some? ==> newline.value <= |env.src|)
    requires !ReLex(env, s, newline).0
    ensures Invariant(env, ReLex(env, s, newline).1) <==>
              s.nesting == 0 || NoneOrInField(s) || (s.pos == |env.src| && s.nesting == 1)
  {
    hide StrictlyIncreasing, Nested;
    if s.nesting > 0 {
      GivingUpABracket(env, s);
    }
  }

  /** A re-lex that moves keeps it when the closing bracket takes back the one given up, or again in a replacement
      field, if no more brackets are open than there is text before the line break. */
  lemma MovingKeepsInvariant(env: Env, s: Lex, p: nat)
    requires Invariant(env, s) && p <= |env.src| && ReLex(env, s, Some(p)).0
    requires (s.kind.IsClosing() || NoneOrInField(s)) && s.nesting <= p
    ensures Invariant(env, ReLex(env, s, Some(p)).1)
  {
    hide StrictlyIncreasing, Nested, NextToken;
    if !s.kind.IsClosing() {
      GivingUpABracket(env, s);
    }
    StepKeepsInvariant(env, MovedBack(s, p));
  }

  // ---------- What re-lexing is for ----------

  lemma NewlineGives(env: Env, l: Lex)
    requires l.pos < |env.src| && IsNewline(env.src[l.pos]) && l.state == Other && l.fstrings == [] && l.pending == None
    ensures var r := NextToken(env, l);
            && r.range.start == l.pos && r.nesting == l.nesting
            && r.kind == if l.nesting == 0 then Newline else NonLogicalNewline
  {
    hide LexIdentifier, LexNumber, LexString, LexOperator, LexEscapeCommand, Bracket;
  }

  /** A re-lex gives up one bracket, if one is open. Outside f-strings it moves whenever it has a line break to go back
      to and the current token is no triple-quoted f-string; there it gives the Newline that ends the logical line as
      soon as no bracket is left open, and until then the line break is trivia. A closing bracket as the current token
      keeps the bracket open. */
  lemma ReLexEndsTheLine(env: Env, s: Lex, p: nat)
    requires p < |env.src| && IsNewline(env.src[p]) && s.fstrings == [] && s.pending == None
    ensures var (moved, r) := ReLex(env, s, Some(p));
            && (moved <==> s.nesting > 0 && !s.flags.IsTripleQuotedFString())
            && (!moved ==> r == s.(nesting := if s.nesting == 0 then 0 else s.nesting - 1))
            && (moved ==>
                  && r.range.start == p
                  && r.nesting == (if s.kind in {Rpar, Rsqb, Rbrace} then s.nesting else s.nesting - 1)
                  && r.kind == if r.nesting == 0 then Newline else NonLogicalNewline)
  {
    hide NextToken;
    if s.nesting > 0 {
      NewlineGives(env, MovedBack(s, p));
    }
  }

  // ---------- An input for which it is lost ----------

  lemma OpensBracket(env: Env, s: Lex)
    requires env.src == "(f\"{x" && s == Init(env, 0)
    ensures var r := NextToken(env, s);
            r.pos == 1 && r.nesting == 1 && r.state == Other && r.fstrings == [] && r.pending == None && r.kind == Lpar
  {
    hide LexIdentifier, LexNumber, LexString, LexEscapeCommand, LexNewline;
  }

  lemma OpensFString(env: Env, s: Lex)
    requires env.src == "(f\"{x" && s.pos == 1 && s.nesting == 1 && s.state == Other
    requires s.fstrings == [] && s.pending == None
    ensures var r := NextToken(env, s);
            && r.pos == 3 && r.nesting == 1 && r.state == Other && r.pending == None && r.kind == FStringStart
            && |r.fstrings| == 1 && r.fstrings[0].nesting == 1 && r.fstrings[0].formatSpecDepth == 0
            && !r.fstrings[0].flags.tripleQuoted && r.fstrings[0].flags.doubleQuotes
  {
    hide LexNumber, LexString, LexEscapeCommand, LexPunctuation;
  }

  lemma OpensField(env: Env, s: Lex)
    requires env.src == "(f\"{x" && s.pos == 3 && s.nesting == 1 && s.state == Other
    requires |s.fstrings| == 1 && s.fstrings[0].nesting == 1 && s.fstrings[0].formatSpecDepth == 0
    requires !s.fstrings[0].flags.tripleQuoted && s.fstrings[0].flags.doubleQuotes
    ensures var r := NextToken(env, s);
            r.pos == 4 && r.nesting == 2 && r.state == Other && r.fstrings == s.fstrings && r.kind == Lbrace
  {
    hide LexIdentifier, LexNumber, LexString, LexEscapeCommand, LexNewline;
  }

  /** In a replacement field inside a parenthesis, two re-lexes give up both brackets, and the f-string is left
      open in a bracket that no longer is. */
  lemma ReLexesLoseNesting(env: Env)
    requires env.src == "(f\"{x"
    ensures var field := NextToken(env, NextToken(env, NextToken(env, Init(env, 0))));
            var once := ReLex(env, field, None).1;
            var twice := ReLex(env, once, None).1;
            && Invariant(env, field) && Invariant(env, once)
            && !Nested(twice.fstrings, twice.nesting) && !Invariant(env, twice)
  {
    hide NextToken, Init, StrictlyIncreasing;
    var s := Init(env, 0);
    InitKeepsInvariant(env, 0);
    OpensBracket(env, s);
    StepKeepsInvariant(env, s);
    var s1 := NextToken(env, s);
    OpensFString(env, s1);
    StepKeepsInvariant(env, s1);
    var s2 := NextToken(env, s1);
    OpensField(env, s2);
    StepKeepsInvariant(env, s2);
    var field := NextToken(env, s2);
    StayingKeepsInvariant(env, field, None);
    StayingKeepsInvariant(env, ReLex(env, field, None).1, None);
  }
}
