/** The token source: a lexer, and the vector of the tokens taken from it. */
module TokenSourceClass {
  import opened Tokens
  import opened Words
  import opened LexerClass
  import L = LexerSpec
  import Spec = TokenSourceSpec
  import LexerRuns

  class TokenSource {
    const lexer: Lexer
    var tokens: seq<Token>

    ghost function State(): Spec.Source
      reads this, lexer
    {
      Spec.Source(lexer.State(), tokens)
    }

    constructor FromSource(env: Env, startOffset: nat)
      requires startOffset <= |env.src|
      ensures fresh(lexer) && lexer.env == env && State() == Spec.FromSource(env, startOffset)
    {
      lexer := new Lexer(env, startOffset);
      tokens := [];
      new;
      DoBump();
    }

    /** Pushes trivia until the next token that is not trivia. */
    method DoBump()
      requires lexer.pos <= |lexer.env.src|
      modifies this, lexer
      ensures State() == Spec.DoBump(lexer.env, old(State())) && lexer.pos <= |lexer.env.src|
    {
      hide L.NextToken;
      while true
        invariant lexer.pos <= |lexer.env.src|
        invariant Spec.DoBump(lexer.env, State()) == Spec.DoBump(lexer.env, old(State()))
        decreases |lexer.env.src| - lexer.pos, |lexer.fstrings|, LexerRuns.Flag(lexer.nesting > 0), |lexer.indents|,
                  LexerRuns.Flag(lexer.pending.Some?), LexerRuns.Rank(lexer.state)
      {
        LexerRuns.StepMakesProgress(lexer.env, lexer.State());
        var kind := lexer.NextToken();
        if !kind.IsTrivia() {
          break;
        }
        tokens := tokens + [Token(kind, lexer.range, lexer.flags)];
      }
    }

    method Bump(kind: TokenKind)
      requires lexer.pos <= |lexer.env.src|
      modifies this, lexer
      ensures State() == Spec.Bump(lexer.env, old(State()), kind) && lexer.pos <= |lexer.env.src|
    {
      hide Spec.DoBump;
      tokens := tokens + [Token(kind, lexer.range, lexer.flags)];
      DoBump();
    }

    method NextNonTrivia() returns (kind: TokenKind)
      requires lexer.pos <= |lexer.env.src|
      modifies lexer
      ensures lexer.State() == Spec.NextNonTrivia(lexer.env, old(lexer.State())) && kind == lexer.kind
      ensures lexer.pos <= |lexer.env.src|
    {
      hide L.NextToken;
      while true
        invariant lexer.pos <= |lexer.env.src|
        invariant Spec.NextNonTrivia(lexer.env, lexer.State()) == Spec.NextNonTrivia(lexer.env, old(lexer.State()))
        decreases |lexer.env.src| - lexer.pos, |lexer.fstrings|, LexerRuns.Flag(lexer.nesting > 0), |lexer.indents|,
                  LexerRuns.Flag(lexer.pending.Some?), LexerRuns.Rank(lexer.state)
      {
        LexerRuns.StepMakesProgress(lexer.env, lexer.State());
        kind := lexer.NextToken();
        if !kind.IsTrivia() {
          break;
        }
      }
    }

    /** The kind of the token after the current one; the token source is as before but for the lexer's token mark. */
    method Peek() returns (kind: TokenKind)
      requires lexer.pos <= |lexer.env.src|
      modifies lexer
      ensures (kind, State()) == Spec.Peek(lexer.env, old(State()))
      ensures State() == old(State()).(lexer := old(lexer.State()).(start := 0))
    {
      hide Spec.NextNonTrivia;
      Spec.PeekingIsPure(lexer.env, State());
      var checkpoint := lexer.Save();
      kind := NextNonTrivia();
      lexer.Rewind(checkpoint);
    }

    method Peek2() returns (first: TokenKind, second: TokenKind)
      requires lexer.pos <= |lexer.env.src|
      modifies lexer
      ensures (first, second, State()) == Spec.Peek2(lexer.env, old(State()))
      ensures State() == old(State()).(lexer := old(lexer.State()).(start := 0))
    {
      hide Spec.NextNonTrivia;
      Spec.PeekingIsPure(lexer.env, State());
      var checkpoint := lexer.Save();
      first := NextNonTrivia();
      second := NextNonTrivia();
      lexer.Rewind(checkpoint);
    }

    method ReLexLogicalToken()
      requires Spec.InOrder(lexer.env, State())
      requires Spec.TrailingNewline(tokens).Some? ==> Spec.TrailingNewline(tokens).value <= |lexer.env.src|
      modifies this, lexer
      ensures State() == Spec.ReLexToken(lexer.env, old(State()))
      ensures Spec.InOrder(lexer.env, State())
    {
      hide L.NextToken, L.MovedBack, Spec.InOrder;
      ghost var before := State();
      Spec.ReLexKeepsOrder(lexer.env, before);
      assert lexer.pos <= |lexer.env.src| by { PlacedInOrder(lexer.env, before); }
      var newline := TrailingNewline();
      var moved := lexer.ReLexLogicalToken(newline);
      if moved {
        ghost var after := lexer.State();
        var start := lexer.range.start;
        while tokens != [] && tokens[|tokens| - 1].range.start >= start
          invariant lexer.State() == after
          invariant Spec.DropFrom(tokens, start) == Spec.DropFrom(before.tokens, start)
          decreases |tokens|
        {
          tokens := tokens[..|tokens| - 1];
        }
      }
    }

    /** The start of the first line break among the trailing trivia, searched from the back. */
    method TrailingNewline() returns (start: Option<nat>)
      ensures start == Spec.TrailingNewline(tokens)
    {
      start := None;
      var i := |tokens|;
      assert tokens[..i] == tokens;
      while i > 0
        invariant 0 <= i <= |tokens|
        invariant Spec.TrailingNewline(tokens) ==
                  (if Spec.TrailingNewline(tokens[..i]).Some? then Spec.TrailingNewline(tokens[..i]) else start)
      {
        assert tokens[..i][..i - 1] == tokens[..i - 1];
        if tokens[i - 1].kind == NonLogicalNewline {
          start := Some(tokens[i - 1].range.start);
        } else if tokens[i - 1].kind != Comment {
          break;
        }
        i := i - 1;
      }
    }

    function Save(): (c: Spec.SourceCheckpoint)
      reads this, lexer
      ensures c == Spec.SaveSource(State())
    {
      Spec.SourceCheckpoint(lexer.Save(), |tokens|)
    }

    method Rewind(c: Spec.SourceCheckpoint)
      modifies this, lexer
      ensures State() == Spec.RewindSource(old(State()), c)
    {
      lexer.Rewind(c.lexer);
      tokens := L.Truncate(tokens, c.tokensPosition);
    }

    /** The tokens and errors of a source that has been read to its end, without the end-of-file token itself. */
    method Finish() returns (all: seq<Token>, errors: seq<LexicalError>)
      requires Spec.InOrder(lexer.env, State())
      requires lexer.kind == EndOfFile && (tokens != [] ==> tokens[|tokens| - 1].kind == EndOfFile)
      modifies this
      ensures all == (if old(tokens) == [] then [] else old(tokens)[..|old(tokens)| - 1]) && errors == lexer.errors
      ensures Spec.OrderedBy(lexer.env, all, |lexer.env.src|)
    {
      all, errors := if tokens == [] then [] else tokens[..|tokens| - 1], lexer.errors;
      tokens := all;
    }
  }

  lemma PlacedInOrder(env: Env, t: Spec.Source)
    requires Spec.InOrder(env, t)
    ensures t.lexer.pos <= |env.src|
  {
  }
}
