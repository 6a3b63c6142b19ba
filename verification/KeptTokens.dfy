/** What the token source keeps: every token that the lexer gives. */
module KeptTokens {
  import opened Text
  import opened Tokens
  import opened Words
  import opened LexerSpec
  import opened LexerRuns
  import opened TokenSourceSpec

  /** The lexer's current token in each of its states. */
  function TokensOf(run: seq<Lex>): (tokens: seq<Token>)
    ensures |tokens| == |run|
    ensures forall i :: 0 <= i < |run| ==> tokens[i] == Token(run[i].kind, run[i].range, run[i].flags)
  {
    seq(|run|, i requires 0 <= i < |run| => Token(run[i].kind, run[i].range, run[i].flags))
  }

  lemma TokensOfJoined(a: seq<Lex>, b: seq<Lex>)
    ensures TokensOf(a + b) == TokensOf(a) + TokensOf(b)
  {
  }

  /** `run` goes from `l` over trivia to the first token that is not. */
  ghost predicate LeadsToNext(env: Env, l: Lex, run: seq<Lex>) {
    && IsRun(env, l, run) && run != [] && !run[|run| - 1].kind.IsTrivia()
    && forall i :: 0 <= i < |run| - 1 ==> run[i].kind.IsTrivia()
  }

  /** Going to the next token keeps every trivia token on the way, and no other, with its kind, range and flags. */
  lemma {:induction false} DoBumpKeepsTrivia(env: Env, t: Source) returns (run: seq<Lex>)
    requires t.lexer.pos <= |env.src|
    ensures LeadsToNext(env, t.lexer, run)
    ensures DoBump(env, t) == Source(run[|run| - 1], t.tokens + TokensOf(run[..|run| - 1]))
    decreases |env.src| - t.lexer.pos, |t.lexer.fstrings|, Flag(t.lexer.nesting > 0), |t.lexer.indents|,
              Flag(t.lexer.pending.Some?), Rank(t.lexer.state)
  {
    hide NextToken;
    StepMakesProgress(env, t.lexer);
    var l := NextToken(env, t.lexer);
    run := [l];
    assert IsStep(env, t.lexer, [l], 0);
    assert run[..0] == [];
    if l.kind.IsTrivia() {
      var rest := DoBumpKeepsTrivia(env, Source(l, t.tokens + [CurrentToken(l, l.kind)]));
      RunsJoin(env, t.lexer, run, rest);
      var n := |rest| - 1;
      assert ([l] + rest)[..n + 1] == [l] + rest[..n];
      TokensOfJoined([l], rest[..n]);
      assert t.tokens + [CurrentToken(l, l.kind)] + TokensOf(rest[..n])
             == t.tokens + ([CurrentToken(l, l.kind)] + TokensOf(rest[..n]));
      run := run + rest;
    }
  }

  /** Bumping keeps the current token, under the kind the parser gives it, and then the trivia after it. */
  lemma BumpKeepsToken(env: Env, t: Source, kind: TokenKind) returns (run: seq<Lex>)
    requires t.lexer.pos <= |env.src|
    ensures LeadsToNext(env, t.lexer, run)
    ensures Bump(env, t, kind)
            == Source(run[|run| - 1],
                      t.tokens + [Token(kind, t.lexer.range, t.lexer.flags)] + TokensOf(run[..|run| - 1]))
  {
    run := DoBumpKeepsTrivia(env, t.(tokens := t.tokens + [CurrentToken(t.lexer, kind)]));
  }

  /** The token source after `n` bumps of the current token as it is. */
  function Advance(env: Env, t: Source, n: nat): (r: Source)
    requires t.lexer.pos <= |env.src|
    ensures r.lexer.pos <= |env.src|
  {
    if n == 0 then t
    else
      var before := Advance(env, t, n - 1);
      Bump(env, before, before.lexer.kind)
  }

  /** The tokens kept and the current one are the tokens of `run`. */
  ghost predicate Keeps(t: Source, run: seq<Lex>) {
    run != [] && t.lexer == run[|run| - 1] && t.tokens == TokensOf(run[..|run| - 1])
  }

  /** From the beginning of a file, after any number of bumps: the tokens kept, with the current one, are exactly the
      tokens of the lexer's run so far, trivia included. */
  lemma {:induction false} KeepsEveryToken(env: Env, startOffset: nat, n: nat) returns (run: seq<Lex>)
    requires startOffset <= |env.src|
    ensures IsRun(env, Init(env, startOffset), run) && Keeps(Advance(env, FromSource(env, startOffset), n), run)
  {
    hide NextToken, DoBump, Init;
    var s := Init(env, startOffset);
    if n == 0 {
      run := DoBumpKeepsTrivia(env, Source(s, []));
    } else {
      run := KeepsEveryToken(env, startOffset, n - 1);
      var before := Advance(env, FromSource(env, startOffset), n - 1);
      var rest := BumpKeepsToken(env, before, before.lexer.kind);
      RunsJoin(env, s, run, rest);
      JoinedTokens(run, rest);
      run := run + rest;
    }
  }

  lemma JoinedTokens(run: seq<Lex>, rest: seq<Lex>)
    requires run != [] && rest != []
    ensures var n, m := |run| - 1, |rest| - 1;
            && (run + rest)[..n + 1 + m] == run + rest[..m]
            && TokensOf((run + rest)[..n + 1 + m])
               == TokensOf(run[..n]) + [Token(run[n].kind, run[n].range, run[n].flags)] + TokensOf(rest[..m])
  {
    var n, m := |run| - 1, |rest| - 1;
    assert (run + rest)[..n + 1 + m] == run + rest[..m];
    assert run == run[..n] + [run[n]];
    TokensOfJoined(run[..n], [run[n]]);
    TokensOfJoined(run, rest[..m]);
  }

  /** Runs from one state agree as far as both go. */
  lemma {:induction false} RunsAgree(env: Env, s: Lex, a: seq<Lex>, b: seq<Lex>, i: nat)
    requires IsRun(env, s, a) && IsRun(env, s, b) && i < |a| && i < |b|
    ensures a[i] == b[i]
  {
    hide NextToken;
    if i > 0 {
      RunsAgree(env, s, a, b, i - 1);
    }
    assert IsStep(env, s, a, i) && IsStep(env, s, b, i);
  }

  /** When the end of the file is reached for the first time, the tokens kept and the current one are the tokens of
      the whole lexing. */
  lemma WholeFileIsKept(env: Env, startOffset: nat, n: nat)
    requires startOffset <= |env.src|
    requires Advance(env, FromSource(env, startOffset), n).lexer.kind == EndOfFile
    requires forall i :: 0 <= i < n ==> Advance(env, FromSource(env, startOffset), i).lexer.kind != EndOfFile
    ensures var t := Advance(env, FromSource(env, startOffset), n);
            t.tokens + [CurrentToken(t.lexer, EndOfFile)] == TokensOf(Lexing(env, Init(env, startOffset)))
  {
    hide NextToken, Lexing, Init, Advance;
    var s := Init(env, startOffset);
    var t := Advance(env, FromSource(env, startOffset), n);
    var run := KeepsEveryToken(env, startOffset, n);
    NoEarlierEnd(env, startOffset, n);
    var all := Lexing(env, s);
    LexingIsARun(env, s);
    var last := |run| - 1;
    forall i | 0 <= i < |run| && i < |all| ensures run[i] == all[i] {
      RunsAgree(env, s, run, all, i);
    }
    forall i | 0 <= i < last ensures run[i].kind != EndOfFile {
      assert t.tokens[i] == Token(run[i].kind, run[i].range, run[i].flags);
    }
    assert last < |all| ==> all[last] == run[last];
    assert |all| <= |run| ==> run[|all| - 1] == all[|all| - 1];
    assert run == all;
    assert all == all[..last] + [all[last]];
    TokensOfJoined(all[..last], [all[last]]);
  }

  /** Only the current token can be the end of the file. */
  lemma {:induction false} NoEarlierEnd(env: Env, startOffset: nat, n: nat)
    requires startOffset <= |env.src|
    requires forall i :: 0 <= i < n ==> Advance(env, FromSource(env, startOffset), i).lexer.kind != EndOfFile
    ensures forall token <- Advance(env, FromSource(env, startOffset), n).tokens :: token.kind != EndOfFile
  {
    hide NextToken, DoBump, Init;
    if n == 0 {
      var run := DoBumpKeepsTrivia(env, Source(Init(env, startOffset), []));
    } else {
      NoEarlierEnd(env, startOffset, n - 1);
      var before := Advance(env, FromSource(env, startOffset), n - 1);
      var run := BumpKeepsToken(env, before, before.lexer.kind);
    }
  }
}
