/** Indentation in every state of a token source, re-lexed or rewound. */
module SessionLevels {
  import opened Tokens
  import opened Indentation
  import opened Words
  import opened LexerSpec
  import opened LexerRuns
  import opened LexerInvariants
  import opened TokenSourceSpec

  /** The levels of the lexer, and those of every checkpoint to return to, are strictly increasing. */
  ghost predicate Increasing(s: Session) {
    && StrictlyIncreasing(s.source.lexer.indents)
    && forall c <- s.saved :: StrictlyIncreasing(c.lexer.indents)
  }

  lemma {:induction false} DoBumpKeepsIncreasing(env: Env, t: Source)
    requires t.lexer.pos <= |env.src| && StrictlyIncreasing(t.lexer.indents)
    ensures StrictlyIncreasing(DoBump(env, t).lexer.indents)
    decreases |env.src| - t.lexer.pos, |t.lexer.fstrings|, Flag(t.lexer.nesting > 0), |t.lexer.indents|,
              Flag(t.lexer.pending.Some?), Rank(t.lexer.state)
  {
    hide NextToken, StrictlyIncreasing;
    StepMakesProgress(env, t.lexer);
    StepKeepsIncreasing(env, t.lexer);
    var l := NextToken(env, t.lexer);
    if l.kind.IsTrivia() {
      DoBumpKeepsIncreasing(env, Source(l, t.tokens + [CurrentToken(l, l.kind)]));
    }
  }

  lemma ServeKeepsIncreasing(env: Env, s: Session, request: Request)
    requires SessionInOrder(env, s) && Allowed(s, request) && Increasing(s)
    ensures TrailingNewline(s.source.tokens).Some? ==> TrailingNewline(s.source.tokens).value <= |env.src|
    ensures Increasing(Serve(env, s, request))
  {
    hide InOrder, Fits, StrictlyIncreasing, DoBump, Peek, Peek2, ReLex, Rewind;
    ServeKeepsOrder(env, s, request);
    InOrderInText(env, s.source);
    var t := s.source;
    match request {
      case DoBumpAs(kind) => DoBumpKeepsIncreasing(env, t.(tokens := t.tokens + [CurrentToken(t.lexer, kind)]));
      case DoPeek => PeekingIsPure(env, t);
      case DoPeek2 => PeekingIsPure(env, t);
      case DoReLex => ReLexKeepsIncreasing(env, t.lexer, TrailingNewline(t.tokens));
      case DoRewind(i) => RewindKeepsLevels(t.lexer, s.saved[i].lexer);
      case _ =>
    }
    forall c | c in Serve(env, s, request).saved ensures StrictlyIncreasing(c.lexer.indents) {
      assert c in s.saved || c == SaveSource(t);
    }
  }

  lemma RewindKeepsLevels(s: Lex, c: Checkpoint)
    ensures Rewind(s, c).indents == c.indents
  {
  }

  /** However a parser bumps, peeks, re-lexes, saves and rewinds, the levels stay strictly increasing. */
  lemma {:induction false} SessionsStayIncreasing(env: Env, s: Session, requests: seq<Request>, r: Session)
    requires SessionInOrder(env, s) && Increasing(s) && Reaches(env, s, requests, r)
    ensures Increasing(r)
    decreases requests
  {
    hide Increasing, InOrder, Fits, Serve;
    if requests != [] {
      InOrderInText(env, s.source);
      ServeKeepsOrder(env, s, requests[0]);
      ServeKeepsIncreasing(env, s, requests[0]);
      SessionsStayIncreasing(env, Serve(env, s, requests[0]), requests[1..], r);
    }
  }

  lemma StartsIncreasing(env: Env, startOffset: nat)
    requires startOffset <= |env.src|
    ensures Increasing(Session(FromSource(env, startOffset), []))
  {
    DoBumpKeepsIncreasing(env, Source(Init(env, startOffset), []));
  }
}
