/** Rewinding a token source to checkpoints in any order: when that keeps the tokens in order, and when not. */
module RewindOrder {
  import opened Text
  import opened Tokens
  import opened Words
  import opened LexerSpec
  import opened LexerRuns
  import opened TokenSourceSpec

  /** The tokens that a rewind keeps. */
  function Kept(t: Source, c: SourceCheckpoint): seq<Token> {
    Truncate(t.tokens, c.tokensPosition)
  }

  /** From tokens in order, a rewind leaves tokens in order exactly when the last one it keeps ends by the start
      of the token it returns to: one comparison, which a caller can make beforehand. */
  lemma RewindKeepsOrder(env: Env, t: Source, c: SourceCheckpoint)
    requires InOrder(env, t)
    requires c.lexer.range.start <= c.lexer.range.end <= c.lexer.pos <= |env.src|
             && IsPlaced(env, c.lexer.kind, c.lexer.range)
    ensures InOrder(env, RewindSource(t, c)) <==>
              (Kept(t, c) == [] || Kept(t, c)[|Kept(t, c)| - 1].range.end <= c.lexer.range.start)
  {
    var kept := Kept(t, c);
    assert forall i :: 0 <= i < |kept| ==> kept[i] == t.tokens[i];
    if kept != [] && kept[|kept| - 1].range.end <= c.lexer.range.start {
      forall i | 0 <= i < |kept| ensures kept[i].range.end <= c.lexer.range.start {
        if i < |kept| - 1 {
          assert kept[i].range.end <= kept[|kept| - 1].range.start;
        }
      }
    }
  }

  /** A lexer in the middle of a line, before a tilde. */
  ghost predicate BeforeTilde(env: Env, s: Lex) {
    && s.pos < |env.src| && env.src[s.pos] == '~'
    && s.fstrings == [] && s.pending == None && s.indents == [] && s.nesting == 0
  }

  lemma TildeToken(env: Env, s: Lex)
    requires BeforeTilde(env, s) && (s.pos + 1 < |env.src| ==> env.src[s.pos + 1] != '\'' && env.src[s.pos + 1] != '"')
    requires s.state == Other || s.state == AfterNewline
    ensures var p := s.pos;
            NextToken(env, s) == s.(pos := p + 1, start := p, kind := Operator("~"), range := Range(p, p + 1),
                                    value := NoValue, flags := NO_FLAGS, state := Other)
  {
    hide LexFStringMiddleOrEnd, LexIdentifier, LexNumber, LexString, LexEscapeCommand, LexNewline, Bracket, ConsumeEnd;
  }

  lemma BumpOne(env: Env, t: Source, kind: TokenKind)
    requires t.lexer.pos <= |env.src| && !NextToken(env, t.lexer).kind.IsTrivia()
    ensures Bump(env, t, kind) == Source(NextToken(env, t.lexer), t.tokens + [CurrentToken(t.lexer, kind)])
  {
    hide NextToken;
  }

  /** The lexer after one, two and three tokens of `~~~`. */
  lemma ThreeTildes(env: Env) returns (s1: Lex, s2: Lex, s3: Lex)
    requires env.src == "~~~"
    ensures s1.pos == 1 && s2.pos == 2 && s3.pos == 3
    ensures s1.range == Range(0, 1) && s2.range == Range(1, 2) && s3.range == Range(2, 3)
    ensures s1.kind == Operator("~") && s2.kind == Operator("~") && s3.kind == Operator("~")
    ensures s1.errors == [] && s2.errors == [] && s3.errors == []
    ensures FromSource(env, 0) == Source(s1, []) && NextToken(env, s1) == s2 && NextToken(env, s2) == s3
  {
    hide NextToken;
    var s0 := Init(env, 0);
    TildeToken(env, s0);
    s1 := NextToken(env, s0);
    TildeToken(env, s1);
    s2 := NextToken(env, s1);
    TildeToken(env, s2);
    s3 := NextToken(env, s2);
  }

  /** The token source of `~~~` at the first, the second and the third token. */
  lemma TwoBumps(env: Env) returns (s1: Lex, s2: Lex, s3: Lex)
    requires env.src == "~~~"
    ensures var tilde := Operator("~");
            var t1, t2 := CurrentToken(s1, tilde), CurrentToken(s2, tilde);
            && IsTildeState(s1, 1) && IsTildeState(s2, 2) && IsTildeState(s3, 3)
            && FromSource(env, 0) == Source(s1, [])
            && Bump(env, Source(s1, []), tilde) == Source(s2, [t1])
            && Bump(env, Source(s2, [t1]), tilde) == Source(s3, [t1, t2])
  {
    hide NextToken, Bump, FromSource;
    var tilde := Operator("~");
    s1, s2, s3 := ThreeTildes(env);
    var t1, t2 := CurrentToken(s1, tilde), CurrentToken(s2, tilde);
    BumpOne(env, Source(s1, []), tilde);
    BumpOne(env, Source(s2, [t1]), tilde);
    assert [] + [t1] == [t1] && [t1] + [t2] == [t1, t2];
  }

  /** A lexer whose current token is a tilde before `p`, without errors. */
  predicate IsTildeState(s: Lex, p: nat) {
    p > 0 && s.pos == p && s.range == Range(p - 1, p) && s.kind == Operator("~") && s.errors == []
  }

  /** Tildes that have been read one after another are in order. */
  lemma TildesAreInOrder(env: Env, s1: Lex, s2: Lex, s3: Lex)
    requires |env.src| == 3 && IsTildeState(s1, 1) && IsTildeState(s2, 2) && IsTildeState(s3, 3)
    ensures var t1, t2 := CurrentToken(s1, Operator("~")), CurrentToken(s2, Operator("~"));
            && InOrder(env, Source(s1, [])) && InOrder(env, Source(s3, [t1, t2]))
            && InOrder(env, Source(s3.(start := 0), []))
  {
  }

  /** Going back to the first token with the second checkpoint in hand, and forth again to the third, leaves no
      token behind: the list of kept tokens was cut on the way back. */
  lemma BackAndForth(third: Source, first: Source)
    requires first.tokens == [] && third.lexer.errors == []
    ensures RewindSource(RewindSource(third, SaveSource(first)), SaveSource(third))
            == Source(third.lexer.(start := 0), [])
  {
  }

  /** From the third token, a bump and a rewind to the second one keep the third token before the second. */
  lemma LastIsOutOfOrder(env: Env, s2: Lex, s3: Lex, t1: Token)
    requires |env.src| == 3 && IsTildeState(s2, 2) && IsTildeState(s3, 3)
    requires InOrder(env, Source(s3.(start := 0), []))
    ensures var bumped := Bump(env, Source(s3.(start := 0), []), Operator("~"));
            !InOrder(env, RewindSource(bumped, SaveSource(Source(s2, [t1]))))
  {
    hide NextToken, Bump;
    var forth := Source(s3.(start := 0), []);
    BumpKeepsToken(env, forth, Operator("~"));
    var last := RewindSource(Bump(env, forth, Operator("~")), SaveSource(Source(s2, [t1])));
    assert last.tokens[0].range == Range(2, 3) && last.lexer.range == Range(1, 2);
  }

  /** Three checkpoints in `~~~`, each returned to once, the second last of all: no token is re-lexed, yet a token
      that is kept ends after the current token starts. */
  lemma OutOfOrderRewinds(env: Env)
    requires env.src == "~~~"
    ensures var tilde := Operator("~");
            var first := FromSource(env, 0);
            var second := Bump(env, first, tilde);
            var third := Bump(env, second, tilde);
            var back := RewindSource(third, SaveSource(first));
            var forth := RewindSource(back, SaveSource(third));
            forth.lexer.pos <= 3 &&
            var last := RewindSource(Bump(env, forth, tilde), SaveSource(second));
            InOrder(env, first) && InOrder(env, third) && InOrder(env, forth) && !InOrder(env, last)
  {
    hide NextToken, Init, FromSource, Bump, InOrder, RewindSource, SaveSource;
    var s1, s2, s3 := TwoBumps(env);
    TildesAreInOrder(env, s1, s2, s3);
    BackAndForth(Bump(env, Bump(env, FromSource(env, 0), Operator("~")), Operator("~")), FromSource(env, 0));
    LastIsOutOfOrder(env, s2, s3, CurrentToken(s1, Operator("~")));
  }

  lemma BumpKeepsToken(env: Env, t: Source, kind: TokenKind)
    requires InOrder(env, t) && kind != NonLogicalNewline
    ensures var r := Bump(env, t, kind); |r.tokens| > |t.tokens| && r.tokens[|t.tokens|] == CurrentToken(t.lexer, kind)
  {
    hide DoBump;
    AppendKeepsOrder(env, t.tokens, t.lexer.range.start, CurrentToken(t.lexer, kind));
    DoBumpKeepsOrder(env, t.(tokens := t.tokens + [CurrentToken(t.lexer, kind)]));
  }
}
