/** What returning to a checkpoint undoes. */
module SessionUndo {
  import opened Text
  import opened Tokens
  import opened Words
  import opened LexerSpec
  import opened LexerRuns
  import opened TokenSourceSpec

  /** `r` still has all the tokens and errors of `t`. */
  ghost predicate Extends(r: Source, t: Source) {
    t.tokens <= r.tokens && t.lexer.errors <= r.lexer.errors
  }

  lemma RewindRestores(r: Source, t: Source)
    requires Extends(r, t)
    ensures RewindSource(r, SaveSource(t)) == t.(lexer := t.lexer.(start := 0))
  {
  }

  /** The checkpoint at `k` was taken from `t`, and neither the session nor any later checkpoint has lost one
      of its tokens or errors. */
  ghost predicate CanUndo(s: Session, k: nat, t: Source) {
    && k < |s.saved| && s.saved[k] == SaveSource(t) && Extends(s.source, t)
    && forall i :: k <= i < |s.saved| ==> |t.lexer.errors| <= s.saved[i].lexer.errorsPosition
  }

  lemma {:induction false} DoBumpKeepsErrors(env: Env, t: Source)
    requires t.lexer.pos <= |env.src|
    ensures t.lexer.errors <= DoBump(env, t).lexer.errors
    decreases |env.src| - t.lexer.pos, |t.lexer.fstrings|, Flag(t.lexer.nesting > 0), |t.lexer.indents|,
              Flag(t.lexer.pending.Some?), Rank(t.lexer.state)
  {
    hide NextToken;
    StepMakesProgress(env, t.lexer);
    StepKeepsOrder(env, t.lexer);
    var l := NextToken(env, t.lexer);
    if l.kind.IsTrivia() {
      DoBumpKeepsErrors(env, Source(l, t.tokens + [CurrentToken(l, l.kind)]));
    }
  }

  lemma ReLexKeepsErrors(env: Env, s: Lex, newline: Option<nat>)
    requires newline.Some? ==> newline.value <= |env.src|
    ensures s.errors <= ReLex(env, s, newline).1.errors
  {
    hide NextToken;
    if ReLex(env, s, newline).0 {
      StepKeepsOrder(env, MovedBack(s, newline.value));
    }
  }

  /** Errors are only ever taken back by a rewind, down to those of its checkpoint. */
  lemma ServeKeepsErrors(env: Env, s: Session, request: Request)
    requires s.source.lexer.pos <= |env.src| && Allowed(s, request)
    requires TrailingNewline(s.source.tokens).Some? ==> TrailingNewline(s.source.tokens).value <= |env.src|
    ensures var before, after := s.source.lexer.errors, Serve(env, s, request).source.lexer.errors;
            if request.DoRewind? then after == Truncate(before, s.saved[request.index].lexer.errorsPosition)
            else before <= after
  {
    hide DoBump, Peek, Peek2, ReLex, TrailingNewline, Truncate;
    var t := s.source;
    match request
    case DoBumpAs(kind) => DoBumpKeepsErrors(env, t.(tokens := t.tokens + [CurrentToken(t.lexer, kind)]));
    case DoPeek => PeekingIsPure(env, t);
    case DoPeek2 => PeekingIsPure(env, t);
    case DoReLex => ReLexKeepsErrors(env, t.lexer, TrailingNewline(t.tokens));
    case _ =>
  }

  /** As long as the checkpoint is not given up, every request leaves it able to undo all that came after it. */
  lemma ServeKeepsUndo(env: Env, s: Session, request: Request, k: nat, t: Source)
    requires SessionInOrder(env, s) && Allowed(s, request) && CanUndo(s, k, t)
    ensures s.source.lexer.pos <= |env.src|
    ensures TrailingNewline(s.source.tokens).Some? ==> TrailingNewline(s.source.tokens).value <= |env.src|
    ensures |Serve(env, s, request).saved| > k ==> CanUndo(Serve(env, s, request), k, t)
  {
    hide InOrder, Fits, TrailingNewline, Bump, Peek, Peek2, ReLexToken, RewindSource;
    ServeKeepsTokens(env, s, request);
    ServeKeepsErrors(env, s, request);
    var r := Serve(env, s, request);
    if |r.saved| > k {
      if request.DoRewind? {
        assert |r.saved| == request.index;
      }
      assert t.tokens <= r.source.tokens;
    }
  }

  /** The sessions that `requests` lead to from `s` all keep the checkpoint at `k`. */
  ghost predicate ReachesKeeping(env: Env, s: Session, requests: seq<Request>, r: Session, k: nat)
    requires SessionInOrder(env, s)
    decreases requests
  {
    && |s.saved| > k
    && if requests == [] then r == s
       else
         && Allowed(s, requests[0])
         && (ServeKeepsOrder(env, s, requests[0]);
             ReachesKeeping(env, Serve(env, s, requests[0]), requests[1..], r, k))
  }

  lemma {:induction false} KeptMeansUndo(env: Env, s: Session, requests: seq<Request>, r: Session, k: nat, t: Source)
    requires SessionInOrder(env, s) && CanUndo(s, k, t) && ReachesKeeping(env, s, requests, r, k)
    ensures CanUndo(r, k, t)
    decreases requests
  {
    hide SessionInOrder, CanUndo, Serve;
    if requests != [] {
      ServeKeepsOrder(env, s, requests[0]);
      ServeKeepsUndo(env, s, requests[0], k, t);
      KeptHere(env, Serve(env, s, requests[0]), requests[1..], r, k);
      KeptMeansUndo(env, Serve(env, s, requests[0]), requests[1..], r, k, t);
    }
  }

  lemma KeptHere(env: Env, s: Session, requests: seq<Request>, r: Session, k: nat)
    requires SessionInOrder(env, s) && ReachesKeeping(env, s, requests, r, k)
    ensures |s.saved| > k
  {
  }

  /** A checkpoint undoes everything: whatever a parser asks for after taking it, bumps, peeks, further checkpoints,
      rewinds and re-lexes, for as long as the checkpoint is still there to return to, returning to it gives back
      the token source it was taken from, tokens and errors included, up to the token mark. */
  lemma RewindUndoesRequests(env: Env, s: Session, requests: seq<Request>, r: Session)
    requires SessionInOrder(env, s) && LeadsTo(env, s, requests, r)
    ensures |r.saved| > |s.saved|
    ensures RewindSource(r.source, r.saved[|s.saved|]) == s.source.(lexer := s.source.lexer.(start := 0))
  {
    hide InOrder, Fits, RewindSource, TrailingNewline;
    var k := |s.saved|;
    ServeKeepsOrder(env, s, DoSave);
    KeptMeansUndo(env, Serve(env, s, DoSave), requests, r, k, s.source);
    RewindRestores(r.source, s.source);
  }

  /** Taking a checkpoint in `s` and then asking for `requests`, none of which gives it up, leads to `r`. */
  ghost predicate LeadsTo(env: Env, s: Session, requests: seq<Request>, r: Session)
    requires SessionInOrder(env, s)
  {
    ServeKeepsOrder(env, s, DoSave);
    ReachesKeeping(env, Serve(env, s, DoSave), requests, r, |s.saved|)
  }
}
