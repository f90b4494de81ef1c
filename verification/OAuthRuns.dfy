/** Every run of the token store, statement by statement: single use of codes, one live token per rotation chain, and
    scopes within what is allowed and consented. */
module OAuthRuns {
  import opened Prelude
  import opened OAuthScope
  import opened OAuth

  datatype Event =
    | AuthorizeRead(session: nat, request: Request)
    | AuthorizeAsk(session: nat, id: nat)
    | Denied(id: nat, tenant: string, user: string)
    | ApproveTake(session: nat, id: nat, tenant: string, user: string)
    | ApproveRead(session: nat)
    | ApproveWrite(session: nat)
    | CodeIssued(session: nat, codeId: nat)
    | RedeemTake(session: nat, id: nat, client: nat, redirect: string, proven: bool)
    | RedeemMint(session: nat, tokenId: nat)
    | RefreshRead(session: nat, id: nat, client: nat)
    | RefreshCommit(session: nat, scope: string, newId: nat)
    | TokenRevoked(id: nat, client: nat)
    | ClientRevoked(client: nat)
    | CleanedUp(codes: set<nat>, tokens: set<nat>, pending: set<nat>)
    | SessionLost(session: nat)

  // ---------------------------------------------------------------- the steps of calls with several statements

  function Enter(s: State, session: nat, c: Call): (t: State)
    ensures t == s.(calls := t.calls)
  {
    s.(calls := s.calls[session := c])
  }

  /** An authorize reads the stored consent, and is from then on about to issue a code or to ask the user. */
  function ReadAuthorize(s: State, session: nat, r: Request): (t: State)
    ensures t == s.(calls := t.calls)
  {
    Enter(s, session, Call(r, if AlreadyConsented(s.consents, r.grant) then ToIssue else ToAsk))
  }

  function AskAuthorize(s: State, session: nat, id: nat, now: int): (t: State)
    requires session in s.calls
    ensures t == s.(pending := t.pending, calls := t.calls, issued := s.issued + {id})
  {
    s.(pending := s.pending[id := Pending(s.calls[session].request, now + PENDING_TTL)], calls := s.calls - {session},
       issued := s.issued + {id})
  }

  /** An approval takes the pending request, */
  function TakeApproval(s: State, session: nat, id: nat, tenant: string, user: string, now: int): (t: State)
    ensures t == s.(pending := t.pending, calls := t.calls)
  {
    if !Decidable(s.pending, id, tenant, user, now) then s
    else Enter(s.(pending := s.pending - {id}), session, Call(s.pending[id].request, ToRead))
  }

  /** reads the stored consent, */
  function ReadApproval(s: State, session: nat): (t: State)
    requires session in s.calls
    ensures t == s.(calls := t.calls)
  {
    var r := s.calls[session].request;
    Enter(s, session, Call(r, ToWrite(ConsentOf(s.consents, r.grant.client, r.grant.user))))
  }

  predicate Writing(s: State, session: nat) { session in s.calls && s.calls[session].stage.ToWrite? }

  /** writes the merged one, */
  function WriteApproval(s: State, session: nat): (t: State)
    requires Writing(s, session)
    ensures t == s.(consents := t.consents, calls := t.calls)
  {
    var c := s.calls[session];
    var merged := WriteConsent(s.consents, c.request.grant, c.stage.existing);
    Enter(s.(consents := merged), session, Call(c.request, ToIssue))
  }

  /** and inserts the code. */
  function IssueCode(s: State, session: nat, codeId: nat, now: int): (t: State)
    requires session in s.calls
    ensures t == s.(codes := t.codes, issued := t.issued, calls := s.calls - {session}) && s.issued <= t.issued
  {
    WithCode(s.(calls := s.calls - {session}), codeId, s.calls[session].request, now)
  }

  /** A redemption uses the code up and, if the proof holds, */
  function TakeCode(
    s: State, session: nat, id: nat, client: nat, redirect: string, proven: bool, now: int): (t: State)
    ensures t == s.(codes := t.codes, redeemed := t.redeemed, calls := t.calls)
  {
    if !Redeemable(s.codes, id, client, redirect, now) then s
    else
      var c := s.codes[id];
      var used := s.(codes := s.codes[id := c.(used := true)], redeemed := s.redeemed + [id]);
      if c.request.challenge.Some? && !proven then used else Enter(used, session, Call(c.request, ToMint))
  }

  /** mints the tokens. */
  function MintTokens(s: State, session: nat, tokenId: nat, now: int): (t: State)
    requires session in s.calls
    ensures t == s.(access := t.access, tokens := t.tokens, issued := t.issued, calls := s.calls - {session})
    ensures t.issued == s.issued + {tokenId}
  {
    var g := s.calls[session].request.grant;
    s.(access := s.access + [g], tokens := s.tokens[tokenId := FirstToken(g, tokenId, now)],
       issued := s.issued + {tokenId}, calls := s.calls - {session})
  }

  /** The SELECT of a refresh, which takes no lock. */
  function ReadRefresh(s: State, session: nat, id: nat, client: nat, now: int): (t: State)
    ensures t == s.(refreshes := t.refreshes)
  {
    match RefreshOutcome(s.tokens, id, client, now)
    case Invalid => s
    case o => s.(refreshes := s.refreshes[session := Refreshing(id, s.tokens[id], o == Reused)])
  }

  /** Its INSERT and UPDATE, and the commit or the rollback of the grant. */
  function CommitRefresh(s: State, session: nat, scope: string, newId: nat, now: int): (t: State)
    requires session in s.refreshes
    ensures t.pending == s.pending && t.consents == s.consents && t.codes == s.codes && t.redeemed == s.redeemed
    ensures t.calls == s.calls && t.refreshes == s.refreshes - {session} && s.issued <= t.issued
  {
    var f := s.refreshes[session];
    var g := f.token.grant;
    var ended := s.(refreshes := s.refreshes - {session});
    if f.reused then ended.(tokens := RevokeAll(s.tokens, g.client, g.user))
    else if !Subset(AskedScope(scope, g.scope), g.scope) then ended
    else ended.(tokens := RotateFrom(s.tokens, f.id, f.token, newId, now),
                access := s.access + [g.(scope := AskedScope(scope, g.scope))], issued := s.issued + {newId})
  }

  /** With nothing in between, the statements of an authorize are the step of Authorize, */
  lemma UninterruptedAuthorize(s: State, session: nat, id: nat, r: Request, now: int)
    requires session !in s.calls
    ensures var read := ReadAuthorize(s, session, r);
            AuthorizeStep(s, id, r, now)
            == if read.calls[session].stage.ToIssue? then IssueCode(read, session, id, now)
               else AskAuthorize(read, session, id, now)
  {
    assert ReadAuthorize(s, session, r).calls - {session} == s.calls;
  }

  /** those of an approval the step of Decide, */
  lemma UninterruptedApproval(s: State, session: nat, id: nat, tenant: string, user: string, codeId: nat, now: int)
    requires session !in s.calls && Decidable(s.pending, id, tenant, user, now)
    ensures var read := ReadApproval(TakeApproval(s, session, id, tenant, user, now), session);
            IssueCode(WriteApproval(read, session), session, codeId, now)
              == DecideStep(s, id, tenant, user, true, codeId, now)
  {
    var read := ReadApproval(TakeApproval(s, session, id, tenant, user, now), session);
    assert WriteApproval(read, session).calls - {session} == s.calls;
  }

  /** and those of a redemption the step of Redeem. */
  lemma UninterruptedRedemption(
    s: State, session: nat, id: nat, client: nat, redirect: string, proven: bool, tokenId: nat, now: int)
    requires session !in s.calls
    ensures var taken := TakeCode(s, session, id, client, redirect, proven, now);
            RedeemStep(s, id, client, redirect, proven, true, tokenId, now)
            == if session in taken.calls then MintTokens(taken, session, tokenId, now) else taken
  {
    var taken := TakeCode(s, session, id, client, redirect, proven, now);
    assert session in taken.calls ==> taken.calls - {session} == s.calls;
  }

  /** With nothing in between, the statements of a refresh are the step of Refresh. */
  lemma UninterruptedRefresh(s: State, session: nat, id: nat, client: nat, scope: string, newId: nat, now: int)
    requires session !in s.refreshes && RefreshOutcome(s.tokens, id, client, now) != Invalid
    ensures CommitRefresh(ReadRefresh(s, session, id, client, now), session, scope, newId, now)
            == RefreshStep(s, id, client, scope, newId, now)
  {
    assert ReadRefresh(s, session, id, client, now).refreshes - {session} == s.refreshes;
  }

  /** One statement at some clock reading; every id handed out is new. */
  ghost predicate Step(clients: map<nat, Client>, e: Event, now: int, s: State, t: State) {
    match e
    case AuthorizeRead(session, r) =>
      session !in s.calls && MayAuthorize(clients, s.revoked, r) && t == ReadAuthorize(s, session, r)
    case AuthorizeAsk(session, id) =>
      session in s.calls && s.calls[session].stage.ToAsk? && id !in s.issued && t == AskAuthorize(s, session, id, now)
    case Denied(id, tenant, user) => t == DecideStep(s, id, tenant, user, false, 0, now)
    case ApproveTake(session, id, tenant, user) =>
      session !in s.calls && t == TakeApproval(s, session, id, tenant, user, now)
    case ApproveRead(session) =>
      session in s.calls && s.calls[session].stage.ToRead? && t == ReadApproval(s, session)
    case ApproveWrite(session) => Writing(s, session) && t == WriteApproval(s, session)
    case CodeIssued(session, codeId) =>
      && session in s.calls && s.calls[session].stage.ToIssue? && codeId !in s.issued
      && t == IssueCode(s, session, codeId, now)
    case RedeemTake(session, id, client, redirect, proven) =>
      session !in s.calls && t == TakeCode(s, session, id, client, redirect, proven, now)
    case RedeemMint(session, tokenId) =>
      && session in s.calls && s.calls[session].stage.ToMint? && tokenId !in s.issued
      && t == MintTokens(s, session, tokenId, now)
    case RefreshRead(session, id, client) => session !in s.refreshes && t == ReadRefresh(s, session, id, client, now)
    case RefreshCommit(session, scope, newId) =>
      session in s.refreshes && newId !in s.issued && t == CommitRefresh(s, session, scope, newId, now)
    case TokenRevoked(id, client) => t == s.(tokens := RevokeOne(s.tokens, id, client))
    case ClientRevoked(client) => t == s.(revoked := s.revoked + {client})
    case CleanedUp(codes, tokens, pending) =>
      t == s.(codes := s.codes - codes, tokens := s.tokens - tokens, pending := s.pending - pending)
    case SessionLost(session) => t == s.(calls := s.calls - {session}, refreshes := s.refreshes - {session})
  }

  ghost predicate Run(clients: map<nat, Client>, events: seq<Event>, clock: seq<int>, states: seq<State>) {
    && |states| == |events| + 1 && |clock| == |events| && states[0] == EmptyState()
    && forall i :: 0 <= i < |events| ==> Step(clients, events[i], clock[i], states[i], states[i + 1])
  }

  // ---------------------------------------------------------------- what was granted

  ghost predicate CodeHolds(codes: map<nat, Code>, g: Grant) {
    exists id :: id in codes && codes[id].request.grant == g
  }

  ghost predicate TokenHolds(tokens: map<nat, Token>, g: Grant) { exists id :: id in tokens && tokens[id].grant == g }

  /** A call that is about to insert a code or a token carries its grant. */
  predicate Carries(c: Call, g: Grant) { (c.stage.ToIssue? || c.stage.ToMint?) && c.request.grant == g }

  ghost predicate CallHolds(calls: map<nat, Call>, g: Grant) { exists x :: x in calls && Carries(calls[x], g) }

  ghost predicate RefreshHolds(refreshes: map<nat, Refreshing>, g: Grant) {
    exists x :: x in refreshes && refreshes[x].token.grant == g
  }

  /** A grant that a code, a token, an access token or a call under way carries. */
  ghost predicate Held(s: State, g: Grant) {
    || CodeHolds(s.codes, g) || TokenHolds(s.tokens, g) || g in s.access
    || CallHolds(s.calls, g) || RefreshHolds(s.refreshes, g)
  }

  ghost predicate Allowed(clients: map<nat, Client>, g: Grant) {
    g.client in clients && Subset(g.scope, clients[g.client].allowed)
  }

  ghost predicate RequestsOk(clients: map<nat, Client>, pending: map<nat, Pending>, calls: map<nat, Call>) {
    && (forall id :: id in pending ==> Allowed(clients, pending[id].request.grant))
    && (forall x :: x in calls ==> Allowed(clients, calls[x].request.grant))
  }

  ghost predicate AllowedOk(clients: map<nat, Client>, s: State) {
    RequestsOk(clients, s.pending, s.calls) && forall g :: Held(s, g) ==> Allowed(clients, g)
  }

  ghost predicate ConsentedOk(s: State) { forall g :: Held(s, g) ==> AlreadyConsented(s.consents, g) }

  /** A grant that is held after a step was held before, or the step brought it in. */
  ghost predicate Brings(e: Event, s: State, g: Grant) {
    match e
    case AuthorizeRead(_, r) => AlreadyConsented(s.consents, r.grant) && g == r.grant
    case ApproveWrite(session) => session in s.calls && g == s.calls[session].request.grant
    case RefreshCommit(session, scope, _) =>
      && session in s.refreshes && g == s.refreshes[session].token.grant.(scope := g.scope)
      && Subset(g.scope, s.refreshes[session].token.grant.scope)
    case _ => false
  }

  lemma CodePut(codes: map<nat, Code>, id: nat, c: Code, g: Grant)
    requires CodeHolds(codes[id := c], g)
    ensures CodeHolds(codes, g) || g == c.request.grant
  {
    var x :| x in codes[id := c] && codes[id := c][x].request.grant == g;
    if x != id { assert x in codes && codes[x].request.grant == g; }
  }

  lemma TokenPut(tokens: map<nat, Token>, id: nat, t: Token, g: Grant)
    requires TokenHolds(tokens[id := t], g)
    ensures TokenHolds(tokens, g) || g == t.grant
  {
    var x :| x in tokens[id := t] && tokens[id := t][x].grant == g;
    if x != id { assert x in tokens && tokens[x].grant == g; }
  }

  lemma CallPut(calls: map<nat, Call>, x: nat, c: Call, g: Grant)
    requires CallHolds(calls[x := c], g)
    ensures CallHolds(calls, g) || Carries(c, g)
  {
    var y :| y in calls[x := c] && Carries(calls[x := c][y], g);
    if y != x { assert y in calls && Carries(calls[y], g); }
  }

  lemma RefreshPut(refreshes: map<nat, Refreshing>, x: nat, f: Refreshing, g: Grant)
    requires RefreshHolds(refreshes[x := f], g)
    ensures RefreshHolds(refreshes, g) || g == f.token.grant
  {
    var y :| y in refreshes[x := f] && refreshes[x := f][y].token.grant == g;
    if y != x { assert y in refreshes && refreshes[y].token.grant == g; }
  }

  /** Removing rows, and marking tokens revoked, brings no grant in. */
  lemma FewerHold(s: State, g: Grant, codes: set<nat>, tokens: set<nat>, session: nat, client: nat, user: string)
    ensures CodeHolds(s.codes - codes, g) ==> CodeHolds(s.codes, g)
    ensures TokenHolds(s.tokens - tokens, g) ==> TokenHolds(s.tokens, g)
    ensures CallHolds(s.calls - {session}, g) ==> CallHolds(s.calls, g)
    ensures RefreshHolds(s.refreshes - {session}, g) ==> RefreshHolds(s.refreshes, g)
    ensures TokenHolds(RevokeAll(s.tokens, client, user), g) ==> TokenHolds(s.tokens, g)
  {
    if x :| x in s.codes - codes && (s.codes - codes)[x].request.grant == g {
      assert x in s.codes && s.codes[x].request.grant == g;
    }
    if x :| x in s.tokens - tokens && (s.tokens - tokens)[x].grant == g {
      assert x in s.tokens && s.tokens[x].grant == g;
    }
    var fewer := s.calls - {session};
    if x :| x in fewer && Carries(fewer[x], g) { assert x in s.calls && Carries(s.calls[x], g); }
    if x :| x in s.refreshes - {session} && (s.refreshes - {session})[x].token.grant == g {
      assert x in s.refreshes && s.refreshes[x].token.grant == g;
    }
    var all := RevokeAll(s.tokens, client, user);
    if x :| x in all && all[x].grant == g { assert x in s.tokens && s.tokens[x].grant == g; }
  }

  lemma EnterHeld(s: State, session: nat, c: Call, g: Grant)
    requires Held(Enter(s, session, c), g)
    ensures Held(s, g) || Carries(c, g)
  {
    hide CodeHolds, TokenHolds, CallHolds, RefreshHolds;
    if CallHolds(s.calls[session := c], g) { CallPut(s.calls, session, c, g); }
  }

  lemma AskHeld(s: State, session: nat, id: nat, now: int, g: Grant)
    requires session in s.calls && Held(AskAuthorize(s, session, id, now), g)
    ensures Held(s, g)
  {
    hide CodeHolds, TokenHolds, CallHolds, RefreshHolds;
    FewerHold(s, g, {}, {}, session, 0, "");
  }

  lemma TakeApprovalHeld(s: State, session: nat, id: nat, tenant: string, user: string, now: int, g: Grant)
    requires Held(TakeApproval(s, session, id, tenant, user, now), g)
    ensures Held(s, g)
  {
    hide CodeHolds, TokenHolds, CallHolds, RefreshHolds, Enter;
    if Decidable(s.pending, id, tenant, user, now) {
      EnterHeld(s.(pending := s.pending - {id}), session, Call(s.pending[id].request, ToRead), g);
    }
  }

  lemma WriteApprovalHeld(s: State, session: nat, g: Grant)
    requires Writing(s, session) && Held(WriteApproval(s, session), g)
    ensures Held(s, g) || g == s.calls[session].request.grant
  {
    hide CodeHolds, TokenHolds, CallHolds, RefreshHolds, WriteConsent, Enter;
    var c := s.calls[session];
    EnterHeld(s.(consents := WriteConsent(s.consents, c.request.grant, c.stage.existing)), session,
      Call(c.request, ToIssue), g);
  }

  lemma IssueHeld(s: State, session: nat, codeId: nat, now: int, g: Grant)
    requires session in s.calls && s.calls[session].stage.ToIssue? && Held(IssueCode(s, session, codeId, now), g)
    ensures Held(s, g)
  {
    var r := s.calls[session].request;
    assert Carries(s.calls[session], r.grant);
    assert CallHolds(s.calls, r.grant);
    hide CodeHolds, TokenHolds, CallHolds, RefreshHolds;
    FewerHold(s, g, {}, {}, session, 0, "");
    var c := Code(r, false, now + CODE_TTL);
    if CodeHolds(s.codes[codeId := c], g) { CodePut(s.codes, codeId, c, g); }
  }

  lemma TakeCodeHeld(
    s: State, session: nat, id: nat, client: nat, redirect: string, proven: bool, now: int, g: Grant)
    requires Held(TakeCode(s, session, id, client, redirect, proven, now), g)
    ensures Held(s, g)
  {
    if Redeemable(s.codes, id, client, redirect, now) {
      var c := s.codes[id];
      assert CodeHolds(s.codes, c.request.grant);
      hide CodeHolds, TokenHolds, CallHolds, RefreshHolds, Enter;
      if CodeHolds(s.codes[id := c.(used := true)], g) { CodePut(s.codes, id, c.(used := true), g); }
      var used := s.(codes := s.codes[id := c.(used := true)], redeemed := s.redeemed + [id]);
      if !Held(used, g) { EnterHeld(used, session, Call(c.request, ToMint), g); }
    }
  }

  lemma MintHeld(s: State, session: nat, tokenId: nat, now: int, g: Grant)
    requires session in s.calls && s.calls[session].stage.ToMint? && Held(MintTokens(s, session, tokenId, now), g)
    ensures Held(s, g)
  {
    var h := s.calls[session].request.grant;
    assert Carries(s.calls[session], h);
    assert CallHolds(s.calls, h);
    hide CodeHolds, TokenHolds, CallHolds, RefreshHolds;
    FewerHold(s, g, {}, {}, session, 0, "");
    var t := FirstToken(h, tokenId, now);
    if TokenHolds(s.tokens[tokenId := t], g) { TokenPut(s.tokens, tokenId, t, g); }
  }

  lemma ReadRefreshHeld(s: State, session: nat, id: nat, client: nat, now: int, g: Grant)
    requires Held(ReadRefresh(s, session, id, client, now), g)
    ensures Held(s, g)
  {
    if RefreshOutcome(s.tokens, id, client, now) != Invalid {
      assert TokenHolds(s.tokens, s.tokens[id].grant);
      hide CodeHolds, TokenHolds, CallHolds, RefreshHolds;
      var f := Refreshing(id, s.tokens[id], RefreshOutcome(s.tokens, id, client, now) == Reused);
      if RefreshHolds(s.refreshes[session := f], g) { RefreshPut(s.refreshes, session, f, g); }
    }
  }

  lemma RotateHolds(tokens: map<nat, Token>, id: nat, read: Token, newId: nat, now: int, g: Grant)
    requires TokenHolds(RotateFrom(tokens, id, read, newId, now), g)
    ensures TokenHolds(tokens, g) || g == read.grant
  {
    var t := FirstToken(read.grant, newId, now).(chain := read.chain);
    if id in tokens { assert TokenHolds(tokens, tokens[id].grant); }
    hide TokenHolds;
    if id in tokens { TokenPut(tokens[newId := t], id, tokens[id].(revoked := true, replacedBy := Some(newId)), g); }
    if TokenHolds(tokens[newId := t], g) { TokenPut(tokens, newId, t, g); }
  }

  lemma CommitHeld(s: State, session: nat, scope: string, newId: nat, now: int, g: Grant)
    requires session in s.refreshes && Held(CommitRefresh(s, session, scope, newId, now), g)
    ensures Held(s, g)
            || (g == s.refreshes[session].token.grant.(scope := g.scope)
               && Subset(g.scope, s.refreshes[session].token.grant.scope))
  {
    var f := s.refreshes[session];
    assert RefreshHolds(s.refreshes, f.token.grant);
    hide CodeHolds, TokenHolds, CallHolds, RefreshHolds, Subset, RotateFrom, RevokeAll, AskedScope;
    FewerHold(s, g, {}, {}, session, f.token.grant.client, f.token.grant.user);
    if TokenHolds(RotateFrom(s.tokens, f.id, f.token, newId, now), g) {
      RotateHolds(s.tokens, f.id, f.token, newId, now, g);
    }
  }

  lemma RevokeOneHeld(tokens: map<nat, Token>, id: nat, client: nat, g: Grant)
    requires TokenHolds(RevokeOne(tokens, id, client), g)
    ensures TokenHolds(tokens, g)
  {
    if id in tokens && tokens[id].grant.client == client {
      assert TokenHolds(tokens, tokens[id].grant);
      TokenPut(tokens, id, tokens[id].(revoked := true), g);
    }
  }

  lemma HeldBefore(clients: map<nat, Client>, e: Event, now: int, s: State, t: State, g: Grant)
    requires Step(clients, e, now, s, t) && Held(t, g)
    ensures Held(s, g) || Brings(e, s, g)
  {
    hide MayAuthorize, Subset, AlreadyConsented, CodeHolds, TokenHolds, CallHolds, RefreshHolds, AskAuthorize,
      TakeApproval, WriteApproval, IssueCode, TakeCode, MintTokens, ReadRefresh, CommitRefresh, RevokeOne, Enter;
    match e
    case AuthorizeRead(session, r) =>
      EnterHeld(s, session, Call(r, if AlreadyConsented(s.consents, r.grant) then ToIssue else ToAsk), g);
    case AuthorizeAsk(session, id) => AskHeld(s, session, id, now, g);
    case ApproveTake(session, id, tenant, user) => TakeApprovalHeld(s, session, id, tenant, user, now, g);
    case ApproveRead(session) =>
      var r := s.calls[session].request;
      EnterHeld(s, session, Call(r, ToWrite(ConsentOf(s.consents, r.grant.client, r.grant.user))), g);
    case ApproveWrite(session) => WriteApprovalHeld(s, session, g);
    case CodeIssued(session, codeId) => IssueHeld(s, session, codeId, now, g);
    case RedeemTake(session, id, client, redirect, proven) =>
      TakeCodeHeld(s, session, id, client, redirect, proven, now, g);
    case RedeemMint(session, tokenId) => MintHeld(s, session, tokenId, now, g);
    case RefreshRead(session, id, client) => ReadRefreshHeld(s, session, id, client, now, g);
    case RefreshCommit(session, scope, newId) => CommitHeld(s, session, scope, newId, now, g);
    case TokenRevoked(id, client) =>
      if TokenHolds(RevokeOne(s.tokens, id, client), g) { RevokeOneHeld(s.tokens, id, client, g); }
    case CleanedUp(codes, tokens, _) => FewerHold(s, g, codes, tokens, 0, 0, "");
    case SessionLost(session) => FewerHold(s, g, {}, {}, session, 0, "");
    case _ =>
  }

  lemma StepAllowed(clients: map<nat, Client>, e: Event, now: int, s: State, t: State)
    requires AllowedOk(clients, s) && Step(clients, e, now, s, t)
    ensures AllowedOk(clients, t)
  {
    hide Held, Brings;
    forall g | Held(t, g) ensures Allowed(clients, g) {
      hide Step, AllowedOk;
      HeldBefore(clients, e, now, s, t, g);
      if Held(s, g) { HeldIsAllowed(clients, s, g); } else { BroughtIsAllowed(clients, e, now, s, t, g); }
    }
    RequestsAllowed(clients, e, now, s, t);
  }

  lemma HeldIsAllowed(clients: map<nat, Client>, s: State, g: Grant)
    requires AllowedOk(clients, s) && Held(s, g)
    ensures Allowed(clients, g)
  {
    hide Held, Allowed;
  }

  lemma EnterRequests(clients: map<nat, Client>, s: State, session: nat, c: Call)
    requires RequestsOk(clients, s.pending, s.calls) && Allowed(clients, c.request.grant)
    ensures RequestsOk(clients, s.pending, Enter(s, session, c).calls)
  {
    hide Allowed;
  }

  lemma AskRequests(clients: map<nat, Client>, s: State, session: nat, id: nat, now: int)
    requires RequestsOk(clients, s.pending, s.calls) && session in s.calls
    ensures var t := AskAuthorize(s, session, id, now); RequestsOk(clients, t.pending, t.calls)
  {
    hide Allowed;
  }

  lemma TakeRequests(clients: map<nat, Client>, s: State, session: nat, id: nat, tenant: string, user: string, now: int)
    requires RequestsOk(clients, s.pending, s.calls)
    ensures var t := TakeApproval(s, session, id, tenant, user, now); RequestsOk(clients, t.pending, t.calls)
    ensures var t := DecideStep(s, id, tenant, user, false, 0, now); RequestsOk(clients, t.pending, t.calls)
  {
    hide Allowed;
  }

  lemma WriteRequests(clients: map<nat, Client>, s: State, session: nat)
    requires RequestsOk(clients, s.pending, s.calls) && session in s.calls
    ensures RequestsOk(clients, s.pending, ReadApproval(s, session).calls)
    ensures Writing(s, session) ==> RequestsOk(clients, s.pending, WriteApproval(s, session).calls)
  {
    hide Allowed, WriteConsent, ConsentOf;
  }

  lemma TakeCodeRequests(
    clients: map<nat, Client>, s: State, session: nat, id: nat, client: nat, redirect: string, proven: bool, now: int)
    requires AllowedOk(clients, s)
    ensures RequestsOk(clients, s.pending, TakeCode(s, session, id, client, redirect, proven, now).calls)
  {
    if Redeemable(s.codes, id, client, redirect, now) {
      var g := s.codes[id].request.grant;
      assert CodeHolds(s.codes, g);
      assert Held(s, g);
    }
    hide Allowed, Held;
  }

  lemma FewerRequests(clients: map<nat, Client>, s: State, ids: set<nat>, session: nat)
    requires RequestsOk(clients, s.pending, s.calls)
    ensures RequestsOk(clients, s.pending - ids, s.calls) && RequestsOk(clients, s.pending, s.calls - {session})
  {
    hide Allowed;
  }

  lemma RequestsAllowed(clients: map<nat, Client>, e: Event, now: int, s: State, t: State)
    requires AllowedOk(clients, s) && Step(clients, e, now, s, t)
    ensures RequestsOk(clients, t.pending, t.calls)
  {
    hide RequestsOk, Held, Subset, AlreadyConsented, DecideStep, AskAuthorize, TakeApproval, ReadApproval,
      WriteApproval, IssueCode, TakeCode, MintTokens, ReadRefresh, CommitRefresh, RevokeOne, Enter;
    match e
    case AuthorizeRead(session, r) =>
      EnterRequests(clients, s, session, Call(r, if AlreadyConsented(s.consents, r.grant) then ToIssue else ToAsk));
    case AuthorizeAsk(session, id) => AskRequests(clients, s, session, id, now);
    case Denied(id, tenant, user) => TakeRequests(clients, s, 0, id, tenant, user, now);
    case ApproveTake(session, id, tenant, user) => TakeRequests(clients, s, session, id, tenant, user, now);
    case ApproveRead(session) => WriteRequests(clients, s, session);
    case ApproveWrite(session) => WriteRequests(clients, s, session);
    case CodeIssued(session, codeId) => FewerRequests(clients, s, {}, session);
    case RedeemTake(session, id, client, redirect, proven) =>
      TakeCodeRequests(clients, s, session, id, client, redirect, proven, now);
    case RedeemMint(session, tokenId) => FewerRequests(clients, s, {}, session);
    case CleanedUp(_, _, pending) => FewerRequests(clients, s, pending, 0);
    case SessionLost(session) => FewerRequests(clients, s, {}, session);
    case _ =>
  }

  lemma BroughtIsAllowed(clients: map<nat, Client>, e: Event, now: int, s: State, t: State, g: Grant)
    requires AllowedOk(clients, s) && Step(clients, e, now, s, t) && Brings(e, s, g)
    ensures Allowed(clients, g)
  {
    if e.RefreshCommit? {
      var h := s.refreshes[e.session].token.grant;
      assert RefreshHolds(s.refreshes, h);
      assert Held(s, h);
      hide Subset, Held, CommitRefresh;
      SubsetTransitive(g.scope, h.scope, clients[h.client].allowed);
    } else {
      hide Subset, Held, WriteApproval, AlreadyConsented, Enter;
    }
  }

  // ---------------------------------------------------------------- consents

  /** Writing back what was read loses nothing that is held: every token of every grant of that client and user is among
      those read and those approved. */
  ghost predicate Covers(s: State, session: nat)
    requires Writing(s, session)
  {
    var g, existing := s.calls[session].request.grant, s.calls[session].stage.existing;
    forall h, w :: Held(s, h) && h.client == g.client && h.user == g.user && w in ScopeTokens(h.scope) ==>
      w in ScopeTokens(g.scope) || (existing.Some? && w in ScopeTokens(existing.value))
  }

  /** What a write leaves consented, token by token. */
  lemma WrittenConsent(consents: Consents, g: Grant, existing: Option<string>, h: Grant)
    requires h.client == g.client && h.user == g.user
    ensures AlreadyConsented(WriteConsent(consents, g, existing), h) <==>
            forall w :: w in ScopeTokens(h.scope) ==>
              w in ScopeTokens(g.scope) || (existing.Some? && w in ScopeTokens(existing.value))
  {
    hide MergedScope, ScopeTokens;
    MergedIsUnion(existing, g.scope);
  }

  lemma WriteKeepsOthers(consents: Consents, g: Grant, existing: Option<string>, h: Grant)
    requires (h.client, h.user) != (g.client, g.user)
    ensures AlreadyConsented(WriteConsent(consents, g, existing), h) <==> AlreadyConsented(consents, h)
  {
    hide MergedScope, Subset;
  }

  /** A write keeps everything held within consent if and only if it covers it. */
  lemma WriteConsentedExactly(s: State, session: nat)
    requires Writing(s, session) && ConsentedOk(s)
    ensures ConsentedOk(WriteApproval(s, session)) <==> Covers(s, session)
  {
    hide MergedScope, Subset, ScopeTokens, AlreadyConsented, WriteConsent;
    var a, t := s.calls[session].stage, WriteApproval(s, session);
    var g := s.calls[session].request.grant;
    forall h ensures Held(t, h) <==> Held(s, h) || h == g { HeldAfterWrite(s, session, h); }
    forall h: Grant | h.client == g.client && h.user == g.user
      ensures AlreadyConsented(t.consents, h) <==>
              forall w :: w in ScopeTokens(h.scope) ==>
                w in ScopeTokens(g.scope) || (a.existing.Some? && w in ScopeTokens(a.existing.value))
    {
      WrittenConsent(s.consents, g, a.existing, h);
    }
    forall h: Grant | (h.client, h.user) != (g.client, g.user)
      ensures AlreadyConsented(t.consents, h) <==> AlreadyConsented(s.consents, h)
    {
      WriteKeepsOthers(s.consents, g, a.existing, h);
    }
    hide Held;
  }

  lemma HeldAfterWrite(s: State, session: nat, h: Grant)
    requires Writing(s, session)
    ensures Held(WriteApproval(s, session), h) <==> Held(s, h) || h == s.calls[session].request.grant
  {
    var g, t := s.calls[session].request.grant, WriteApproval(s, session);
    assert session in t.calls && Carries(t.calls[session], g);
    assert CallHolds(t.calls, g);
    if x :| x in s.calls && Carries(s.calls[x], h) { assert x in t.calls && Carries(t.calls[x], h); }
    hide CodeHolds, TokenHolds, RefreshHolds, CallHolds, WriteApproval;
    if Held(t, h) { WriteApprovalHeld(s, session, h); }
  }

  lemma StepConsented(clients: map<nat, Client>, e: Event, now: int, s: State, t: State)
    requires ConsentedOk(s) && Step(clients, e, now, s, t)
    ensures e.ApproveWrite? ==> (ConsentedOk(t) <==> Covers(s, e.session))
    ensures !e.ApproveWrite? ==> ConsentedOk(t)
  {
    if e.ApproveWrite? {
      WriteConsentedExactly(s, e.session);
    } else {
      hide Held, Step, Subset;
      SameConsents(clients, e, now, s, t);
      forall g | Held(t, g) ensures AlreadyConsented(t.consents, g) {
        HeldBefore(clients, e, now, s, t, g);
        if Brings(e, s, g) && e.RefreshCommit? { NarrowerIsConsented(s, e.session, g); }
      }
    }
  }

  lemma SameConsents(clients: map<nat, Client>, e: Event, now: int, s: State, t: State)
    requires Step(clients, e, now, s, t) && !e.ApproveWrite?
    ensures t.consents == s.consents
  {
    hide MayAuthorize, AlreadyConsented, ReadAuthorize, AskAuthorize, TakeApproval, ReadApproval, IssueCode, TakeCode,
      MintTokens, ReadRefresh, CommitRefresh, RevokeOne;
  }

  lemma NarrowerIsConsented(s: State, session: nat, g: Grant)
    requires ConsentedOk(s) && session in s.refreshes
    requires var h := s.refreshes[session].token.grant; g == h.(scope := g.scope) && Subset(g.scope, h.scope)
    ensures AlreadyConsented(s.consents, g)
  {
    hide Subset;
    var h := s.refreshes[session].token.grant;
    assert RefreshHolds(s.refreshes, h);
    assert Held(s, h);
    SubsetTransitive(g.scope, h.scope, s.consents[(h.client, h.user)]);
  }

  /** Over every run: every code, refresh token and user-delegated access token stays within what the user has consented
      to, at each step up to `n`, if and only if every consent written by then covers what is held. Within what the
      client may ask for they are in any case. */
  lemma {:induction false} ScopesContainedExactly(
    clients: map<nat, Client>, events: seq<Event>, clock: seq<int>, states: seq<State>, n: nat)
    requires Run(clients, events, clock, states) && n <= |events|
    ensures AllowedOk(clients, states[n])
    ensures (forall i :: 0 <= i <= n ==> ConsentedOk(states[i]))
            <==> forall k :: 0 <= k < n && events[k].ApproveWrite? && Writing(states[k], events[k].session) ==>
              Covers(states[k], events[k].session)
  {
    hide Step, AllowedOk, ConsentedOk, Covers;
    if n == 0 {
      NothingHeld(clients);
    } else {
      ScopesContainedExactly(clients, events, clock, states, n - 1);
      var e, s, t := events[n - 1], states[n - 1], states[n];
      assert Step(clients, e, clock[n - 1], s, states[n - 1 + 1]);
      StepAllowed(clients, e, clock[n - 1], s, t);
      if ConsentedOk(s) { StepConsented(clients, e, clock[n - 1], s, t); }
      SessionIsThere(clients, e, clock[n - 1], s, t);
    }
  }

  lemma SessionIsThere(clients: map<nat, Client>, e: Event, now: int, s: State, t: State)
    requires Step(clients, e, now, s, t)
    ensures e.ApproveWrite? ==> Writing(s, e.session)
    ensures e.RefreshCommit? ==> e.session in s.refreshes
  {
    hide MayAuthorize, AlreadyConsented, ReadAuthorize, AskAuthorize, TakeApproval, ReadApproval, WriteApproval,
      IssueCode, TakeCode, MintTokens, ReadRefresh, CommitRefresh, RevokeOne;
  }

  /** A write that finds the consent it read covers everything. */
  lemma FreshWriteCovers(s: State, session: nat)
    requires Writing(s, session) && ConsentedOk(s)
    requires var c := s.calls[session];
             c.stage.existing == ConsentOf(s.consents, c.request.grant.client, c.request.grant.user)
    ensures Covers(s, session)
  {
    hide Held, ScopeTokens;
  }

  ghost predicate WritesAreFresh(events: seq<Event>, states: seq<State>)
    requires |states| == |events| + 1
  {
    forall k :: 0 <= k < |events| && events[k].ApproveWrite? && Writing(states[k], events[k].session) ==>
      var c := states[k].calls[events[k].session];
      c.stage.existing == ConsentOf(states[k].consents, c.request.grant.client, c.request.grant.user)
  }

  /** When no approval of the same client and user is written between the read and the write of another, everything is
      within both the client's allowed scope and the user's recorded consent, over every run. */
  lemma {:induction false} ScopesAreContained(
    clients: map<nat, Client>, events: seq<Event>, clock: seq<int>, states: seq<State>, n: nat)
    requires Run(clients, events, clock, states) && WritesAreFresh(events, states) && n <= |events|
    ensures AllowedOk(clients, states[n]) && ConsentedOk(states[n])
  {
    hide Step, ConsentedOk, AllowedOk, Covers;
    ScopesContainedExactly(clients, events, clock, states, n);
    if n == 0 {
      NothingHeld(clients);
    } else {
      ScopesAreContained(clients, events, clock, states, n - 1);
      forall k | 0 <= k < n && events[k].ApproveWrite? && Writing(states[k], events[k].session)
        ensures Covers(states[k], events[k].session)
      {
        ScopesAreContained(clients, events, clock, states, k);
        FreshWriteCovers(states[k], events[k].session);
      }
    }
  }

  lemma NothingHeld(clients: map<nat, Client>)
    ensures AllowedOk(clients, EmptyState()) && ConsentedOk(EmptyState())
  {
  }

  /** Two approvals of one client and user that both read the consent before either writes, then issue their codes: the
      code of the first is within the stored consent if and only if every token of it was in the consent they read or
      is approved by the second. */
  lemma OverlappingApprovals(clients: map<nat, Client>, s: State, p: nat, q: nat, code: nat, now: int)
      returns (events: seq<Event>, states: seq<State>)
    requires p in s.pending && q in s.pending && p != q && s.calls == map[] && code !in s.issued
    requires s.pending[p].expires > now && s.pending[q].expires > now
    requires var g, h := s.pending[p].request.grant, s.pending[q].request.grant;
             g.client == h.client && g.user == h.user
    ensures |events| == 7 && |states| == 8 && states[0] == s
    ensures forall i :: 0 <= i < 7 ==> Step(clients, events[i], now, states[i], states[i + 1])
    ensures var g, h := s.pending[p].request.grant, s.pending[q].request.grant;
            var existing := ConsentOf(s.consents, g.client, g.user);
            && code in states[7].codes && states[7].codes[code].request.grant == g
            && (AlreadyConsented(states[7].consents, g) <==>
                forall w :: w in ScopeTokens(g.scope) ==>
                  w in ScopeTokens(h.scope) || (existing.Some? && w in ScopeTokens(existing.value)))
  {
    hide Step, TakeApproval, ReadApproval, MergedScope, Subset, ScopeTokens, AlreadyConsented;
    var g, h := s.pending[p].request.grant, s.pending[q].request.grant;
    events := [ApproveTake(0, p, g.tenant, g.user), ApproveTake(1, q, h.tenant, h.user), ApproveRead(0),
               ApproveRead(1), ApproveWrite(0), ApproveWrite(1), CodeIssued(0, code)];
    var read := BothRead(clients, s, p, q, now);
    var existing := ConsentOf(s.consents, g.client, g.user);
    var wrote := BothWrite(clients, read[4], s.pending[p].request, s.pending[q].request, existing, code, now);
    states := read + wrote[1..];
    forall i | 0 <= i < 7 ensures Step(clients, events[i], now, states[i], states[i + 1]) {
      if i >= 4 { assert states[i] == wrote[i - 4] && states[i + 1] == wrote[i - 3]; }
    }
  }

  /** Both write the consent back, and the first issues its code. */
  lemma BothWrite(
    clients: map<nat, Client>, s: State, a: Request, b: Request, existing: Option<string>, code: nat, now: int)
      returns (states: seq<State>)
    requires s.calls == map[0 := Call(a, ToWrite(existing)), 1 := Call(b, ToWrite(existing))] && code !in s.issued
    requires a.grant.client == b.grant.client && a.grant.user == b.grant.user
    ensures |states| == 4 && states[0] == s
    ensures Step(clients, ApproveWrite(0), now, states[0], states[1])
            && Step(clients, ApproveWrite(1), now, states[1], states[2])
            && Step(clients, CodeIssued(0, code), now, states[2], states[3])
    ensures code in states[3].codes && states[3].codes[code].request == a
    ensures AlreadyConsented(states[3].consents, a.grant) <==>
            forall w :: w in ScopeTokens(a.grant.scope) ==>
              w in ScopeTokens(b.grant.scope) || (existing.Some? && w in ScopeTokens(existing.value))
  {
    hide MergedScope, Subset, ScopeTokens, AlreadyConsented, WriteConsent;
    var s1 := WriteApproval(s, 0);
    var s2 := WriteApproval(s1, 1);
    assert s2.consents == WriteConsent(s1.consents, b.grant, existing);
    WrittenConsent(s1.consents, b.grant, existing, a.grant);
    states := [s, s1, s2, IssueCode(s2, 0, code, now)];
  }

  /** Both take their request, then both read the consent. */
  lemma BothRead(clients: map<nat, Client>, s: State, p: nat, q: nat, now: int) returns (states: seq<State>)
    requires p in s.pending && q in s.pending && p != q && s.calls == map[]
    requires s.pending[p].expires > now && s.pending[q].expires > now
    requires var g, h := s.pending[p].request.grant, s.pending[q].request.grant;
             g.client == h.client && g.user == h.user
    ensures |states| == 5 && states[0] == s
    ensures var g, h := s.pending[p].request.grant, s.pending[q].request.grant;
            var existing := ConsentOf(s.consents, g.client, g.user);
            && Step(clients, ApproveTake(0, p, g.tenant, g.user), now, states[0], states[1])
            && Step(clients, ApproveTake(1, q, h.tenant, h.user), now, states[1], states[2])
            && Step(clients, ApproveRead(0), now, states[2], states[3])
            && Step(clients, ApproveRead(1), now, states[3], states[4])
            && states[4].issued == s.issued && states[4].codes == s.codes
            && states[4].calls == map[0 := Call(s.pending[p].request, ToWrite(existing)),
                                      1 := Call(s.pending[q].request, ToWrite(existing))]
  {
    var g, h := s.pending[p].request.grant, s.pending[q].request.grant;
    var s1 := TakeApproval(s, 0, p, g.tenant, g.user, now);
    var s2 := TakeApproval(s1, 1, q, h.tenant, h.user, now);
    var s3 := ReadApproval(s2, 0);
    states := [s, s1, s2, s3, ReadApproval(s3, 1)];
  }

  // ---------------------------------------------------------------- single use

  ghost predicate CodesOk(s: State) {
    && (forall id :: id in s.codes ==> id in s.issued)
    && (forall i :: 0 <= i < |s.redeemed| ==>
       s.redeemed[i] in s.issued && (s.redeemed[i] in s.codes ==> s.codes[s.redeemed[i]].used))
    && (forall i, j :: 0 <= i < j < |s.redeemed| ==> s.redeemed[i] != s.redeemed[j])
  }

  lemma TakeCodeCodes(s: State, session: nat, id: nat, client: nat, redirect: string, proven: bool, now: int)
    requires CodesOk(s)
    ensures CodesOk(TakeCode(s, session, id, client, redirect, proven, now))
  {
    hide Enter;
  }

  lemma WithCodeCodes(s: State, id: nat, r: Request, now: int)
    requires CodesOk(s) && id !in s.issued
    ensures CodesOk(WithCode(s, id, r, now))
  {
  }

  lemma IssueCodes(s: State, session: nat, codeId: nat, now: int)
    requires CodesOk(s) && session in s.calls && codeId !in s.issued
    ensures CodesOk(IssueCode(s, session, codeId, now))
  {
    hide WithCode;
    WithCodeCodes(s.(calls := s.calls - {session}), codeId, s.calls[session].request, now);
  }

  lemma SameCodes(s: State, t: State)
    requires CodesOk(s) && t.codes == s.codes && t.redeemed == s.redeemed && s.issued <= t.issued
    ensures CodesOk(t)
  {
  }

  lemma FewerCodes(s: State, t: State, gone: set<nat>)
    requires CodesOk(s) && t.codes == s.codes - gone && t.redeemed == s.redeemed && s.issued == t.issued
    ensures CodesOk(t)
  {
  }

  lemma StepCodes(clients: map<nat, Client>, e: Event, now: int, s: State, t: State)
    requires CodesOk(s) && Step(clients, e, now, s, t)
    ensures CodesOk(t)
  {
    hide MayAuthorize, AlreadyConsented, ReadAuthorize, AskAuthorize, TakeApproval, ReadApproval, WriteApproval,
      IssueCode, TakeCode, MintTokens, ReadRefresh, CommitRefresh, RevokeOne, CodesOk;
    match e
    case CodeIssued(session, codeId) => IssueCodes(s, session, codeId, now);
    case RedeemTake(session, id, client, redirect, proven) =>
      TakeCodeCodes(s, session, id, client, redirect, proven, now);
    case CleanedUp(codes, _, _) => FewerCodes(s, t, codes);
    case _ => SameCodes(s, t);
  }

  /** Over every run a code is redeemed at most once. */
  lemma {:induction false} CodesRedeemOnce(
    clients: map<nat, Client>, events: seq<Event>, clock: seq<int>, states: seq<State>, i: nat)
    requires Run(clients, events, clock, states) && i <= |events|
    ensures CodesOk(states[i])
    ensures forall a, b :: 0 <= a < b < |states[i].redeemed| ==> states[i].redeemed[a] != states[i].redeemed[b]
  {
    if i > 0 {
      CodesRedeemOnce(clients, events, clock, states, i - 1);
      assert Step(clients, events[i - 1], clock[i - 1], states[i - 1], states[i - 1 + 1]);
      hide Step;
      StepCodes(clients, events[i - 1], clock[i - 1], states[i - 1], states[i]);
    }
  }

  // ---------------------------------------------------------------- rotation chains

  ghost predicate ChainIds(s: State) {
    && (forall id :: id in s.tokens ==> id in s.issued && s.tokens[id].chain in s.issued)
    && (forall x :: x in s.refreshes ==> s.refreshes[x].id in s.issued && s.refreshes[x].token.chain in s.issued)
  }

  ghost predicate Live(s: State, id: nat) { id in s.tokens && !s.tokens[id].revoked }

  ghost predicate ChainsOk(s: State) {
    forall a, b :: Live(s, a) && Live(s, b) && s.tokens[a].chain == s.tokens[b].chain ==> a == b
  }

  /** The commit rotates a token while another token of its chain is live. */
  ghost predicate Forks(s: State, session: nat, scope: string)
    requires session in s.refreshes
  {
    var f := s.refreshes[session];
    && !f.reused && Subset(AskedScope(scope, f.token.grant.scope), f.token.grant.scope)
    && exists id :: Live(s, id) && id != f.id && s.tokens[id].chain == f.token.chain
  }

  lemma StepChainIds(clients: map<nat, Client>, e: Event, now: int, s: State, t: State)
    requires ChainIds(s) && Step(clients, e, now, s, t)
    ensures ChainIds(t)
  {
    hide MayAuthorize, AlreadyConsented, ReadAuthorize, AskAuthorize, TakeApproval, ReadApproval, WriteApproval,
      IssueCode, TakeCode, MintTokens, ReadRefresh, CommitRefresh, RevokeOne, ChainIds;
    match e
    case RefreshRead(session, id, client) => ReadChainIds(s, session, id, client, now);
    case RefreshCommit(session, scope, newId) => CommitChainIds(s, session, scope, newId, now);
    case RedeemMint(session, tokenId) => MintChainIds(s, session, tokenId, now);
    case TokenRevoked(id, client) => RevokeChainIds(s, id, client);
    case CleanedUp(_, tokens, _) => FewerChainIds(s, t, tokens, 0);
    case SessionLost(session) => FewerChainIds(s, t, {}, session);
    case _ => SameChainIds(s, t);
  }

  lemma SameChainIds(s: State, t: State)
    requires ChainIds(s) && t.tokens == s.tokens && t.refreshes == s.refreshes && s.issued <= t.issued
    ensures ChainIds(t)
  {
  }

  lemma FewerChainIds(s: State, t: State, gone: set<nat>, session: nat)
    requires ChainIds(s) && t.tokens == s.tokens - gone && t.issued == s.issued
    requires t.refreshes == s.refreshes || t.refreshes == s.refreshes - {session}
    ensures ChainIds(t)
  {
  }

  lemma ReadChainIds(s: State, session: nat, id: nat, client: nat, now: int)
    requires ChainIds(s)
    ensures ChainIds(ReadRefresh(s, session, id, client, now))
  {
  }

  lemma RevokeChainIds(s: State, id: nat, client: nat)
    requires ChainIds(s)
    ensures ChainIds(s.(tokens := RevokeOne(s.tokens, id, client)))
  {
  }

  lemma MintChainIds(s: State, session: nat, tokenId: nat, now: int)
    requires ChainIds(s) && session in s.calls
    ensures ChainIds(MintTokens(s, session, tokenId, now))
  {
  }

  lemma CommitChainIds(s: State, session: nat, scope: string, newId: nat, now: int)
    requires ChainIds(s) && session in s.refreshes
    ensures ChainIds(CommitRefresh(s, session, scope, newId, now))
  {
    hide Subset, AskedScope;
  }

  /** A rotation keeps one live token per chain if and only if it does not fork the chain. */
  lemma CommitChainsExactly(s: State, session: nat, scope: string, newId: nat, now: int)
    requires ChainIds(s) && ChainsOk(s) && session in s.refreshes && newId !in s.issued
    ensures ChainsOk(CommitRefresh(s, session, scope, newId, now)) <==> !Forks(s, session, scope)
  {
    hide Subset, AskedScope;
    var f, t := s.refreshes[session], CommitRefresh(s, session, scope, newId, now);
    if !f.reused && Subset(AskedScope(scope, f.token.grant.scope), f.token.grant.scope) {
      forall id ensures Live(t, id) <==> id == newId || (Live(s, id) && id != f.id) {}
      assert t.tokens[newId].chain == f.token.chain;
      assert forall id :: Live(s, id) && id != f.id ==> t.tokens[id].chain == s.tokens[id].chain;
      hide CommitRefresh;
      if id :| Live(s, id) && id != f.id && s.tokens[id].chain == f.token.chain {
        assert Live(t, id) && Live(t, newId);
      }
    } else {
      forall id ensures Live(t, id) ==> Live(s, id) && t.tokens[id].chain == s.tokens[id].chain {}
    }
  }

  lemma MintChains(s: State, session: nat, tokenId: nat, now: int)
    requires ChainIds(s) && ChainsOk(s) && session in s.calls && tokenId !in s.issued
    ensures ChainsOk(MintTokens(s, session, tokenId, now))
  {
    var t := MintTokens(s, session, tokenId, now);
    forall x ensures Live(t, x) ==> x == tokenId || (Live(s, x) && t.tokens[x].chain == s.tokens[x].chain) {}
    assert forall x :: Live(s, x) ==> s.tokens[x].chain != tokenId;
  }

  lemma StepChains(clients: map<nat, Client>, e: Event, now: int, s: State, t: State)
    requires ChainIds(s) && ChainsOk(s) && Step(clients, e, now, s, t)
    ensures e.RefreshCommit? ==> (ChainsOk(t) <==> !Forks(s, e.session, e.scope))
    ensures !e.RefreshCommit? ==> ChainsOk(t)
  {
    hide MayAuthorize, AlreadyConsented, ReadAuthorize, AskAuthorize, TakeApproval, ReadApproval, WriteApproval,
      IssueCode, TakeCode, MintTokens, ReadRefresh, CommitRefresh, Forks, ChainIds;
    match e
    case RefreshCommit(session, scope, newId) => CommitChainsExactly(s, session, scope, newId, now);
    case RedeemMint(session, tokenId) => MintChains(s, session, tokenId, now);
    case TokenRevoked(id, client) => FewerLive(s, t);
    case CleanedUp(_, tokens, _) => FewerLive(s, t);
    case _ => assert t.tokens == s.tokens;
  }

  lemma FewerLive(s: State, t: State)
    requires ChainsOk(s)
    requires forall x :: x in t.tokens ==>
               x in s.tokens && t.tokens[x].chain == s.tokens[x].chain && (s.tokens[x].revoked ==> t.tokens[x].revoked)
    ensures ChainsOk(t)
  {
    forall x ensures Live(t, x) ==> Live(s, x) {}
  }

  /** Over every run: each rotation chain has at most one token that is not revoked, at each step up to `n`, if and only
      if no refresh committed by then rotates a token while another of its chain is live. */
  lemma {:induction false} OneLiveTokenPerChainExactly(
    clients: map<nat, Client>, events: seq<Event>, clock: seq<int>, states: seq<State>, n: nat)
    requires Run(clients, events, clock, states) && n <= |events|
    ensures ChainIds(states[n])
    ensures (forall i :: 0 <= i <= n ==> ChainsOk(states[i]))
            <==> forall k :: 0 <= k < n && events[k].RefreshCommit? && events[k].session in states[k].refreshes ==>
                   !Forks(states[k], events[k].session, events[k].scope)
  {
    hide Step, ChainIds, ChainsOk, Forks;
    if n == 0 {
      NoTokens();
    } else {
      OneLiveTokenPerChainExactly(clients, events, clock, states, n - 1);
      var e, s, t := events[n - 1], states[n - 1], states[n];
      assert Step(clients, e, clock[n - 1], s, states[n - 1 + 1]);
      StepChainIds(clients, e, clock[n - 1], s, t);
      if ChainsOk(s) { StepChains(clients, e, clock[n - 1], s, t); }
      SessionIsThere(clients, e, clock[n - 1], s, t);
    }
  }

  /** Every rotation finds the token it read still unrevoked. */
  ghost predicate RefreshesAreFresh(events: seq<Event>, states: seq<State>)
    requires |states| == |events| + 1
  {
    forall k :: 0 <= k < |events| && events[k].RefreshCommit? && events[k].session in states[k].refreshes ==>
      var f := states[k].refreshes[events[k].session];
      !f.reused ==> Live(states[k], f.id) && states[k].tokens[f.id].chain == f.token.chain
  }

  lemma FreshRotationForksNothing(s: State, session: nat, scope: string)
    requires ChainsOk(s) && session in s.refreshes
    requires var f := s.refreshes[session]; !f.reused ==> Live(s, f.id) && s.tokens[f.id].chain == f.token.chain
    ensures !Forks(s, session, scope)
  {
  }

  /** When no refresh overlaps another of the same token, each rotation chain has at most one live token, over every
      run. */
  lemma {:induction false} OneLiveTokenPerChain(
    clients: map<nat, Client>, events: seq<Event>, clock: seq<int>, states: seq<State>, n: nat)
    requires Run(clients, events, clock, states) && RefreshesAreFresh(events, states) && n <= |events|
    ensures ChainsOk(states[n])
  {
    hide Step, ChainsOk, Forks, ChainIds;
    OneLiveTokenPerChainExactly(clients, events, clock, states, n);
    if n == 0 {
      NoTokens();
    } else {
      OneLiveTokenPerChain(clients, events, clock, states, n - 1);
      forall k | 0 <= k < n && events[k].RefreshCommit? && events[k].session in states[k].refreshes
        ensures !Forks(states[k], events[k].session, events[k].scope)
      {
        OneLiveTokenPerChain(clients, events, clock, states, k);
        FreshRotationForksNothing(states[k], events[k].session, events[k].scope);
      }
    }
  }

  lemma NoTokens()
    ensures ChainIds(EmptyState()) && ChainsOk(EmptyState())
  {
  }

  /** A committed rotation makes its successor live and leaves the other live tokens alone. */
  lemma CommitMakesLive(s: State, session: nat, newId: nat, now: int, other: nat)
    requires session in s.refreshes && !s.refreshes[session].reused && newId !in s.tokens
             && newId != s.refreshes[session].id
    ensures var f, t := s.refreshes[session], CommitRefresh(s, session, "", newId, now);
            && Live(t, newId) && t.tokens[newId].chain == f.token.chain && t.issued == s.issued + {newId}
            && (Live(s, other) && other != f.id ==> Live(t, other) && t.tokens[other].chain == s.tokens[other].chain)
  {
    assert Subset(s.refreshes[session].token.grant.scope, s.refreshes[session].token.grant.scope);
    hide Subset;
  }

  /** Two refreshes that both read a live token before either commits leave two live tokens in its chain. */
  lemma OverlappingRefreshesFork(clients: map<nat, Client>, s: State, id: nat, a: nat, b: nat, now: int)
      returns (events: seq<Event>, states: seq<State>)
    requires Live(s, id) && s.tokens[id].expires > now && s.refreshes == map[] && ChainIds(s)
    requires a !in s.issued && b !in s.issued && a != b
    ensures |events| == 4 && |states| == 5 && states[0] == s
    ensures forall i :: 0 <= i < 4 ==> Step(clients, events[i], now, states[i], states[i + 1])
    ensures Live(states[4], a) && Live(states[4], b) && states[4].tokens[a].chain == states[4].tokens[b].chain
  {
    var client := s.tokens[id].grant.client;
    events := [RefreshRead(0, id, client), RefreshRead(1, id, client), RefreshCommit(0, "", a),
      RefreshCommit(1, "", b)];
    var s1 := ReadRefresh(s, 0, id, client, now);
    var s2 := ReadRefresh(s1, 1, id, client, now);
    var f := Refreshing(id, s.tokens[id], false);
    assert s2 == s.(refreshes := map[0 := f, 1 := f]);
    hide ReadRefresh, CommitRefresh, Live;
    var s3 := CommitRefresh(s2, 0, "", a, now);
    CommitMakesLive(s2, 0, a, now, a);
    NewIdIsFree(s2, 0, a, b, now);
    var s4 := CommitRefresh(s3, 1, "", b, now);
    CommitMakesLive(s3, 1, b, now, a);
    states := [s, s1, s2, s3, s4];
  }

  lemma NewIdIsFree(s: State, session: nat, a: nat, b: nat, now: int)
    requires session in s.refreshes && a != b && b !in s.tokens && b != s.refreshes[session].id
    ensures b !in CommitRefresh(s, session, "", a, now).tokens
  {
  }

  /** Presenting a revoked token leaves no live token for that client and user, and mints nothing. */
  lemma ReuseRevokesEverything(s: State, session: nat, scope: string, newId: nat, now: int, other: nat)
    requires session in s.refreshes && s.refreshes[session].reused
    ensures var t, g := CommitRefresh(s, session, scope, newId, now), s.refreshes[session].token.grant;
            && t.access == s.access && t.tokens.Keys == s.tokens.Keys
            && (Live(t, other) ==> !(t.tokens[other].grant.client == g.client && t.tokens[other].grant.user == g.user))
  {
  }
}
