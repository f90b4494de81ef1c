/** Where codes, tokens and requests come from, over every run: each is used only by the client, user and redirect it
    was made for, and only in its time. The conditions are written out, without the tests of the store. */
module OAuthOrigins {
  import opened Prelude
  import opened OAuthScope
  import opened OAuth
  import opened OAuthRuns

  // ---------------------------------------------------------------- ids are handed out once

  lemma StepIssued(clients: map<nat, Client>, e: Event, now: int, s: State, t: State)
    requires Step(clients, e, now, s, t)
    ensures s.issued <= t.issued
    ensures e.CodeIssued? ==> e.codeId !in s.issued && e.codeId in t.issued
    ensures e.AuthorizeAsk? ==> e.id !in s.issued && e.id in t.issued
    ensures e.RedeemMint? ==> e.tokenId !in s.issued && e.tokenId in t.issued
    ensures e.RefreshCommit? ==> e.newId !in s.issued
  {
    hide MayAuthorize, AlreadyConsented, ReadAuthorize, AskAuthorize, TakeApproval, ReadApproval, WriteApproval,
      TakeCode, MintTokens, ReadRefresh, CommitRefresh, RevokeOne;
  }

  lemma {:induction false} IssuedStays(
    clients: map<nat, Client>, events: seq<Event>, clock: seq<int>, states: seq<State>, i: nat, j: nat)
    requires Run(clients, events, clock, states) && i <= j <= |events|
    ensures states[i].issued <= states[j].issued
    decreases j - i
  {
    hide Step;
    if i < j {
      IssuedStays(clients, events, clock, states, i, j - 1);
      assert Step(clients, events[j - 1], clock[j - 1], states[j - 1], states[j - 1 + 1]);
      StepIssued(clients, events[j - 1], clock[j - 1], states[j - 1], states[j]);
    }
  }

  lemma CodeIssuedOnce(
    clients: map<nat, Client>, events: seq<Event>, clock: seq<int>, states: seq<State>, i: nat, j: nat)
    requires Run(clients, events, clock, states) && i < j < |events|
    requires events[i].CodeIssued? && events[j].CodeIssued?
    ensures events[i].codeId != events[j].codeId
  {
    hide Step;
    assert Step(clients, events[i], clock[i], states[i], states[i + 1]);
    assert Step(clients, events[j], clock[j], states[j], states[j + 1]);
    StepIssued(clients, events[i], clock[i], states[i], states[i + 1]);
    StepIssued(clients, events[j], clock[j], states[j], states[j + 1]);
    IssuedStays(clients, events, clock, states, i + 1, j);
  }

  lemma AskedOnce(
    clients: map<nat, Client>, events: seq<Event>, clock: seq<int>, states: seq<State>, i: nat, j: nat)
    requires Run(clients, events, clock, states) && i < j < |events|
    requires events[i].AuthorizeAsk? && events[j].AuthorizeAsk?
    ensures events[i].id != events[j].id
  {
    hide Step;
    assert Step(clients, events[i], clock[i], states[i], states[i + 1]);
    assert Step(clients, events[j], clock[j], states[j], states[j + 1]);
    StepIssued(clients, events[i], clock[i], states[i], states[i + 1]);
    StepIssued(clients, events[j], clock[j], states[j], states[j + 1]);
    IssuedStays(clients, events, clock, states, i + 1, j);
  }

  // ---------------------------------------------------------------- codes

  /** Event `j` issued the code, from a call with this request. */
  ghost predicate IssuedFrom(events: seq<Event>, states: seq<State>, j: nat, id: nat, r: Request)
    requires |states| == |events| + 1 && j < |events|
  {
    && events[j].CodeIssued? && events[j].codeId == id
    && events[j].session in states[j].calls && states[j].calls[events[j].session].request == r
  }

  lemma CodeKept(clients: map<nat, Client>, e: Event, now: int, s: State, t: State, id: nat)
    requires Step(clients, e, now, s, t) && id in t.codes
    ensures e.CodeIssued? && e.codeId == id ==>
            e.session in s.calls && t.codes[id] == Code(s.calls[e.session].request, false, now + 60)
    ensures !(e.CodeIssued? && e.codeId == id) ==>
            id in s.codes && t.codes[id].request == s.codes[id].request && t.codes[id].expires == s.codes[id].expires
            && (s.codes[id].used ==> t.codes[id].used)
            && (t.codes[id].used && !s.codes[id].used ==> t.redeemed == s.redeemed + [id])
  {
    hide MayAuthorize, AlreadyConsented, ReadAuthorize, AskAuthorize, TakeApproval, ReadApproval, WriteApproval,
      MintTokens, ReadRefresh, CommitRefresh, RevokeOne;
  }

  lemma RedeemedGrows(clients: map<nat, Client>, e: Event, now: int, s: State, t: State)
    requires Step(clients, e, now, s, t)
    ensures s.redeemed <= t.redeemed
  {
    hide MayAuthorize, AlreadyConsented, ReadAuthorize, AskAuthorize, TakeApproval, ReadApproval, WriteApproval,
      MintTokens, ReadRefresh, CommitRefresh, RevokeOne, Redeemable, IssueCode;
  }

  /** A stored code was issued by some earlier event, expires 60 seconds after it, and is used only if it was
      redeemed. */
  lemma {:induction false} CodeOrigin(
    clients: map<nat, Client>, events: seq<Event>, clock: seq<int>, states: seq<State>, i: nat, id: nat)
      returns (j: nat)
    requires Run(clients, events, clock, states) && i <= |events| && id in states[i].codes
    ensures j < i && IssuedFrom(events, states, j, id, states[i].codes[id].request)
    ensures states[i].codes[id].expires == clock[j] + 60
    ensures states[i].codes[id].used ==> id in states[i].redeemed
    decreases i
  {
    hide Step;
    var e, s, t := events[i - 1], states[i - 1], states[i];
    assert Step(clients, e, clock[i - 1], s, states[i - 1 + 1]);
    CodeKept(clients, e, clock[i - 1], s, t, id);
    if e.CodeIssued? && e.codeId == id {
      j := i - 1;
    } else {
      j := CodeOrigin(clients, events, clock, states, i - 1, id);
      RedeemedGrows(clients, e, clock[i - 1], s, t);
    }
  }

  /** Event `j` issued the code to this client for this redirect. */
  ghost predicate IssuedTo(events: seq<Event>, states: seq<State>, j: nat, id: nat, client: nat, redirect: string)
    requires |states| == |events| + 1 && j < |events|
  {
    && events[j].CodeIssued? && events[j].codeId == id && events[j].session in states[j].calls
    && var r := states[j].calls[events[j].session].request;
       r.grant.client == client && r.redirect == redirect
  }

  lemma TakeCodeWrittenOut(s: State, session: nat, id: nat, client: nat, redirect: string, proven: bool, now: int)
    requires session !in s.calls
    ensures var t := TakeCode(s, session, id, client, redirect, proven, now);
            if id in s.codes && !s.codes[id].used && s.codes[id].request.grant.client == client
               && s.codes[id].request.redirect == redirect && now < s.codes[id].expires
            then t.redeemed == s.redeemed + [id]
                 && (session in t.calls <==> s.codes[id].request.challenge.None? || proven)
                 && (session in t.calls ==> t.calls[session] == Call(s.codes[id].request, ToMint))
            else t == s
  {
  }

  /** A code is exchanged if and only if it is stored, was not exchanged before, and was issued to the client that
      presents it, for the redirect it presents, less than 60 seconds ago. Tokens follow if and only if the request had
      no challenge or the proof holds. */
  lemma RedeemedAsIssued(
    clients: map<nat, Client>, events: seq<Event>, clock: seq<int>, states: seq<State>, i: nat)
    requires Run(clients, events, clock, states) && i < |events| && events[i].RedeemTake?
    ensures var e, s, t := events[i], states[i], states[i + 1];
            && (t.redeemed == s.redeemed + [e.id] || t == s)
            && (t.redeemed == s.redeemed + [e.id] <==>
                  && e.id in s.codes && e.id !in s.redeemed
                  && exists j: nat :: j < i && IssuedTo(events, states, j, e.id, e.client, e.redirect)
                                      && clock[i] < clock[j] + 60)
            && (e.session in t.calls <==>
                  t.redeemed == s.redeemed + [e.id] && (s.codes[e.id].request.challenge.None? || e.proven))
            && (e.session in t.calls ==> t.calls[e.session] == Call(s.codes[e.id].request, ToMint))
  {
    var e, s, t := events[i], states[i], states[i + 1];
    assert Step(clients, e, clock[i], s, t);
    TakeCodeWrittenOut(s, e.session, e.id, e.client, e.redirect, e.proven, clock[i]);
    hide Step, TakeCode;
    assert s.redeemed + [e.id] != s.redeemed by { assert |s.redeemed + [e.id]| != |s.redeemed|; }
    CodesRedeemOnce(clients, events, clock, states, i);
    if e.id in s.codes {
      var k := CodeOrigin(clients, events, clock, states, i, e.id);
      if e.id in s.redeemed { UsedIfRedeemed(s, e.id); }
      forall j: nat | j < i && IssuedTo(events, states, j, e.id, e.client, e.redirect) ensures j == k {
        if j < k { CodeIssuedOnce(clients, events, clock, states, j, k); }
        if k < j { CodeIssuedOnce(clients, events, clock, states, k, j); }
      }
    }
  }

  lemma UsedIfRedeemed(s: State, id: nat)
    requires CodesOk(s) && id in s.codes && id in s.redeemed
    ensures s.codes[id].used
  {
    var k :| 0 <= k < |s.redeemed| && s.redeemed[k] == id;
  }

  // ---------------------------------------------------------------- calls that mint tokens

  lemma MintKept(clients: map<nat, Client>, e: Event, now: int, s: State, t: State, x: nat)
    requires Step(clients, e, now, s, t) && x in t.calls && t.calls[x].stage.ToMint?
    ensures (x in s.calls && s.calls[x] == t.calls[x]) || (e.RedeemTake? && e.session == x && x !in s.calls)
  {
    hide MayAuthorize, AlreadyConsented, ReadRefresh, CommitRefresh, RevokeOne, Redeemable;
  }

  /** The event presents a stored code with this request, by the request's own client and with its own redirect, and
      with the proof if there is a challenge. */
  ghost predicate PresentedIn(e: Event, s: State, session: nat, r: Request) {
    && e.RedeemTake? && e.session == session && e.id in s.codes && s.codes[e.id].request == r
    && r.grant.client == e.client && r.redirect == e.redirect && (r.challenge.None? || e.proven)
  }

  lemma TookCode(clients: map<nat, Client>, e: Event, now: int, s: State, t: State)
    requires Step(clients, e, now, s, t) && e.RedeemTake? && e.session in t.calls
    ensures PresentedIn(e, s, e.session, t.calls[e.session].request)
  {
    TakeCodeWrittenOut(s, e.session, e.id, e.client, e.redirect, e.proven, now);
    hide TakeCode;
  }

  /** A call about to mint tokens comes from a code that its own client presented with its own redirect, with the proof
      if the request had a challenge. */
  lemma {:induction false} MintOrigin(
    clients: map<nat, Client>, events: seq<Event>, clock: seq<int>, states: seq<State>, i: nat, x: nat)
      returns (j: nat)
    requires Run(clients, events, clock, states) && i <= |events|
    requires x in states[i].calls && states[i].calls[x].stage.ToMint?
    ensures j < i && PresentedIn(events[j], states[j], x, states[i].calls[x].request)
    decreases i
  {
    var e, s, t := events[i - 1], states[i - 1], states[i];
    hide Step, PresentedIn;
    assert Step(clients, e, clock[i - 1], s, states[i - 1 + 1]);
    MintKept(clients, e, clock[i - 1], s, t, x);
    if e.RedeemTake? && e.session == x && x !in s.calls {
      TookCode(clients, e, clock[i - 1], s, t);
      j := i - 1;
    } else {
      j := MintOrigin(clients, events, clock, states, i - 1, x);
    }
  }

  /** The tokens that are minted carry exactly the grant of that code. */
  lemma MintedAsRedeemed(
    clients: map<nat, Client>, events: seq<Event>, clock: seq<int>, states: seq<State>, i: nat)
      returns (j: nat)
    requires Run(clients, events, clock, states) && i < |events| && events[i].RedeemMint?
    ensures j < i && events[j].RedeemTake? && events[j].session == events[i].session
    ensures events[j].id in states[j].codes
    ensures var g, t := states[j].codes[events[j].id].request.grant, states[i + 1];
            && g.client == events[j].client && t.access == states[i].access + [g]
            && events[i].tokenId in t.tokens && t.tokens[events[i].tokenId].grant == g
            && t.tokens[events[i].tokenId].expires == clock[i] + 2_592_000 && !t.tokens[events[i].tokenId].revoked
  {
    assert Step(clients, events[i], clock[i], states[i], states[i + 1]);
    j := MintOrigin(clients, events, clock, states, i, events[i].session);
  }

  // ---------------------------------------------------------------- refresh tokens

  /** A refresh gets under way if and only if the token is stored, belongs to the client that presents it, and is
      revoked, which is reuse, or has not expired. */
  lemma RefreshedByItsClient(clients: map<nat, Client>, e: Event, now: int, s: State, t: State)
    requires Step(clients, e, now, s, t) && e.RefreshRead?
    ensures e.session in t.refreshes <==>
            e.id in s.tokens && s.tokens[e.id].grant.client == e.client
            && (s.tokens[e.id].revoked || now < s.tokens[e.id].expires)
    ensures e.session in t.refreshes ==>
            t.refreshes[e.session] == Refreshing(e.id, s.tokens[e.id], s.tokens[e.id].revoked)
    ensures t.tokens == s.tokens
  {
  }

  /** What a refresh commits: reuse revokes every token of that client and user and no other; a scope within the
      granted one rotates the token, keeps grant and chain, and mints an access token of that scope; a wider one changes
      nothing. */
  lemma RefreshCommits(clients: map<nat, Client>, e: Event, now: int, s: State, t: State)
    requires Step(clients, e, now, s, t) && e.RefreshCommit?
    ensures var f := s.refreshes[e.session];
            var asked := if e.scope == "" then f.token.grant.scope else e.scope;
            if f.reused then
              && t.access == s.access && t.tokens.Keys == s.tokens.Keys
              && forall x :: x in s.tokens ==>
                   t.tokens[x] == if s.tokens[x].grant.client == f.token.grant.client
                                     && s.tokens[x].grant.user == f.token.grant.user
                                  then s.tokens[x].(revoked := true) else s.tokens[x]
            else if forall w :: w in ScopeTokens(asked) ==> w in ScopeTokens(f.token.grant.scope) then
              && t.access == s.access + [f.token.grant.(scope := asked)]
              && t.tokens.Keys == s.tokens.Keys + {e.newId}
              && (e.newId != f.id ==>
                    t.tokens[e.newId] == Token(f.token.grant, false, None, now + 2_592_000, f.token.chain))
              && (f.id in s.tokens ==> t.tokens[f.id] == s.tokens[f.id].(revoked := true, replacedBy := Some(e.newId)))
              && forall x :: x in s.tokens && x != e.newId && x != f.id ==> t.tokens[x] == s.tokens[x]
            else t.access == s.access && t.tokens == s.tokens
  {
    hide ScopeTokens;
  }

  /** A revocation takes exactly the token named, and only from its own client. */
  lemma RevokedByItsClient(clients: map<nat, Client>, e: Event, now: int, s: State, t: State)
    requires Step(clients, e, now, s, t) && e.TokenRevoked?
    ensures t == s.(tokens := t.tokens) && t.tokens.Keys == s.tokens.Keys
    ensures forall x :: x in s.tokens ==>
              t.tokens[x] == if x == e.id && s.tokens[x].grant.client == e.client then s.tokens[x].(revoked := true)
                             else s.tokens[x]
  {
  }

  // ---------------------------------------------------------------- pending requests

  ghost predicate AskedFrom(events: seq<Event>, states: seq<State>, j: nat, id: nat, r: Request)
    requires |states| == |events| + 1 && j < |events|
  {
    && events[j].AuthorizeAsk? && events[j].id == id
    && events[j].session in states[j].calls && states[j].calls[events[j].session].request == r
  }

  lemma PendingKept(clients: map<nat, Client>, e: Event, now: int, s: State, t: State, id: nat)
    requires Step(clients, e, now, s, t) && id in t.pending
    ensures e.AuthorizeAsk? && e.id == id ==>
            e.session in s.calls && t.pending[id] == Pending(s.calls[e.session].request, now + 600)
    ensures !(e.AuthorizeAsk? && e.id == id) ==> id in s.pending && t.pending[id] == s.pending[id]
  {
    hide MayAuthorize, AlreadyConsented, ReadAuthorize, ReadApproval, WriteApproval, IssueCode,
      TakeCode, MintTokens, ReadRefresh, CommitRefresh, RevokeOne, Decidable;
  }

  lemma {:induction false} PendingOrigin(
    clients: map<nat, Client>, events: seq<Event>, clock: seq<int>, states: seq<State>, i: nat, id: nat)
      returns (j: nat)
    requires Run(clients, events, clock, states) && i <= |events| && id in states[i].pending
    ensures j < i && AskedFrom(events, states, j, id, states[i].pending[id].request)
    ensures states[i].pending[id].expires == clock[j] + 600
    decreases i
  {
    hide Step;
    var e, s, t := events[i - 1], states[i - 1], states[i];
    assert Step(clients, e, clock[i - 1], s, states[i - 1 + 1]);
    PendingKept(clients, e, clock[i - 1], s, t, id);
    if e.AuthorizeAsk? && e.id == id {
      j := i - 1;
    } else {
      j := PendingOrigin(clients, events, clock, states, i - 1, id);
    }
  }

  /** Event `j` stored the request for this tenant's user. */
  ghost predicate AskedOf(events: seq<Event>, states: seq<State>, j: nat, id: nat, tenant: string, user: string)
    requires |states| == |events| + 1 && j < |events|
  {
    && events[j].AuthorizeAsk? && events[j].id == id && events[j].session in states[j].calls
    && var g := states[j].calls[events[j].session].request.grant;
       g.tenant == tenant && g.user == user
  }

  lemma TakeApprovalWrittenOut(s: State, session: nat, id: nat, tenant: string, user: string, now: int)
    requires session !in s.calls
    ensures var t := TakeApproval(s, session, id, tenant, user, now);
            if id in s.pending && s.pending[id].request.grant.tenant == tenant
               && s.pending[id].request.grant.user == user && now < s.pending[id].expires
            then t == s.(pending := s.pending - {id}, calls := s.calls[session := Call(s.pending[id].request, ToRead)])
            else t == s
  {
  }

  /** A request is approved if and only if it is stored and was made for the very tenant and user who decide, less than
      600 seconds ago; it is then gone, so it is decided once. */
  lemma ApprovedByItsUser(
    clients: map<nat, Client>, events: seq<Event>, clock: seq<int>, states: seq<State>, i: nat)
    requires Run(clients, events, clock, states) && i < |events| && events[i].ApproveTake?
    ensures var e, s, t := events[i], states[i], states[i + 1];
            && (e.session in t.calls <==>
                  && e.id in s.pending
                  && exists j: nat :: j < i && AskedOf(events, states, j, e.id, e.tenant, e.user)
                                      && clock[i] < clock[j] + 600)
            && (e.session in t.calls ==>
                  e.id !in t.pending && t.calls[e.session] == Call(s.pending[e.id].request, ToRead))
            && (e.session !in t.calls ==> t == s)
  {
    var e, s, t := events[i], states[i], states[i + 1];
    assert Step(clients, e, clock[i], s, t);
    TakeApprovalWrittenOut(s, e.session, e.id, e.tenant, e.user, clock[i]);
    hide Step, TakeApproval;
    if e.id in s.pending {
      var k := PendingOrigin(clients, events, clock, states, i, e.id);
      forall j: nat | j < i && AskedOf(events, states, j, e.id, e.tenant, e.user) ensures j == k {
        if j < k { AskedOnce(clients, events, clock, states, j, k); }
        if k < j { AskedOnce(clients, events, clock, states, k, j); }
      }
    }
  }

  /** A denial takes the request away under the same conditions and grants nothing. */
  lemma DeniedByItsUser(clients: map<nat, Client>, e: Event, now: int, s: State, t: State)
    requires Step(clients, e, now, s, t) && e.Denied?
    ensures t == s.(pending := t.pending)
    ensures t.pending == if e.id in s.pending && s.pending[e.id].request.grant.tenant == e.tenant
                            && s.pending[e.id].request.grant.user == e.user && now < s.pending[e.id].expires
                         then s.pending - {e.id} else s.pending
  {
  }

  // ---------------------------------------------------------------- what a request was checked for

  /** The client exists and belongs to the tenant, the redirect is registered, a challenge is hashed with S256, and a
      public client has one. */
  ghost predicate Checked(clients: map<nat, Client>, r: Request) {
    && r.grant.client in clients && clients[r.grant.client].tenant == r.grant.tenant
    && r.redirect in clients[r.grant.client].redirects
    && (r.challengeMethod == None || r.challengeMethod == Some("S256"))
    && (r.challenge == None ==> clients[r.grant.client].confidential)
  }

  ghost predicate AllChecked(clients: map<nat, Client>, s: State) {
    && (forall id :: id in s.pending ==> Checked(clients, s.pending[id].request))
    && (forall x :: x in s.calls ==> Checked(clients, s.calls[x].request))
    && (forall id :: id in s.codes ==> Checked(clients, s.codes[id].request))
  }

  lemma EnterChecked(clients: map<nat, Client>, s: State, session: nat, c: Call)
    requires AllChecked(clients, s) && Checked(clients, c.request)
    ensures AllChecked(clients, Enter(s, session, c))
  {
    hide Checked;
  }

  /** Fewer rows, or the same, are checked as well. */
  lemma FewerChecked(clients: map<nat, Client>, s: State, t: State)
    requires AllChecked(clients, s)
    requires forall id :: id in t.pending ==> id in s.pending && t.pending[id] == s.pending[id]
    requires forall x :: x in t.calls ==> x in s.calls && t.calls[x] == s.calls[x]
    requires forall id :: id in t.codes ==> id in s.codes && t.codes[id].request == s.codes[id].request
    ensures AllChecked(clients, t)
  {
    hide Checked;
  }

  lemma TakeApprovalChecked(
    clients: map<nat, Client>, s: State, session: nat, id: nat, tenant: string, user: string, now: int)
    requires AllChecked(clients, s)
    ensures AllChecked(clients, TakeApproval(s, session, id, tenant, user, now))
  {
    hide Checked;
  }

  lemma InsertChecked(clients: map<nat, Client>, s: State, session: nat, id: nat, now: int)
    requires AllChecked(clients, s) && session in s.calls
    ensures AllChecked(clients, AskAuthorize(s, session, id, now))
    ensures AllChecked(clients, IssueCode(s, session, id, now))
  {
    hide Checked;
  }

  lemma TakeCodeChecked(
    clients: map<nat, Client>, s: State, session: nat, id: nat, client: nat, redirect: string, proven: bool, now: int)
    requires AllChecked(clients, s)
    ensures AllChecked(clients, TakeCode(s, session, id, client, redirect, proven, now))
  {
    hide Checked;
  }

  lemma ConsentChecked(clients: map<nat, Client>, s: State, session: nat)
    requires AllChecked(clients, s) && session in s.calls
    ensures AllChecked(clients, ReadApproval(s, session))
    ensures Writing(s, session) ==> AllChecked(clients, WriteApproval(s, session))
  {
    hide Checked, WriteConsent, ConsentOf;
  }

  lemma StepChecked(clients: map<nat, Client>, e: Event, now: int, s: State, t: State)
    requires AllChecked(clients, s) && Step(clients, e, now, s, t)
    ensures AllChecked(clients, t)
  {
    hide AllChecked, Checked, MayAuthorize, AlreadyConsented, AskAuthorize, TakeApproval, ReadApproval, WriteApproval,
      IssueCode, TakeCode, MintTokens, ReadRefresh, CommitRefresh, RevokeOne, Enter, DecideStep;
    match e
    case AuthorizeRead(session, r) =>
      AuthorizedExactly(clients, s.revoked, r);
      EnterChecked(clients, s, session, Call(r, if AlreadyConsented(s.consents, r.grant) then ToIssue else ToAsk));
    case AuthorizeAsk(session, id) => InsertChecked(clients, s, session, id, now);
    case CodeIssued(session, id) => InsertChecked(clients, s, session, id, now);
    case ApproveTake(session, id, tenant, user) => TakeApprovalChecked(clients, s, session, id, tenant, user, now);
    case ApproveRead(session) => ConsentChecked(clients, s, session);
    case ApproveWrite(session) => ConsentChecked(clients, s, session);
    case RedeemTake(session, id, client, redirect, proven) =>
      TakeCodeChecked(clients, s, session, id, client, redirect, proven, now);
    case Denied(id, tenant, user) => DeniedChecked(clients, s, id, tenant, user, now);
    case CleanedUp(_, _, _) => FewerChecked(clients, s, t);
    case SessionLost(_) => FewerChecked(clients, s, t);
    case RedeemMint(_, _) => FewerChecked(clients, s, t);
    case _ => SameChecked(clients, s, t);
  }

  lemma DeniedChecked(clients: map<nat, Client>, s: State, id: nat, tenant: string, user: string, now: int)
    requires AllChecked(clients, s)
    ensures AllChecked(clients, DecideStep(s, id, tenant, user, false, 0, now))
  {
    hide Checked;
  }

  lemma SameChecked(clients: map<nat, Client>, s: State, t: State)
    requires AllChecked(clients, s) && t.pending == s.pending && t.calls == s.calls && t.codes == s.codes
    ensures AllChecked(clients, t)
  {
    hide Checked;
  }

  /** Over every run every pending request, call and code was checked. */
  lemma {:induction false} RequestsAreChecked(
    clients: map<nat, Client>, events: seq<Event>, clock: seq<int>, states: seq<State>, i: nat)
    requires Run(clients, events, clock, states) && i <= |events|
    ensures AllChecked(clients, states[i])
    ensures forall k :: 0 <= k < i && events[k].AuthorizeRead? ==> events[k].request.grant.client !in states[k].revoked
  {
    hide AllChecked;
    if i == 0 {
      NothingToCheck(clients);
    } else {
      RequestsAreChecked(clients, events, clock, states, i - 1);
      assert Step(clients, events[i - 1], clock[i - 1], states[i - 1], states[i - 1 + 1]);
      StepChecked(clients, events[i - 1], clock[i - 1], states[i - 1], states[i]);
    }
  }

  lemma NothingToCheck(clients: map<nat, Client>)
    ensures AllChecked(clients, EmptyState())
  {
  }

  /** An authorize goes through if and only if the client is not revoked, the request is checked and its scope is within
      what the client may ask for. */
  lemma AuthorizedExactly(clients: map<nat, Client>, revoked: set<nat>, r: Request)
    ensures MayAuthorize(clients, revoked, r) <==>
            && Checked(clients, r) && r.grant.client !in revoked
            && forall w :: w in ScopeTokens(r.grant.scope) ==> w in ScopeTokens(clients[r.grant.client].allowed)
  {
    hide ScopeTokens;
  }
}
