/** The OAuth2 token store: its tables, what each endpoint does to them when nothing comes in between, and the class
    that does it. Runs of interleaved statements are in `OAuthRuns`. A raw code or token is known by the id of its
    row. */
module OAuth {
  import opened Prelude
  import opened OAuthScope

  /** A registered client; `allowed` is its allowed scopes joined by blanks. */
  datatype Client = Client(tenant: string, redirects: seq<string>, allowed: string, confidential: bool)

  datatype Grant = Grant(client: nat, tenant: string, user: string, scope: string)

  /** What an authorize request asks for; the challenge is the proof key of RFC 7636. */
  datatype Request = Request(grant: Grant, redirect: string, challenge: Option<string>, challengeMethod: Option<string>)

  datatype Pending = Pending(request: Request, expires: int)

  datatype Code = Code(request: Request, used: bool, expires: int)

  /** `chain` is the first token of the rotation chain. */
  datatype Token = Token(grant: Grant, revoked: bool, replacedBy: Option<nat>, expires: int, chain: nat)

  type Consents = map<(nat, string), string>

  const CODE_TTL := 60
  const PENDING_TTL := 600
  const REFRESH_TTL := 2_592_000

  /** What a call under way does next: read the stored consent, write it back merged with the scope of its request, or
      insert a code, a request to decide, or a refresh token. */
  datatype Stage = ToRead | ToWrite(existing: Option<string>) | ToIssue | ToAsk | ToMint

  /** An authorize, an approval or a redemption between two statements. */
  datatype Call = Call(request: Request, stage: Stage)

  /** A refresh under way: the row it read, and whether that row was revoked already. */
  datatype Refreshing = Refreshing(id: nat, token: Token, reused: bool)

  /** `issued` are all ids ever used, `revoked` the revoked clients, `access` the user-delegated access tokens minted,
      `redeemed` the codes that were exchanged, `calls` and `refreshes` the calls between two statements. */
  datatype State = State(
    pending: map<nat, Pending>, consents: Consents, codes: map<nat, Code>, tokens: map<nat, Token>,
    issued: set<nat>, revoked: set<nat>, access: seq<Grant>, redeemed: seq<nat>,
    calls: map<nat, Call>, refreshes: map<nat, Refreshing>)

  function EmptyState(): State { State(map[], map[], map[], map[], {}, {}, [], [], map[], map[]) }

  // ---------------------------------------------------------------- what the statements match and change

  predicate Redeemable(codes: map<nat, Code>, id: nat, client: nat, redirect: string, now: int) {
    && id in codes && codes[id].request.grant.client == client && codes[id].request.redirect == redirect
    && !codes[id].used && codes[id].expires > now
  }

  predicate Decidable(pending: map<nat, Pending>, id: nat, tenant: string, user: string, now: int) {
    && id in pending && pending[id].request.grant.tenant == tenant && pending[id].request.grant.user == user
    && pending[id].expires > now
  }

  function ConsentOf(consents: Consents, client: nat, user: string): Option<string> {
    if (client, user) in consents then Some(consents[(client, user)]) else None
  }

  /** The second statement of RecordConsent, from what the first one read. */
  function WriteConsent(consents: Consents, g: Grant, existing: Option<string>): Consents {
    consents[(g.client, g.user) := MergedScope(existing, g.scope)]
  }

  function Consented(consents: Consents, g: Grant): Consents {
    WriteConsent(consents, g, ConsentOf(consents, g.client, g.user))
  }

  function RevokeAll(tokens: map<nat, Token>, client: nat, user: string): map<nat, Token> {
    map id | id in tokens ::
      if tokens[id].grant.client == client && tokens[id].grant.user == user then tokens[id].(revoked := true)
      else tokens[id]
  }

  function RevokeOne(tokens: map<nat, Token>, id: nat, client: nat): map<nat, Token> {
    if id in tokens && tokens[id].grant.client == client then tokens[id := tokens[id].(revoked := true)] else tokens
  }

  datatype Outcome = Rotated | Invalid | Reused

  function RefreshOutcome(tokens: map<nat, Token>, id: nat, client: nat, now: int): Outcome {
    if id !in tokens || tokens[id].grant.client != client then Invalid
    else if tokens[id].revoked then Reused
    else if tokens[id].expires <= now then Invalid
    else Rotated
  }

  function FirstToken(g: Grant, id: nat, now: int): Token { Token(g, false, None, now + REFRESH_TTL, id) }

  /** The statements after the read of a rotation: a successor of the row that was read, with its grant and chain, and
      the old token, if it is still there, revoked and pointing at it. */
  function RotateFrom(tokens: map<nat, Token>, id: nat, read: Token, newId: nat, now: int): map<nat, Token> {
    var more := tokens[newId := FirstToken(read.grant, newId, now).(chain := read.chain)];
    if id in tokens then more[id := tokens[id].(revoked := true, replacedBy := Some(newId))] else more
  }

  function Rotate(tokens: map<nat, Token>, id: nat, newId: nat, now: int): map<nat, Token>
    requires id in tokens
  {
    RotateFrom(tokens, id, tokens[id], newId, now)
  }

  // ---------------------------------------------------------------- the endpoints' steps

  predicate MayAuthorize(clients: map<nat, Client>, revoked: set<nat>, r: Request) {
    var g := r.grant;
    && g.client in clients && g.client !in revoked && clients[g.client].tenant == g.tenant
    && r.redirect in clients[g.client].redirects
    && (r.challengeMethod.Some? ==> r.challengeMethod.value == "S256")
    && (clients[g.client].confidential || r.challenge.Some?)
    && Subset(g.scope, clients[g.client].allowed)
  }

  predicate AlreadyConsented(consents: Consents, g: Grant) {
    (g.client, g.user) in consents && Subset(g.scope, consents[(g.client, g.user)])
  }

  function WithCode(s: State, id: nat, r: Request, now: int): (t: State)
    ensures t.pending == s.pending && t.consents == s.consents && t.tokens == s.tokens && t.access == s.access
    ensures t.redeemed == s.redeemed && t.calls == s.calls && t.refreshes == s.refreshes
  {
    s.(codes := s.codes[id := Code(r, false, now + CODE_TTL)], issued := s.issued + {id})
  }

  /** A code at once when the user has consented to all of it, else a request for the user to decide. */
  function AuthorizeStep(s: State, id: nat, r: Request, now: int): (t: State)
    ensures t.consents == s.consents && t.tokens == s.tokens && t.access == s.access && t.redeemed == s.redeemed
    ensures t.calls == s.calls && t.refreshes == s.refreshes && t.issued == s.issued + {id}
  {
    if AlreadyConsented(s.consents, r.grant) then WithCode(s, id, r, now)
    else s.(pending := s.pending[id := Pending(r, now + PENDING_TTL)], issued := s.issued + {id})
  }

  function DecideStep(s: State, id: nat, tenant: string, user: string, approve: bool, codeId: nat, now: int): State {
    if !Decidable(s.pending, id, tenant, user, now) then s
    else
      var r := s.pending[id].request;
      var taken := s.(pending := s.pending - {id});
      if !approve then taken else WithCode(taken.(consents := Consented(s.consents, r.grant)), codeId, r, now)
  }

  /** A code is used up even when the proof that follows fails, or minting does. */
  function RedeemStep(
    s: State, id: nat, client: nat, redirect: string, proven: bool, mints: bool, tokenId: nat, now: int): (t: State)
    ensures t.pending == s.pending && t.consents == s.consents && t.calls == s.calls && t.refreshes == s.refreshes
  {
    if !Redeemable(s.codes, id, client, redirect, now) then s
    else
      var c := s.codes[id];
      var used := s.(codes := s.codes[id := c.(used := true)], redeemed := s.redeemed + [id]);
      if (c.request.challenge.Some? && !proven) || !mints then used
      else used.(access := s.access + [c.request.grant],
                 tokens := s.tokens[tokenId := FirstToken(c.request.grant, tokenId, now)],
                 issued := s.issued + {tokenId})
  }

  function AskedScope(asked: string, granted: string): string { if asked == "" then granted else asked }

  /** A narrower scope may be asked for; a wider one is refused and the rotation rolled back. */
  function RefreshStep(s: State, id: nat, client: nat, scope: string, newId: nat, now: int): State {
    match RefreshOutcome(s.tokens, id, client, now)
    case Invalid => s
    case Reused => s.(tokens := RevokeAll(s.tokens, client, s.tokens[id].grant.user))
    case Rotated =>
      var g := s.tokens[id].grant;
      if !Subset(AskedScope(scope, g.scope), g.scope) then s
      else s.(tokens := Rotate(s.tokens, id, newId, now),
              access := s.access + [g.(scope := AskedScope(scope, g.scope))],
              issued := s.issued + {newId})
  }

  datatype Refusal =
    | UnknownClient | RevokedClient | OtherTenant | UnregisteredRedirect | UnsupportedMethod | ChallengeRequired
    | ScopeExceeded

  class TokenStore {
    const clients: map<nat, Client>
    var pending: map<nat, Pending>
    var consents: Consents
    var codes: map<nat, Code>
    var tokens: map<nat, Token>
    var revoked: set<nat>
    ghost var issued: set<nat>
    ghost var access: seq<Grant>
    ghost var redeemed: seq<nat>

    constructor (clients: map<nat, Client>)
      ensures this.clients == clients && Contents() == EmptyState()
    {
      this.clients := clients;
      pending, consents, codes, tokens, revoked := map[], map[], map[], map[], {};
      issued, access, redeemed := {}, [], [];
    }

    ghost function Contents(): State
      reads this
    {
      State(pending, consents, codes, tokens, issued, revoked, access, redeemed, map[], map[])
    }

    method CreateAuthorizationCode(id: nat, r: Request, now: int)
      modifies this`codes, this`issued
      ensures Contents() == WithCode(old(Contents()), id, r, now)
    {
      codes := codes[id := Code(r, false, now + CODE_TTL)];
      issued := issued + {id};
    }

    /** Deletes and returns in one statement, so a decision is taken once. */
    method ConsumePendingAuthorization(id: nat, tenant: string, user: string, now: int) returns (r: Option<Request>)
      modifies this`pending
      ensures r == if Decidable(old(pending), id, tenant, user, now) then Some(old(pending)[id].request) else None
      ensures pending == if r.Some? then old(pending) - {id} else old(pending)
    {
      if id !in pending || pending[id].expires <= now { return None; }
      var p := pending[id];
      if p.request.grant.tenant != tenant || p.request.grant.user != user { return None; }
      pending := pending - {id};
      return Some(p.request);
    }

    method RecordConsent(g: Grant)
      modifies this`consents
      ensures consents == Consented(old(consents), g)
    {
      var merged := MergeScope(ConsentOf(consents, g.client, g.user), g.scope);
      consents := consents[(g.client, g.user) := merged];
    }

    /** Marks the code used in the statement that returns it. */
    method ConsumeAuthorizationCode(id: nat, client: nat, redirect: string, now: int) returns (r: Option<Request>)
      modifies this`codes, this`redeemed
      ensures r == if Redeemable(old(codes), id, client, redirect, now) then Some(old(codes)[id].request) else None
      ensures codes == if r.Some? then old(codes)[id := old(codes)[id].(used := true)] else old(codes)
      ensures redeemed == if r.Some? then old(redeemed) + [id] else old(redeemed)
    {
      if id !in codes || codes[id].used || codes[id].expires <= now { return None; }
      var c := codes[id];
      if c.request.grant.client != client || c.request.redirect != redirect { return None; }
      codes := codes[id := c.(used := true)];
      redeemed := redeemed + [id];
      return Some(c.request);
    }

    method CreateRefreshToken(id: nat, g: Grant, chain: nat, now: int)
      modifies this`tokens, this`issued
      ensures tokens == old(tokens)[id := Token(g, false, None, now + REFRESH_TTL, chain)]
      ensures issued == old(issued) + {id}
    {
      tokens := tokens[id := Token(g, false, None, now + REFRESH_TTL, chain)];
      issued := issued + {id};
    }

    method ConsumeRefreshToken(id: nat, client: nat, newId: nat, now: int) returns (o: Outcome)
      modifies this`tokens, this`issued
      ensures o == RefreshOutcome(old(tokens), id, client, now)
      ensures tokens == match o
                case Invalid => old(tokens)
                case Reused => RevokeAll(old(tokens), client, old(tokens)[id].grant.user)
                case Rotated => Rotate(old(tokens), id, newId, now)
      ensures issued == if o == Rotated then old(issued) + {newId} else old(issued)
    {
      if id !in tokens || tokens[id].grant.client != client { return Invalid; }
      var t := tokens[id];
      if t.revoked {
        tokens := RevokeAll(tokens, client, t.grant.user);
        return Reused;
      }
      if t.expires <= now { return Invalid; }
      CreateRefreshToken(newId, t.grant, t.chain, now);
      tokens := tokens[id := t.(revoked := true, replacedBy := Some(newId))];
      return Rotated;
    }

    /** A token that is unknown, another client's or already revoked is left alone without an error. */
    method RevokeRefreshToken(id: nat, client: nat)
      modifies this`tokens
      ensures tokens == RevokeOne(old(tokens), id, client)
    {
      if id in tokens && tokens[id].grant.client == client && !tokens[id].revoked {
        tokens := tokens[id := tokens[id].(revoked := true)];
      }
      assert id in old(tokens) && old(tokens)[id].revoked ==>
        old(tokens)[id := old(tokens)[id].(revoked := true)] == old(tokens);
    }

    /** The authorize endpoint: the first check that fails answers, and nothing changes then. */
    method Authorize(id: nat, r: Request, now: int) returns (refused: Option<Refusal>)
      modifies this`pending, this`codes, this`issued
      ensures refused.None? <==> MayAuthorize(clients, old(revoked), r)
      ensures Contents() == if refused.Some? then old(Contents()) else AuthorizeStep(old(Contents()), id, r, now)
    {
      var g := r.grant;
      if g.client !in clients { return Some(UnknownClient); }
      var client := clients[g.client];
      if g.client in revoked { return Some(RevokedClient); }
      if client.tenant != g.tenant { return Some(OtherTenant); }
      if r.redirect !in client.redirects { return Some(UnregisteredRedirect); }
      if r.challengeMethod.Some? && r.challengeMethod.value != "S256" { return Some(UnsupportedMethod); }
      if !client.confidential && r.challenge.None? { return Some(ChallengeRequired); }
      var allowed := ScopeIsSubset(g.scope, client.allowed);
      if !allowed { return Some(ScopeExceeded); }
      var consent := ConsentOf(consents, g.client, g.user);
      var consented := false;
      if consent.Some? { consented := ScopeIsSubset(g.scope, consent.value); }
      if consented {
        CreateAuthorizationCode(id, r, now);
      } else {
        pending := pending[id := Pending(r, now + PENDING_TTL)];
        issued := issued + {id};
      }
      return None;
    }

    method Decide(id: nat, tenant: string, user: string, approve: bool, codeId: nat, now: int)
      modifies this`pending, this`consents, this`codes, this`issued
      ensures Contents() == DecideStep(old(Contents()), id, tenant, user, approve, codeId, now)
    {
      var r := ConsumePendingAuthorization(id, tenant, user, now);
      if r.Some? && approve {
        RecordConsent(r.value.grant);
        CreateAuthorizationCode(codeId, r.value, now);
      }
    }

    /** The authorization_code grant; `proven` is the outcome of the proof-key check and `mints` that of the calls
        after it. */
    method Redeem(id: nat, client: nat, redirect: string, proven: bool, mints: bool, tokenId: nat, now: int)
      modifies this`codes, this`tokens, this`issued, this`access, this`redeemed
      ensures Contents() == RedeemStep(old(Contents()), id, client, redirect, proven, mints, tokenId, now)
    {
      var r := ConsumeAuthorizationCode(id, client, redirect, now);
      if r.None? || (r.value.challenge.Some? && !proven) || !mints { return; }
      access := access + [r.value.grant];
      CreateRefreshToken(tokenId, r.value.grant, tokenId, now);
    }

    /** The refresh_token grant; refusing the asked scope restores what the transaction changed. */
    method Refresh(id: nat, client: nat, scope: string, newId: nat, now: int)
      modifies this`tokens, this`issued, this`access
      ensures Contents() == RefreshStep(old(Contents()), id, client, scope, newId, now)
    {
      var before := tokens;
      ghost var issuedBefore := issued;
      var o := ConsumeRefreshToken(id, client, newId, now);
      if o != Rotated { return; }
      var g := before[id].grant;
      var asked := AskedScope(scope, g.scope);
      var narrower := ScopeIsSubset(asked, g.scope);
      if !narrower {
        tokens, issued := before, issuedBefore;
        return;
      }
      access := access + [g.(scope := asked)];
    }
  }

}
