/** The local authorization-code provider with PKCE: its three maps, and what each call does to them. */
module OAuthSteps {
  import opened Wrappers

  datatype Account = Account(key: string, id: string, username: string)

  datatype Request = Request(state: string, challenge: string, expiresAt: int)

  datatype Code = Code(account: Account, challenge: string, expiresAt: int)

  datatype Grant = Grant(account: Account, expiresAt: int)

  datatype State = State(requests: map<string, Request>, codes: map<string, Code>, grants: map<string, Grant>)

  /** The listed accounts by key, the lifetime of every token, and the S256 challenge of a verifier. */
  datatype Config = Config(accounts: map<string, Account>, ttl: int, challengeOf: string -> string)

  /** A call, with the random token drawn in it, the time it is checked at and the time it stamps. */
  datatype Call =
    | Authorize(state: string, challenge: string, drawn: string, stamp: int)
    | View(requestId: string, now: int)
    | Complete(requestId: string, decision: string, accountKey: Option<string>, drawn: string, now: int, stamp: int)
    | Exchange(code: string, verifier: string, drawn: string, now: int, stamp: int)
    | GetUser(token: string, now: int)

  datatype Reply =
    | Refused
    | RequestIssued(requestId: string)
    | Shown(expiresAt: int)
    | Denied(state: string)
    | ProviderError(state: string)
    | CodeIssued(state: string, code: string)
    | TokenIssued(token: string)
    | User(id: string, username: string)

  predicate IsTokenChar(c: char) {
    'A' <= c <= 'Z' || 'a' <= c <= 'z' || '0' <= c <= '9' || c == '_' || c == '-'
  }

  predicate IsToken(s: string) {
    forall i :: 0 <= i < |s| ==> IsTokenChar(s[i])
  }

  predicate WellFormedRequest(state: string, challenge: string) {
    20 <= |state| <= 200 && IsToken(state) && |challenge| == 43 && IsToken(challenge)
  }

  /** A refused lookup still removes the request it found expired. */
  function Unexpired(s: State, requestId: string, now: int): State {
    if requestId in s.requests && s.requests[requestId].expiresAt <= now then s.(requests := s.requests - {requestId}) else s
  }

  function CompleteStep(c: Config, s: State, call: Call): (State, Reply)
    requires call.Complete?
  {
    var id := call.requestId;
    if id !in s.requests || s.requests[id].expiresAt <= call.now then (Unexpired(s, id, call.now), Refused)
    else
      var key := if call.accountKey.Some? then call.accountKey.value else "";
      var request := s.requests[id];
      if call.decision == "approve" && key !in c.accounts then (s, Refused)
      else if call.decision == "deny" then (s.(requests := s.requests - {id}), Denied(request.state))
      else if call.decision == "provider_error" then (s.(requests := s.requests - {id}), ProviderError(request.state))
      else if call.decision == "approve" then
        (State(s.requests - {id}, s.codes[call.drawn := Code(c.accounts[key], request.challenge, call.stamp + c.ttl)], s.grants),
         CodeIssued(request.state, call.drawn))
      else (s, Refused)
  }

  /** The code is spent before anything is checked. */
  function ExchangeStep(c: Config, s: State, call: Call): (State, Reply)
    requires call.Exchange?
  {
    var spent := s.(codes := s.codes - {call.code});
    if call.code !in s.codes || s.codes[call.code].expiresAt <= call.now then (spent, Refused)
    else if c.challengeOf(call.verifier) != s.codes[call.code].challenge then (spent, Refused)
    else (spent.(grants := s.grants[call.drawn := Grant(s.codes[call.code].account, call.stamp + c.ttl)]), TokenIssued(call.drawn))
  }

  function Step(c: Config, s: State, call: Call): (State, Reply) {
    match call
    case Authorize(state, challenge, drawn, stamp) =>
      if WellFormedRequest(state, challenge)
      then (s.(requests := s.requests[drawn := Request(state, challenge, stamp + c.ttl)]), RequestIssued(drawn))
      else (s, Refused)
    case View(requestId, now) =>
      if requestId in s.requests && s.requests[requestId].expiresAt > now then (s, Shown(s.requests[requestId].expiresAt))
      else (Unexpired(s, requestId, now), Refused)
    case Complete(_, _, _, _, _, _) => CompleteStep(c, s, call)
    case Exchange(_, _, _, _, _) => ExchangeStep(c, s, call)
    case GetUser(token, now) =>
      var spent := s.(grants := s.grants - {token});
      if token in s.grants && s.grants[token].expiresAt > now
      then (spent, User(s.grants[token].account.id, s.grants[token].account.username))
      else (spent, Refused)
  }

  // ----- histories -----

  datatype Entry = Entry(call: Call, reply: Reply)

  const EMPTY := State(map[], map[], map[])

  /** The state and the history after a list of calls. */
  function After(c: Config, calls: seq<Call>): (State, seq<Entry>)
    decreases |calls|
  {
    if calls == [] then (EMPTY, [])
    else
      var (s, h) := After(c, calls[..|calls| - 1]);
      var (t, reply) := Step(c, s, calls[|calls| - 1]);
      (t, h + [Entry(calls[|calls| - 1], reply)])
  }

  /** The token that a call brought into the world. */
  function Issued(e: Entry): Option<string> {
    match e.reply
    case RequestIssued(id) => Some(id)
    case CodeIssued(_, code) => Some(code)
    case TokenIssued(token) => Some(token)
    case _ => None
  }

  ghost predicate FreshIn(h: seq<Entry>, call: Call) {
    call.Authorize? || call.Complete? || call.Exchange? ==> forall i :: 0 <= i < |h| ==> Issued(h[i]) != Some(call.drawn)
  }

  /** Random tokens do not repeat. */
  ghost predicate NoCollisions(c: Config, calls: seq<Call>)
    decreases |calls|
  {
    calls == []
    || (NoCollisions(c, calls[..|calls| - 1]) && FreshIn(After(c, calls[..|calls| - 1]).1, calls[|calls| - 1]))
  }
}
