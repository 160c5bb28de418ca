/** Exactly when the provider accepts a call, what it answers, and that nothing else changes. */
module OAuthAnswers {
  import opened Wrappers
  import opened OAuthSteps
  import opened OAuthTraces

  // ----- the answers -----

  /** Letters, digits, underscore and hyphen. */
  predicate Opaque(s: string) {
    forall i :: 0 <= i < |s| ==> 'a' <= s[i] <= 'z' || 'A' <= s[i] <= 'Z' || '0' <= s[i] <= '9' || s[i] in "_-"
  }

  lemma OpaqueIsToken(s: string)
    ensures IsToken(s) <==> Opaque(s)
  {}

  /** A request is accepted exactly when state and challenge are opaque texts of the right lengths; it is then remembered until the lifetime is over. */
  lemma AuthorizeDecides(c: Config, s: State, call: Call)
    requires call.Authorize?
    ensures var (t, reply) := Step(c, s, call);
            if 20 <= |call.state| <= 200 && Opaque(call.state) && |call.challenge| == 43 && Opaque(call.challenge)
            then reply == RequestIssued(call.drawn) && t == s.(requests := s.requests[call.drawn := Request(call.state, call.challenge, call.stamp + c.ttl)])
            else reply == Refused && t == s
  {
    OpaqueIsToken(call.state);
    OpaqueIsToken(call.challenge);
    hide IsToken, Opaque;
  }

  /** A token of this map that may still be used at the given time. */
  predicate LiveRequest(s: State, id: string, now: int) {
    id in s.requests && now < s.requests[id].expiresAt
  }

  function ChosenKey(call: Call): string
    requires call.Complete?
  {
    match call.accountKey case Some(key) => key case None => ""
  }

  /**
   The answer to a decision: refused without a live request, for an account that
   is not listed and for any other decision; otherwise the request's own state
   comes back with what was decided, and only then is the request spent.
   */
  lemma CompleteDecides(c: Config, s: State, call: Call)
    requires call.Complete?
    ensures var (t, reply) := Step(c, s, call);
            && (reply.CodeIssued? <==> LiveRequest(s, call.requestId, call.now) && call.decision == "approve" && ChosenKey(call) in c.accounts)
            && (reply.Denied? <==> LiveRequest(s, call.requestId, call.now) && call.decision == "deny")
            && (reply.ProviderError? <==> LiveRequest(s, call.requestId, call.now) && call.decision == "provider_error")
            && (reply.CodeIssued? || reply.Denied? || reply.ProviderError? || reply.Refused?)
            && (reply.CodeIssued? ==> reply == CodeIssued(s.requests[call.requestId].state, call.drawn))
            && (reply.CodeIssued? ==>
                  t.codes == s.codes[call.drawn := Code(c.accounts[ChosenKey(call)], s.requests[call.requestId].challenge, call.stamp + c.ttl)])
            && (reply.Denied? ==> reply == Denied(s.requests[call.requestId].state))
            && (reply.ProviderError? ==> reply == ProviderError(s.requests[call.requestId].state))
            && (!reply.CodeIssued? ==> t.codes == s.codes)
            && t.requests == (if reply.Refused? && LiveRequest(s, call.requestId, call.now) then s.requests else s.requests - {call.requestId})
            && t.grants == s.grants
  {
    assert s.requests - {call.requestId} == s.requests || call.requestId in s.requests;
  }

  /** A code is exchanged exactly while it lives and for a verifier of its challenge; in any case it is spent. */
  lemma ExchangeDecides(c: Config, s: State, call: Call)
    requires call.Exchange?
    ensures var (t, reply) := Step(c, s, call);
            var accepted := call.code in s.codes && call.now < s.codes[call.code].expiresAt && c.challengeOf(call.verifier) == s.codes[call.code].challenge;
            && reply == (if accepted then TokenIssued(call.drawn) else Refused)
            && t.codes == s.codes - {call.code} && t.requests == s.requests
            && t.grants == if accepted then s.grants[call.drawn := Grant(s.codes[call.code].account, call.stamp + c.ttl)] else s.grants
  {}

  /** A lookup answers exactly while the grant lives, with its account; in any case the grant is spent. */
  lemma LookupDecides(c: Config, s: State, call: Call)
    requires call.GetUser?
    ensures var (t, reply) := Step(c, s, call);
            && reply == (if call.token in s.grants && call.now < s.grants[call.token].expiresAt
                         then User(s.grants[call.token].account.id, s.grants[call.token].account.username) else Refused)
            && t.grants == s.grants - {call.token} && t.requests == s.requests && t.codes == s.codes
  {}

  /** Viewing shows a live request and changes nothing; of any other it only forgets what had expired. */
  lemma ViewDecides(c: Config, s: State, call: Call)
    requires call.View?
    ensures var (t, reply) := Step(c, s, call);
            if LiveRequest(s, call.requestId, call.now) then t == s && reply == Shown(s.requests[call.requestId].expiresAt)
            else reply == Refused && t == s.(requests := s.requests - {call.requestId})
  {
    assert s.requests - {call.requestId} == s.requests || call.requestId in s.requests;
  }

  // ----- a flow that does everything right -----

  /** Four calls with fresh tokens, each in time: the account that was chosen is the one that is told. */
  lemma HonestFlowSucceeds(c: Config, s: State, ask: Call, approve: Call, exchange: Call, lookup: Call)
    requires ask.Authorize? && approve.Complete? && exchange.Exchange? && lookup.GetUser?
    requires 20 <= |ask.state| <= 200 && Opaque(ask.state) && |ask.challenge| == 43 && Opaque(ask.challenge)
    requires approve.requestId == ask.drawn && approve.decision == "approve" && ChosenKey(approve) in c.accounts
    requires approve.now < ask.stamp + c.ttl && exchange.now < approve.stamp + c.ttl && lookup.now < exchange.stamp + c.ttl
    requires exchange.code == approve.drawn && c.challengeOf(exchange.verifier) == ask.challenge && lookup.token == exchange.drawn
    ensures var (s1, r1) := Step(c, s, ask);
            var (s2, r2) := Step(c, s1, approve);
            var (s3, r3) := Step(c, s2, exchange);
            var (s4, r4) := Step(c, s3, lookup);
            && r2 == CodeIssued(ask.state, approve.drawn)
            && r4 == User(c.accounts[ChosenKey(approve)].id, c.accounts[ChosenKey(approve)].username)
  {
    var (s1, _) := Step(c, s, ask);
    var (s2, _) := Step(c, s1, approve);
    var (s3, _) := Step(c, s2, exchange);
    hide Step;
    AuthorizeDecides(c, s, ask);
    CompleteDecides(c, s1, approve);
    ExchangeDecides(c, s2, exchange);
    LookupDecides(c, s3, lookup);
  }

  // ----- refusals of the user and of the provider, over every run -----

  /** h[i] passed on a decision about the live request issued at q. */
  predicate TellsAt(c: Config, h: seq<Entry>, q: nat, i: nat, decision: string, state: string) {
    && q < i < |h| && h[i].call.Complete? && h[i].call.decision == decision
    && h[q].call.Authorize? && h[q].reply == RequestIssued(h[i].call.requestId) && h[q].call.state == state
    && h[i].call.now < h[q].call.stamp + c.ttl
  }

  /** Every denial and every provider error comes from that decision about one live request, and carries that request's state. */
  ghost predicate DecisionsTraced(c: Config, h: seq<Entry>) {
    forall i: nat :: i < |h| ==>
      && (h[i].reply.Denied? ==> exists q: nat :: TellsAt(c, h, q, i, "deny", h[i].reply.state))
      && (h[i].reply.ProviderError? ==> exists q: nat :: TellsAt(c, h, q, i, "provider_error", h[i].reply.state))
      && (h[i].reply.CodeIssued? ==> exists q: nat :: TellsAt(c, h, q, i, "approve", h[i].reply.state))
  }

  lemma OnlyDecisionsTell(c: Config, s: State, call: Call)
    ensures var reply := Step(c, s, call).1; reply.Denied? || reply.ProviderError? || reply.CodeIssued? ==> call.Complete?
  {}

  lemma {:induction false} NewDecision(c: Config, s: State, h: seq<Entry>, call: Call) returns (q: nat)
    requires Explained(c, s, h) && call.Complete? && !Step(c, s, call).1.Refused?
    ensures var reply := Step(c, s, call).1;
            var g := h + [Entry(call, reply)];
            && (reply.Denied? ==> TellsAt(c, g, q, |h|, "deny", reply.state))
            && (reply.ProviderError? ==> TellsAt(c, g, q, |h|, "provider_error", reply.state))
            && (reply.CodeIssued? ==> TellsAt(c, g, q, |h|, "approve", reply.state))
  {
    CompleteDecides(c, s, call);
    var r := s.requests[call.requestId];
    assert HasRequest(c, h, call.requestId, r);
    q :| AsksAt(c, h, q, call.requestId, r);
    hide Step, Explained;
  }

  lemma {:induction false} DecisionsStep(c: Config, s: State, h: seq<Entry>, call: Call)
    requires Explained(c, s, h) && DecisionsTraced(c, h)
    ensures DecisionsTraced(c, h + [Entry(call, Step(c, s, call).1)])
  {
    var reply := Step(c, s, call).1;
    var g := h + [Entry(call, reply)];
    OnlyDecisionsTell(c, s, call);
    if call.Complete? && !reply.Refused? {
      var q := NewDecision(c, s, h, call);
    }
    hide Step, Explained;
    forall i: nat | i < |h|
      ensures g[i] == h[i]
      ensures forall q: nat, decision, state :: TellsAt(c, h, q, i, decision, state) ==> TellsAt(c, g, q, i, decision, state)
    {}
  }

  lemma {:induction false} DecisionsAreTraced(c: Config, calls: seq<Call>)
    requires NoCollisions(c, calls)
    ensures DecisionsTraced(c, After(c, calls).1)
    decreases |calls|
  {
    if calls != [] {
      var before := calls[..|calls| - 1];
      DecisionsAreTraced(c, before);
      RunExplained(c, before);
      hide Step, Explained, DecisionsTraced, Unused, OneShot, AllTraced;
      DecisionsStep(c, After(c, before).0, After(c, before).1, calls[|calls| - 1]);
    }
  }
}
