/** Every identity the provider hands out traces back to one approval; requests, codes and grants work once. */
module OAuthTraces {
  import opened Wrappers
  import opened OAuthSteps

  /** h[q] issued the request id, asking with this challenge. */
  predicate AsksAt(c: Config, h: seq<Entry>, q: nat, id: string, r: Request) {
    && q < |h| && h[q].call.Authorize? && h[q].reply == RequestIssued(id)
    && r == Request(h[q].call.state, h[q].call.challenge, h[q].call.stamp + c.ttl)
  }

  /** h[a] approved the request issued at q for a listed account, while it was unexpired, and issued the code. */
  predicate ApprovesAt(c: Config, h: seq<Entry>, q: nat, a: nat, code: string, k: Code) {
    && q < a < |h| && h[a].call.Complete? && h[a].call.decision == "approve"
    && h[a].reply.CodeIssued? && h[a].reply.code == code
    && h[q].call.Authorize? && AsksAt(c, h, q, h[a].call.requestId, Request(h[a].reply.state, k.challenge, h[q].call.stamp + c.ttl))
    && h[a].call.now < h[q].call.stamp + c.ttl
    && (var key := if h[a].call.accountKey.Some? then h[a].call.accountKey.value else ""; key in c.accounts && k.account == c.accounts[key])
    && k.expiresAt == h[a].call.stamp + c.ttl
  }

  /** h[x] exchanged the code issued at a, unexpired, with a verifier that hashes to the request's challenge. */
  ghost predicate ExchangesAt(c: Config, h: seq<Entry>, q: nat, a: nat, x: nat, token: string, g: Grant) {
    && a < x < |h| && h[x].call.Exchange? && h[x].reply == TokenIssued(token)
    && (exists k :: ApprovesAt(c, h, q, a, h[x].call.code, k) && k.account == g.account
                    && h[x].call.now < k.expiresAt && c.challengeOf(h[x].call.verifier) == k.challenge)
    && g.expiresAt == h[x].call.stamp + c.ttl
  }

  /** h[u] looked the grant up while it was unexpired, and answered with its account. */
  ghost predicate IdentifiesAt(c: Config, h: seq<Entry>, q: nat, a: nat, x: nat, u: nat, g: Grant) {
    && x < u < |h| && h[u].call.GetUser? && ExchangesAt(c, h, q, a, x, h[u].call.token, g)
    && h[u].call.now < g.expiresAt && h[u].reply == User(g.account.id, g.account.username)
  }

  /** The whole chain behind an identity: request, approval, exchange, lookup. */
  ghost predicate Traced(c: Config, h: seq<Entry>, u: nat) {
    exists q: nat, a: nat, x: nat, g :: IdentifiesAt(c, h, q, a, x, u, g)
  }

  /** There is one such chain, and only one. */
  ghost predicate TracedOnce(c: Config, h: seq<Entry>, u: nat) {
    && Traced(c, h, u)
    && forall q: nat, a: nat, x: nat, g, q': nat, a': nat, x': nat, g' ::
         IdentifiesAt(c, h, q, a, x, u, g) && IdentifiesAt(c, h, q', a', x', u, g') ==> q == q' && a == a' && x == x' && g == g'
  }

  predicate Completes(e: Entry, id: string) {
    e.call.Complete? && e.call.requestId == id && !e.reply.Refused?
  }

  predicate TriesCode(e: Entry, code: string) {
    e.call.Exchange? && e.call.code == code
  }

  predicate TriesGrant(e: Entry, token: string) {
    e.call.GetUser? && e.call.token == token
  }

  ghost predicate IssuedBefore(h: seq<Entry>, i: nat, token: string) {
    exists j :: 0 <= j < i && j < |h| && Issued(h[j]) == Some(token)
  }

  lemma AsksStays(c: Config, h: seq<Entry>, e: Entry, q: nat, id: string, r: Request)
    requires AsksAt(c, h, q, id, r)
    ensures AsksAt(c, h + [e], q, id, r)
  {}

  lemma ApprovesStays(c: Config, h: seq<Entry>, e: Entry, q: nat, a: nat, code: string, k: Code)
    requires ApprovesAt(c, h, q, a, code, k)
    ensures ApprovesAt(c, h + [e], q, a, code, k)
  {}

  lemma ExchangesStays(c: Config, h: seq<Entry>, e: Entry, q: nat, a: nat, x: nat, token: string, g: Grant)
    requires ExchangesAt(c, h, q, a, x, token, g)
    ensures ExchangesAt(c, h + [e], q, a, x, token, g)
  {}

  /** A request, a code or a grant that was used once never works again, even if the first use failed its check. */
  ghost predicate OneShot(h: seq<Entry>) {
    && (forall i, j, id :: 0 <= i < j < |h| && Completes(h[i], id) ==> !Completes(h[j], id))
    && (forall i, j, code :: 0 <= i < j < |h| && TriesCode(h[i], code) && IssuedBefore(h, i, code) && TriesCode(h[j], code) ==> h[j].reply.Refused?)
    && (forall i, j, token :: 0 <= i < j < |h| && TriesGrant(h[i], token) && IssuedBefore(h, i, token) && TriesGrant(h[j], token) ==> h[j].reply.Refused?)
  }

  ghost predicate AllTraced(c: Config, h: seq<Entry>) {
    forall u: nat :: u < |h| && h[u].call.GetUser? && h[u].reply.User? ==> Traced(c, h, u)
  }

  // ----- every map entry comes from the history -----

  ghost predicate HasRequest(c: Config, h: seq<Entry>, id: string, r: Request) {
    exists q: nat :: AsksAt(c, h, q, id, r)
  }

  ghost predicate HasApproval(c: Config, h: seq<Entry>, code: string, k: Code) {
    exists q: nat, a: nat :: ApprovesAt(c, h, q, a, code, k)
  }

  ghost predicate HasExchange(c: Config, h: seq<Entry>, token: string, g: Grant) {
    exists q: nat, a: nat, x: nat :: ExchangesAt(c, h, q, a, x, token, g)
  }

  lemma NewRequest(c: Config, s: State, h: seq<Entry>, call: Call)
    requires call.Authorize? && Step(c, s, call).1.RequestIssued?
    ensures HasRequest(c, h + [Entry(call, Step(c, s, call).1)], call.drawn, Request(call.state, call.challenge, call.stamp + c.ttl))
  {
    assert AsksAt(c, h + [Entry(call, Step(c, s, call).1)], |h|, call.drawn, Request(call.state, call.challenge, call.stamp + c.ttl));
  }

  lemma NewApproval(c: Config, s: State, h: seq<Entry>, call: Call)
    requires call.Complete? && Step(c, s, call).1.CodeIssued?
    requires call.requestId in s.requests && HasRequest(c, h, call.requestId, s.requests[call.requestId])
    ensures call.drawn in Step(c, s, call).0.codes
    ensures HasApproval(c, h + [Entry(call, Step(c, s, call).1)], call.drawn, Step(c, s, call).0.codes[call.drawn])
  {
    var (t, reply) := Step(c, s, call);
    var e := Entry(call, reply);
    var q: nat :| AsksAt(c, h, q, call.requestId, s.requests[call.requestId]);
    AsksStays(c, h, e, q, call.requestId, s.requests[call.requestId]);
    assert ApprovesAt(c, h + [e], q, |h|, call.drawn, t.codes[call.drawn]);
  }

  lemma NewExchange(c: Config, s: State, h: seq<Entry>, call: Call)
    requires call.Exchange? && Step(c, s, call).1.TokenIssued?
    requires call.code in s.codes && HasApproval(c, h, call.code, s.codes[call.code])
    ensures call.drawn in Step(c, s, call).0.grants
    ensures HasExchange(c, h + [Entry(call, Step(c, s, call).1)], call.drawn, Step(c, s, call).0.grants[call.drawn])
  {
    var (t, reply) := Step(c, s, call);
    var e, k := Entry(call, reply), s.codes[call.code];
    var q: nat, a: nat :| ApprovesAt(c, h, q, a, call.code, k);
    assert a < |h|;
    ApprovesStays(c, h, e, q, a, call.code, k);
    assert ExchangesAt(c, h + [e], q, a, |h|, call.drawn, t.grants[call.drawn]) by {
      hide ApprovesAt;
    }
  }

  lemma RequestStays(c: Config, h: seq<Entry>, e: Entry, id: string, r: Request)
    requires HasRequest(c, h, id, r)
    ensures HasRequest(c, h + [e], id, r)
  {
    var q: nat :| AsksAt(c, h, q, id, r);
    AsksStays(c, h, e, q, id, r);
    hide AsksAt;
  }

  lemma ApprovalStays(c: Config, h: seq<Entry>, e: Entry, code: string, k: Code)
    requires HasApproval(c, h, code, k)
    ensures HasApproval(c, h + [e], code, k)
  {
    var q: nat, a: nat :| ApprovesAt(c, h, q, a, code, k);
    ApprovesStays(c, h, e, q, a, code, k);
    hide ApprovesAt;
  }

  lemma ExchangeStays(c: Config, h: seq<Entry>, e: Entry, token: string, g: Grant)
    requires HasExchange(c, h, token, g)
    ensures HasExchange(c, h + [e], token, g)
  {
    var q: nat, a: nat, x: nat :| ExchangesAt(c, h, q, a, x, token, g);
    ExchangesStays(c, h, e, q, a, x, token, g);
    hide ExchangesAt;
  }

  ghost predicate Explained(c: Config, s: State, h: seq<Entry>) {
    && (forall id :: id in s.requests ==> HasRequest(c, h, id, s.requests[id]))
    && (forall code :: code in s.codes ==> HasApproval(c, h, code, s.codes[code]))
    && (forall token :: token in s.grants ==> HasExchange(c, h, token, s.grants[token]))
  }

  /** A step adds at most the one token that its call drew. */
  lemma StepAdds(c: Config, s: State, call: Call)
    ensures var (t, reply) := Step(c, s, call);
            && (forall id :: id in t.requests ==> (id in s.requests && t.requests[id] == s.requests[id]) || (call.Authorize? && id == call.drawn && reply.RequestIssued?))
            && (forall code :: code in t.codes ==> (code in s.codes && t.codes[code] == s.codes[code]) || (call.Complete? && code == call.drawn && reply.CodeIssued?))
            && (forall token :: token in t.grants ==> (token in s.grants && t.grants[token] == s.grants[token]) || (call.Exchange? && token == call.drawn && reply.TokenIssued?))
  {}

  lemma ExplainedRequest(c: Config, s: State, h: seq<Entry>, call: Call, id: string)
    requires Explained(c, s, h) && id in Step(c, s, call).0.requests
    ensures HasRequest(c, h + [Entry(call, Step(c, s, call).1)], id, Step(c, s, call).0.requests[id])
  {
    StepAdds(c, s, call);
    StepUses(c, s, call);
    if id in s.requests && Step(c, s, call).0.requests[id] == s.requests[id] {
      RequestStays(c, h, Entry(call, Step(c, s, call).1), id, s.requests[id]);
    } else {
      NewRequest(c, s, h, call);
    }
    hide Step, HasRequest, HasApproval, HasExchange;
  }

  lemma ExplainedCode(c: Config, s: State, h: seq<Entry>, call: Call, code: string)
    requires Explained(c, s, h) && code in Step(c, s, call).0.codes
    ensures HasApproval(c, h + [Entry(call, Step(c, s, call).1)], code, Step(c, s, call).0.codes[code])
  {
    StepAdds(c, s, call);
    StepUses(c, s, call);
    if code in s.codes && Step(c, s, call).0.codes[code] == s.codes[code] {
      ApprovalStays(c, h, Entry(call, Step(c, s, call).1), code, s.codes[code]);
    } else {
      NewApproval(c, s, h, call);
    }
    hide Step, HasRequest, HasApproval, HasExchange;
  }

  lemma ExplainedGrant(c: Config, s: State, h: seq<Entry>, call: Call, token: string)
    requires Explained(c, s, h) && token in Step(c, s, call).0.grants
    ensures HasExchange(c, h + [Entry(call, Step(c, s, call).1)], token, Step(c, s, call).0.grants[token])
  {
    StepAdds(c, s, call);
    StepUses(c, s, call);
    if token in s.grants && Step(c, s, call).0.grants[token] == s.grants[token] {
      ExchangeStays(c, h, Entry(call, Step(c, s, call).1), token, s.grants[token]);
    } else {
      NewExchange(c, s, h, call);
    }
    hide Step, HasRequest, HasApproval, HasExchange;
  }

  lemma ExplainedStep(c: Config, s: State, h: seq<Entry>, call: Call)
    requires Explained(c, s, h)
    ensures Explained(c, Step(c, s, call).0, h + [Entry(call, Step(c, s, call).1)])
  {
    var t := Step(c, s, call).0;
    forall id | id in t.requests {
      ExplainedRequest(c, s, h, call, id);
    }
    forall code | code in t.codes {
      ExplainedCode(c, s, h, call, code);
    }
    forall token | token in t.grants {
      ExplainedGrant(c, s, h, call, token);
    }
    hide Step, HasRequest, HasApproval, HasExchange;
  }

  /** What an accepted call found, and what it left. */
  lemma StepUses(c: Config, s: State, call: Call)
    ensures var (t, reply) := Step(c, s, call);
            && (call.Authorize? && reply.RequestIssued? ==> call.drawn in t.requests && t.requests[call.drawn] == Request(call.state, call.challenge, call.stamp + c.ttl))
            && (call.Complete? && !reply.Refused? ==> call.requestId in s.requests && call.requestId !in t.requests)
            && (call.Exchange? ==> (reply.TokenIssued? ==> call.code in s.codes) && call.code !in t.codes && (reply.TokenIssued? || reply.Refused?))
            && (call.GetUser? ==> (reply.User? ==> call.token in s.grants) && call.token !in t.grants && (reply.User? || reply.Refused?))
            && (call.GetUser? && reply.User? ==> var g := s.grants[call.token]; call.now < g.expiresAt && reply == User(g.account.id, g.account.username))
            && (Issued(Entry(call, reply)).Some? ==> (call.Authorize? || call.Complete? || call.Exchange?) && Issued(Entry(call, reply)).value == call.drawn)
  {}

  lemma TraceStays(c: Config, h: seq<Entry>, e: Entry, u: nat)
    requires Traced(c, h, u)
    ensures Traced(c, h + [e], u)
  {
    var q: nat, a: nat, x: nat, g :| IdentifiesAt(c, h, q, a, x, u, g);
    ExchangesStays(c, h, e, q, a, x, h[u].call.token, g);
    assert IdentifiesAt(c, h + [e], q, a, x, u, g) by {
      hide ExchangesAt;
    }
  }

  lemma NewTrace(c: Config, h: seq<Entry>, e: Entry, g: Grant)
    requires e.call.GetUser? && HasExchange(c, h, e.call.token, g)
    requires e.call.now < g.expiresAt && e.reply == User(g.account.id, g.account.username)
    ensures Traced(c, h + [e], |h|)
  {
    var q: nat, a: nat, x: nat :| ExchangesAt(c, h, q, a, x, e.call.token, g);
    assert x < |h|;
    ExchangesStays(c, h, e, q, a, x, e.call.token, g);
    assert IdentifiesAt(c, h + [e], q, a, x, |h|, g) by {
      hide ApprovesAt;
    }
  }

  lemma TraceStep(c: Config, s: State, h: seq<Entry>, call: Call)
    requires Explained(c, s, h) && AllTraced(c, h)
    ensures AllTraced(c, h + [Entry(call, Step(c, s, call).1)])
  {
    var e := Entry(call, Step(c, s, call).1);
    StepUses(c, s, call);
    forall u: nat | u < |h + [e]| && (h + [e])[u].call.GetUser? && (h + [e])[u].reply.User?
      ensures Traced(c, h + [e], u)
    {
      if u < |h| {
        TraceStays(c, h, e, u);
      } else {
        NewTrace(c, h, e, s.grants[call.token]);
      }
    }
    hide Step, HasRequest, HasApproval, HasExchange, Traced;
  }

  // ----- nothing works twice -----

  ghost predicate UnusedRequests(s: State, h: seq<Entry>) {
    forall i, id :: 0 <= i < |h| && Completes(h[i], id) ==> id !in s.requests && IssuedBefore(h, i, id)
  }

  ghost predicate UnusedCodes(s: State, h: seq<Entry>) {
    forall i, code :: 0 <= i < |h| && TriesCode(h[i], code) && IssuedBefore(h, i, code) ==> code !in s.codes
  }

  ghost predicate UnusedGrants(s: State, h: seq<Entry>) {
    forall i, token :: 0 <= i < |h| && TriesGrant(h[i], token) && IssuedBefore(h, i, token) ==> token !in s.grants
  }

  /** What the maps hold has not been used. */
  ghost predicate Unused(s: State, h: seq<Entry>) {
    UnusedRequests(s, h) && UnusedCodes(s, h) && UnusedGrants(s, h)
  }

  lemma IssuedBeforeStays(h: seq<Entry>, e: Entry, i: nat, token: string)
    requires i <= |h|
    ensures IssuedBefore(h + [e], i, token) <==> IssuedBefore(h, i, token)
  {
    if IssuedBefore(h, i, token) {
      var j :| 0 <= j < i && j < |h| && Issued(h[j]) == Some(token);
      assert Issued((h + [e])[j]) == Some(token);
    }
  }

  lemma NotIssuedYet(h: seq<Entry>, call: Call, i: nat)
    requires FreshIn(h, call) && (call.Authorize? || call.Complete? || call.Exchange?)
    ensures !IssuedBefore(h, i, call.drawn)
  {}

  /** A request that is held was issued. */
  lemma RequestWasIssued(c: Config, s: State, h: seq<Entry>, id: string)
    requires Explained(c, s, h) && id in s.requests
    ensures IssuedBefore(h, |h|, id)
  {
    var q: nat :| AsksAt(c, h, q, id, s.requests[id]);
    assert Issued(h[q]) == Some(id);
  }

  lemma OldRequestSpent(c: Config, s: State, h: seq<Entry>, call: Call, i: nat, id: string)
    requires id !in s.requests && IssuedBefore(h, i, id) && FreshIn(h, call)
    ensures id !in Step(c, s, call).0.requests
  {
    StepAdds(c, s, call);
    hide Step, IssuedBefore, FreshIn;
    if call.Authorize? {
      NotIssuedYet(h, call, i);
    }
  }

  lemma NewRequestSpent(c: Config, s: State, h: seq<Entry>, call: Call, id: string)
    requires Explained(c, s, h) && Completes(Entry(call, Step(c, s, call).1), id)
    ensures id !in Step(c, s, call).0.requests && IssuedBefore(h, |h|, id)
  {
    StepUses(c, s, call);
    hide Step, Explained, IssuedBefore;
    RequestWasIssued(c, s, h, id);
  }

  lemma UnusedRequestsStep(c: Config, s: State, h: seq<Entry>, call: Call)
    requires Explained(c, s, h) && UnusedRequests(s, h) && FreshIn(h, call)
    ensures UnusedRequests(Step(c, s, call).0, h + [Entry(call, Step(c, s, call).1)])
  {
    hide Step, Explained, IssuedBefore, FreshIn, Completes;
    var (t, reply) := Step(c, s, call);
    var g := h + [Entry(call, reply)];
    forall i: nat, id | i < |g| && Completes(g[i], id)
      ensures id !in t.requests && IssuedBefore(g, i, id)
    {
      IssuedBeforeStays(h, Entry(call, reply), i, id);
      if i < |h| {
        assert g[i] == h[i];
        OldRequestSpent(c, s, h, call, i, id);
      } else {
        NewRequestSpent(c, s, h, call, id);
      }
    }
  }

  lemma UnusedCodesStep(c: Config, s: State, h: seq<Entry>, call: Call)
    requires UnusedCodes(s, h) && FreshIn(h, call)
    ensures UnusedCodes(Step(c, s, call).0, h + [Entry(call, Step(c, s, call).1)])
  {
    var (t, reply) := Step(c, s, call);
    var g := h + [Entry(call, reply)];
    StepAdds(c, s, call);
    StepUses(c, s, call);
    forall i: nat, code | i < |g| && TriesCode(g[i], code) && IssuedBefore(g, i, code)
      ensures code !in t.codes
    {
      IssuedBeforeStays(h, Entry(call, reply), i, code);
      if call.Complete? {
        NotIssuedYet(h, call, i);
      }
      assert i < |h| ==> g[i] == h[i];
    }
    hide Step, IssuedBefore, FreshIn;
  }

  lemma UnusedGrantsStep(c: Config, s: State, h: seq<Entry>, call: Call)
    requires UnusedGrants(s, h) && FreshIn(h, call)
    ensures UnusedGrants(Step(c, s, call).0, h + [Entry(call, Step(c, s, call).1)])
  {
    var (t, reply) := Step(c, s, call);
    var g := h + [Entry(call, reply)];
    StepAdds(c, s, call);
    StepUses(c, s, call);
    forall i: nat, token | i < |g| && TriesGrant(g[i], token) && IssuedBefore(g, i, token)
      ensures token !in t.grants
    {
      IssuedBeforeStays(h, Entry(call, reply), i, token);
      if call.Exchange? {
        NotIssuedYet(h, call, i);
      }
      assert i < |h| ==> g[i] == h[i];
    }
    hide Step, IssuedBefore, FreshIn;
  }

  lemma OneShotStep(c: Config, s: State, h: seq<Entry>, call: Call)
    requires Unused(s, h) && OneShot(h)
    ensures OneShot(h + [Entry(call, Step(c, s, call).1)])
  {
    var e := Entry(call, Step(c, s, call).1);
    var g := h + [e];
    StepUses(c, s, call);
    forall i: nat, token | i < |g|
      ensures IssuedBefore(g, i, token) <==> IssuedBefore(h, i, token)
    {
      IssuedBeforeStays(h, e, i, token);
    }
    hide Step, IssuedBefore;
    assert g[|h|] == e;
    assert forall i :: 0 <= i < |h| ==> g[i] == h[i];
  }

  // ----- over every run -----

  lemma {:induction false} RunExplained(c: Config, calls: seq<Call>)
    requires NoCollisions(c, calls)
    ensures var (s, h) := After(c, calls); Explained(c, s, h) && Unused(s, h) && OneShot(h) && AllTraced(c, h)
    decreases |calls|
  {
    if calls != [] {
      var n := |calls| - 1;
      RunExplained(c, calls[..n]);
      var (s, h) := After(c, calls[..n]);
      ExplainedStep(c, s, h, calls[n]);
      UnusedRequestsStep(c, s, h, calls[n]);
      UnusedCodesStep(c, s, h, calls[n]);
      UnusedGrantsStep(c, s, h, calls[n]);
      OneShotStep(c, s, h, calls[n]);
      TraceStep(c, s, h, calls[n]);
    }
    hide Step, Explained, UnusedRequests, UnusedCodes, UnusedGrants, OneShot, AllTraced, FreshIn;
  }

  /** No token was issued at two places. */
  ghost predicate IssuedOnce(h: seq<Entry>) {
    forall i, j :: 0 <= i < |h| && 0 <= j < |h| && Issued(h[i]).Some? && Issued(h[i]) == Issued(h[j]) ==> i == j
  }

  lemma {:induction false} TokensIssuedOnce(c: Config, calls: seq<Call>)
    requires NoCollisions(c, calls)
    ensures IssuedOnce(After(c, calls).1)
    decreases |calls|
  {
    if calls != [] {
      var n := |calls| - 1;
      TokensIssuedOnce(c, calls[..n]);
      StepUses(c, After(c, calls[..n]).0, calls[n]);
    }
    hide Step;
  }

  lemma ExchangesAlike(c: Config, h: seq<Entry>, q: nat, a: nat, x: nat, token: string, g: Grant, q': nat, a': nat, x': nat, g': Grant)
    requires IssuedOnce(h) && ExchangesAt(c, h, q, a, x, token, g) && ExchangesAt(c, h, q', a', x', token, g')
    ensures q == q' && a == a' && x == x' && g == g'
  {
    assert Issued(h[x]) == Issued(h[x']);
    var k :| ApprovesAt(c, h, q, a, h[x].call.code, k) && k.account == g.account;
    var k' :| ApprovesAt(c, h, q', a', h[x].call.code, k') && k'.account == g'.account;
    assert Issued(h[a]) == Issued(h[a']);
    assert Issued(h[q]) == Issued(h[q']);
  }

  /**
   Every identity that any run hands out goes back to exactly one chain: one
   authorization request, its one approval for that listed account before it
   expired, and the one exchange of that approval's unexpired code with a verifier
   whose challenge is the request's own.
   */
  lemma {:induction false} IdentitiesAreTraced(c: Config, calls: seq<Call>, u: nat)
    requires NoCollisions(c, calls)
    requires var h := After(c, calls).1; u < |h| && h[u].call.GetUser? && h[u].reply.User?
    ensures TracedOnce(c, After(c, calls).1, u)
  {
    RunExplained(c, calls);
    TokensIssuedOnce(c, calls);
    hide Step, Explained, Unused, OneShot, Traced, NoCollisions, After, IssuedOnce, ExchangesAt;
    var h := After(c, calls).1;
    forall q: nat, a: nat, x: nat, g, q': nat, a': nat, x': nat, g' | IdentifiesAt(c, h, q, a, x, u, g) && IdentifiesAt(c, h, q', a', x', u, g')
      ensures q == q' && a == a' && x == x' && g == g'
    {
      ExchangesAlike(c, h, q, a, x, h[u].call.token, g, q', a', x', g');
    }
  }

  /**
   Over every run a request is completed once, an issued code is spent by the first
   exchange that names it whether or not its verifier fits, and an issued grant by
   the first lookup.
   */
  lemma {:induction false} EverythingWorksOnce(c: Config, calls: seq<Call>)
    requires NoCollisions(c, calls)
    ensures OneShot(After(c, calls).1)
  {
    RunExplained(c, calls);
    hide Step, Explained, Unused, OneShot, Traced, NoCollisions, After;
  }
}
