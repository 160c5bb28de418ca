/** The provider as the source has it: an object whose methods insert into and delete from three maps. */
module XOAuthEmulator {
  import opened Wrappers
  import opened OAuthSteps

  class LocalXOAuthEmulator {
    const config: Config
    var requests: map<string, Request>
    var codes: map<string, Code>
    var grants: map<string, Grant>

    ghost function View(): State
      reads this
    {
      State(requests, codes, grants)
    }

    constructor (config: Config)
      ensures View() == EMPTY && this.config == config
    {
      this.config := config;
      requests, codes, grants := map[], map[], map[];
    }

    /** drawn is the random token, stamp the time read when the expiry is set. */
    method GetAuthorizeUrl(state: string, challenge: string, drawn: string, stamp: int) returns (r: Reply)
      modifies this`requests
      ensures (View(), r) == Step(config, old(View()), Authorize(state, challenge, drawn, stamp))
    {
      if !WellFormedRequest(state, challenge) {
        return Refused;
      }
      requests := requests[drawn := Request(state, challenge, stamp + config.ttl)];
      return RequestIssued(drawn);
    }

    method GetAuthorizationRequest(requestId: string, now: int) returns (r: Reply)
      modifies this`requests
      ensures (View(), r) == Step(config, old(View()), OAuthSteps.Call.View(requestId, now))
    {
      if requestId !in requests || requests[requestId].expiresAt <= now {
        if requestId in requests {
          requests := requests - {requestId};
        }
        return Refused;
      }
      return Shown(requests[requestId].expiresAt);
    }

    method CompleteAuthorization(requestId: string, decision: string, accountKey: Option<string>, drawn: string, now: int, stamp: int) returns (r: Reply)
      modifies this`requests, this`codes
      ensures (View(), r) == Step(config, old(View()), Complete(requestId, decision, accountKey, drawn, now, stamp))
    {
      if requestId !in requests || requests[requestId].expiresAt <= now {
        if requestId in requests {
          requests := requests - {requestId};
        }
        return Refused;
      }
      var request := requests[requestId];
      var key := if accountKey.Some? then accountKey.value else "";
      if decision == "approve" && key !in config.accounts {
        return Refused;
      }
      if decision != "approve" && decision != "deny" && decision != "provider_error" {
        return Refused;
      }
      requests := requests - {requestId};
      if decision == "deny" {
        return Denied(request.state);
      } else if decision == "provider_error" {
        return ProviderError(request.state);
      }
      codes := codes[drawn := Code(config.accounts[key], request.challenge, stamp + config.ttl)];
      return CodeIssued(request.state, drawn);
    }

    method ExchangeCode(code: string, verifier: string, drawn: string, now: int, stamp: int) returns (r: Reply)
      modifies this`codes, this`grants
      ensures (View(), r) == Step(config, old(View()), Exchange(code, verifier, drawn, now, stamp))
    {
      var found := if code in codes then Some(codes[code]) else None;
      codes := codes - {code};
      if found.None? || found.value.expiresAt <= now {
        return Refused;
      }
      if config.challengeOf(verifier) != found.value.challenge {
        return Refused;
      }
      grants := grants[drawn := Grant(found.value.account, stamp + config.ttl)];
      return TokenIssued(drawn);
    }

    method LookUpUser(token: string, now: int) returns (r: Reply)
      modifies this`grants
      ensures (View(), r) == Step(config, old(View()), GetUser(token, now))
    {
      var found := if token in grants then Some(grants[token]) else None;
      grants := grants - {token};
      if found.None? || found.value.expiresAt <= now {
        return Refused;
      }
      return User(found.value.account.id, found.value.account.username);
    }
  }
}
