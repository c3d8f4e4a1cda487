/** The admission filter in front of every request: the rate limit first, then
    the user-agent heuristic. */
module Admission {
  import opened RateLimiting
  import opened UserAgent

  /** What the server does with a request: pass it on, answer 429 Too Many
      Requests, or answer 403 Forbidden. */
  datatype Decision = Allow | RateLimited | Forbidden

  /** The decision once the limiter has answered `limited` for the request. */
  function Decide(limited: bool, agent: string): (d: Decision)
    ensures d == RateLimited <==> limited
    ensures d == Forbidden <==> !limited && IsSuspicious(agent)
    ensures d == Allow <==> !limited && !IsSuspicious(agent)
  {
    if limited then RateLimited
    else if IsSuspicious(agent) then Forbidden
    else Allow
  }

  /** The pure effect of admitting one request: the decision and the mapping
      the limiter is left with. */
  function Evaluate(requests: Requests, ip: Address, header: Header, now: Timestamp, threshold: int, window: int): (r: (Decision, Requests))
    ensures r.0 == RateLimited <==> Step(requests, ip, now, threshold, window).limited
    ensures r.0 == Forbidden ==> IsSuspicious(AgentOf(header))
    ensures r.0 == Allow ==> !IsSuspicious(AgentOf(header))
    ensures r.1.Keys == requests.Keys + {ip}
    ensures ip !in requests ==> r.0 != RateLimited && r.1[ip] == [now]
  {
    var o := Step(requests, ip, now, threshold, window);
    (Decide(o.limited, AgentOf(header)), o.requests)
  }

  /** The request handler: ask the limiter, and only if it lets the request
      through look at the user agent. */
  method Admit(limiter: RateLimiter, ip: Address, header: Header, now: Timestamp) returns (d: Decision)
    modifies limiter
    ensures (d, limiter.requests) == Evaluate(old(limiter.requests), ip, header, now, limiter.threshold, limiter.timeWindow)
  {
    var limited := limiter.IsRateLimited(ip, now);
    if limited {
      return RateLimited;
    }
    var agent := AgentOf(header);
    if IsSuspicious(agent) {
      return Forbidden;
    }
    return Allow;
  }

  /** A request the filter answers Forbidden has already been recorded by the
      limiter: its address's list ends with `now`. A request answered
      RateLimited is not recorded, whatever its agent. */
  lemma ForbiddenIsCounted(requests: Requests, ip: Address, header: Header, now: Timestamp, threshold: int, window: int)
    ensures var (d, after) := Evaluate(requests, ip, header, now, threshold, window);
      ip in after &&
      (d == Forbidden ==> after[ip] == (if ip in requests then Prune(requests[ip], now, window) else []) + [now]) &&
      (d == RateLimited ==> ip in requests && after[ip] == Prune(requests[ip], now, window))
  {
  }

  /** The three-request scenario: with a limit of 2 requests per second and
      an agent the heuristic accepts (such as "Mozilla/5.0 Firefox", see
      BrowserPasses), requests from one address at 0, 100 and 200 ms are let
      through, let through and refused. */
  method BurstScenario(agent: string) returns (first: Decision, second: Decision, third: Decision)
    requires !IsSuspicious(agent)
    ensures first == Allow && second == Allow && third == RateLimited
  {
    var ip := "1.2.3.4";
    var limiter := new RateLimiter(2, 1000);
    first := Admit(limiter, ip, Present(agent), 0);
    PruneAllFresh([0], 100, 1000);
    second := Admit(limiter, ip, Present(agent), 100);
    assert limiter.requests[ip] == [0, 100];
    PruneAllFresh([0, 100], 200, 1000);
    third := Admit(limiter, ip, Present(agent), 200);
  }

  /** The same scenario with the browser agent "Mozilla/5.0 Firefox". */
  method FirefoxBurstScenario() returns (first: Decision, second: Decision, third: Decision)
    ensures first == Allow && second == Allow && third == RateLimited
  {
    BrowserPasses();
    first, second, third := BurstScenario("Mozilla/5.0 Firefox");
  }

  /** A first request with an empty agent passes the rate check and is then
      forbidden. */
  method EmptyAgentScenario() returns (d: Decision)
    ensures d == Forbidden
  {
    var limiter := new RateLimiter(2, 1000);
    d := Admit(limiter, "1.2.3.4", Present(""), 0);
  }
}
