# Botnet protection: request admission filter

This project models the request admission filter of the `botnet-protection`
project, together with proofs about it. The filter is the TypeScript code that
`generate-attackprotection.js` writes into the generated project. It has three
parts:

- **`RateLimiter`** (`src/rate-limiter.ts`) is a sliding-window rate limiter.
  It keeps a mapping from client address to the timestamps of that client's
  recent requests, in milliseconds. Each `isRateLimited(ip)` call works like
  this:
  - An unseen address gets the list `[now]` and is let through.
  - For a known address, timestamps that are `timeWindow` or more old are
    removed, and the pruned list is stored back.
  - The request is refused when the pruned list already holds at least
    `threshold` entries. Otherwise `now` is appended and the request is let through.
  - The defaults are 100 requests per 60000 ms.
- **The user-agent heuristic.** An agent is suspicious when it contains `bot`
  (case-sensitive), is empty, or is shorter than 10 characters. A missing
  header reads as the empty string.
- **The admission order.** Both servers use it: the plain HTTP server in
  `src/botnet-protection.ts` and the Express middleware in
  `src/express-integration.ts`. The rate limit is checked first (answer 429).
  Only a request that passes it has its user agent checked (answer 403).
  Everything else is let through. A request that ends up Forbidden has
  therefore already been recorded by the limiter.

The files:

- `rate_limiter.dfy` (module `RateLimiting`) holds:
  - the pruning filter `Prune`;
  - the pure specification of one check, `Step`;
  - successive checks of one address, `Run`, and a series of calls from any
    addresses, `Replay`;
  - the `RateLimiter` class, with the mapping as a `map<string, seq<int>>`
    field that `IsRateLimited` reassigns;
  - the lemmas about all of these.
- `user_agent.dfy` (module `UserAgent`) holds substring search (`Contains`),
  the heuristic (`IsSuspicious`) and its lemmas.
- `admission.dfy` (module `Admission`) holds the three-valued `Decision`, the
  request handler `Admit`, and the end-to-end scenarios.

The clock read `Date.now()` becomes an explicit integer parameter `now`. The
client address and the user-agent header are inputs: the address is a string,
and the header is a `Header` that is `Absent` or `Present(value)`.

The source does not check that `threshold` and `timeWindow` are positive, so
the model takes any integers. These lemmas state where positivity matters:
- `StoredAreFresh` needs `window > 0`, because the appended `now` is 0 ms old.
- `WindowResets` and `Burst` need `threshold >= 1`. With `threshold <= 0`, an
  address is let through on its first request and refused on every later one.

For the same reason, the invariant on stored list lengths is `max(threshold, 1)`
rather than `threshold`: the first request of an address is always stored.

## Model

| member | source | states |
|---|---|---|
| `RateLimiting.Prune` | generate-attackprotection.js:66 | the pruned list is no longer than the input; every kept timestamp is strictly less than `window` old; each timestamp keeps all its occurrences when fresh and none when expired |
| `RateLimiting.Step` | generate-attackprotection.js:55-78 | the pure definition of one `isRateLimited` call; its contract says the keys grow by `ip` only, a first call is never refused, and the list grows by at most one; its branches are stated by `FirstCallAllowed` and `KnownCall`, and its invariants by `StoredAreFresh`, `OthersUnchanged`, `StepKeepsSorted`, `StepKeepsBounded` and `WindowResets` |
| `RateLimiting.Run` | generate-attackprotection.js:55-78 | the verdicts of successive calls for one address; one verdict per call, and the first call of a new address is let through; the verdicts are stated by `Burst` and `BurstFrom` |
| `RateLimiting.Replay` | generate-attackprotection.js:55-78 | the mapping after a series of calls from any addresses; exactly the calling addresses are added; the invariants are stated by `ReplayKeepsSorted` and `ReplayKeepsBounded` |
| `RateLimiting.RateLimiter.constructor` | generate-attackprotection.js:46-53 | a new limiter has an empty mapping and the given threshold and window, which default to 100 and 60000 |
| `RateLimiting.RateLimiter.IsRateLimited` | generate-attackprotection.js:55-78 | the verdict and the new mapping are those of `Step` on the old mapping: first-call insert, prune and write back, refuse at `>= threshold`, else append `now` |
| `RateLimiting.PruneConcat` | generate-attackprotection.js:66 | pruning distributes over concatenation, so it keeps arrival order |
| `RateLimiting.PruneAllFresh` | generate-attackprotection.js:66 | a list lying wholly inside the window is left unchanged |
| `RateLimiting.PruneAllExpired` | generate-attackprotection.js:66 | a list lying wholly outside the window is emptied |
| `RateLimiting.PruneSorted` | generate-attackprotection.js:66 | pruning a sorted list leaves it sorted |
| `RateLimiting.FirstCallAllowed` | generate-attackprotection.js:58-61 | the first check of an address lets it through, stores exactly `[now]` and adds only that key |
| `RateLimiting.KnownCall` | generate-attackprotection.js:63-77 | for a known address: refused iff the pruned count is `>= threshold`; when refused the stored list is the pruned list (no `now`); when admitted it is the pruned list followed by `now` |
| `RateLimiting.StoredAreFresh` | generate-attackprotection.js:66-67 | with a positive window, after a check every timestamp stored for the address is strictly less than `window` old, and one exactly `window` old has been removed |
| `RateLimiting.OthersUnchanged` | generate-attackprotection.js:58-77 | a check adds no key but the checked one and leaves every other address's list as it was |
| `RateLimiting.StepKeepsSorted` | generate-attackprotection.js:66-77 | if every list is sorted and holds nothing later than `now`, that still holds after a check at `now`, measured against any later time |
| `RateLimiting.ReplayKeepsSorted` | generate-attackprotection.js:66-77 | over a series of calls whose times never go backwards, every stored list stays sorted |
| `RateLimiting.ReplayKeepsBounded` | generate-attackprotection.js:58-77 | over any series of calls, every stored list keeps at most `max(threshold, 1)` entries |
| `RateLimiting.StepKeepsBounded` | generate-attackprotection.js:58-77 | if every list has at most `max(threshold, 1)` entries, a check keeps it so |
| `RateLimiting.WindowResets` | generate-attackprotection.js:63-77 | once all of an address's recorded requests are `window` or more old, its next check is let through and its list restarts as `[now]` |
| `RateLimiting.BurstFrom` | generate-attackprotection.js:63-77 | in a burst inside one window, from an address already holding `n` entries (any `n`, any `threshold`), the `i`-th check is refused iff `n + i >= threshold` |
| `RateLimiting.Burst` | generate-attackprotection.js:58-77 | in a burst inside one window, from a new address, the first `threshold` checks are let through and every later one is refused |
| `UserAgent.Contains` | generate-attackprotection.js:97 | the substring search is true exactly when the pattern occurs at some position |
| `UserAgent.AgentOf` | generate-attackprotection.js:96 | the definition of the empty-string default for the `user-agent` header (also line 128): a missing header gives `""` and a present one its value; `AbsentIsSuspicious` states the consequence |
| `UserAgent.IsSuspicious` | generate-attackprotection.js:97 | the definition of the heuristic (also line 129); its contract says any agent shorter than 10 or containing `bot` is flagged, and an agent that passes is at least 10 characters long with no `bot` anywhere; the exact characterization is `SuspiciousIff` |
| `UserAgent.ContainsNeedsFirst` | generate-attackprotection.js:97 | a pattern whose first character is absent from the string does not occur in it |
| `UserAgent.SuspiciousIff` | generate-attackprotection.js:97 | an empty agent is shorter than 10, so suspicious iff shorter than 10 characters or `bot` occurs somewhere |
| `UserAgent.AbsentIsSuspicious` | generate-attackprotection.js:96-97 | a request without a user-agent header is suspicious |
| `UserAgent.FlaggedSamples` | generate-attackprotection.js:97 | `""`, `"short"` and `"some-bot-agent"` are suspicious |
| `UserAgent.BrowserPasses` | generate-attackprotection.js:97 | `"Mozilla/5.0 Firefox"` is not suspicious |
| `UserAgent.CapitalBotPasses` | generate-attackprotection.js:97 | the match is case-sensitive: `"Mozilla/5.0 BingBot"` is not suspicious |
| `Admission.Decide` | generate-attackprotection.js:89-102 | RateLimited iff the limiter refused; Forbidden iff it let the request through and the agent is suspicious; Allow iff neither |
| `Admission.Evaluate` | generate-attackprotection.js:89-106 | the pure admission sequence (also lines 123-134): RateLimited iff the limiter refuses; Forbidden only for a suspicious agent and Allow only for an acceptable one; the keys grow by `ip` only; a new address is never RateLimited and is stored as `[now]`; the side effect on Forbidden is stated by `ForbiddenIsCounted` |
| `Admission.Admit` | generate-attackprotection.js:89-106 | the decision and the limiter's new mapping are the rate check followed, only on success, by the agent check; the same order as the middleware at lines 123-134 |
| `Admission.ForbiddenIsCounted` | generate-attackprotection.js:89-102 | a Forbidden request has already been recorded (its address's list ends with `now`); a RateLimited one has not |
| `Admission.BurstScenario` | generate-attackprotection.js:89-102 | with limit 2 per 1000 ms and an acceptable agent, requests at 0, 100 and 200 ms from one address get Allow, Allow, RateLimited |
| `Admission.FirefoxBurstScenario` | generate-attackprotection.js:89-102 | the same scenario with the agent `"Mozilla/5.0 Firefox"` gives Allow, Allow, RateLimited |
| `Admission.EmptyAgentScenario` | generate-attackprotection.js:89-102 | a first request with an empty agent is Forbidden |

## Left out

- The project generator `generateProject` (generate-attackprotection.js:186-218) is left out. It only creates directories and writes files.
- The `package.json`, `tsconfig.json` and README texts (generate-attackprotection.js:8-44, 145-183) are left out. They are configuration and prose with no logic.
- The HTTP and Express plumbing is left out: `http.createServer`, `writeHead`, `end`, `status(..).send`, `listen`, `next()` and the `/` route. The model keeps only the decision they act on. They map RateLimited to 429, Forbidden to 403 and Allow to the normal handler.
- Reading the address from `req.socket.remoteAddress || ''` or `req.ip` is left out. The address is an input string.
- The `console.log` diagnostics are left out. They do not affect behaviour.
- The clock read `Date.now()` is left out. The time is the parameter `now`, in integer milliseconds.
- Concurrency is left out. Node runs the handler on a single event loop, so the model is sequential.
- String length: the model counts a string's length in characters. JavaScript counts UTF-16 code units, so an agent containing characters outside the Basic Multilingual Plane could be judged short differently.
- Floating point: JavaScript numbers are floating point. The model uses unbounded integers for timestamps, `threshold` and `timeWindow`.
- Aliasing: the model does not capture it. In the source, `push(now)` mutates the same array that was just stored in the map. The model stores `recent + [now]` instead, which gives the same resulting mapping.
