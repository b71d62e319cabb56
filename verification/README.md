# Journey router, modelled in Dafny

This project models the routing engine of Journey (`Journey::Router`, `lib/journey/router.rb`).
The engine keeps an ordered route table and works in two directions:

- **Recognition** (`route_for`, `call`, `recognize`) scans the routes in registration order. It
  takes the first route whose verb matcher, named constraints and path pattern all accept the
  request. The parameters are the route's `extras` overridden by the non-`nil` named captures.
  A partial (mount) match moves the matched prefix into `SCRIPT_NAME` and the remainder into
  `PATH_INFO`.
- **Generation** (`generate`, `match_route`, `verify_required_parts!`) chooses the named route,
  or else a route of maximal score. It then decides which parts to render: all required parts,
  plus the optional parts up to the last one supplied with a truthy option. Each part's value
  comes from the options, then from the recall, then through the optional `parameterize` hook.
  Falsy values are dropped. A required part with a requirement must be present and must fully
  match its pattern, or `RoutingError` is raised. The result is the formatted path plus the
  options that were not consumed, never including `:controller` or `:action`.

Files:

- `ruby_core.dfy` (`RubyCore`): the Ruby semantics the router relies on. Values are `nil`,
  `false` or strings. It covers truthiness, `||`, `Hash#[]`, `Array#reverse`, `drop_while`,
  `|`, `keep_if`, and `Hash[pairs]`, where a later pair wins.
- `route_table.dfy` (`RouteTable`): `Route`, `MatchData`, the Rack environment, the `Router`
  state, and `add_route`.
- `recognition.dfy` (`Recognition`): `route_for`, `call`, `recognize`.
- `generation.dfy` (`Generation`): `match_route`, `generate`, `verify_required_parts!`, and
  reference definitions of what `generate` renders and leaves over.

Collaborators the router only calls are function-typed fields of `Route`. They are `app`,
`verb`, the `constraints` matchers, `path` (`Path::Pattern#match`), `score` and `format`. The
regex engine is the `fullMatch: (Pattern, string) -> bool` parameter. It stands for
`/\A#{pattern}\Z/ ===` on a string.

Behaviours of `router.rb` worth noting:

- **Address guard.** Line 105, `next if addr && !r.ip === addr`, parses as
  `(!r.ip) === addr`. That is a boolean compared with a string, which is never true. No route
  is skipped because of the client address, so recognition does not filter on the host.
- **Unregistered name.** An unregistered name falls through to scoring (line 44): the route of
  maximal score is used instead.
- **Ties in scoring.** `match_route` uses `sort_by ... .last`, and `sort_by` is not stable.
  Only "the chosen route has maximal score" is promised, not that the last of tied routes wins.
- **Captures against extras.** Captures override `extras` (`extras.merge(info)`).
- **Truthy, not non-empty.** Only truthy options count as supplied. An empty string is truthy.
- **Leftover aliasing.** Without a `parameterize` hook, `parameterized_parts` is the same array
  as `route_values`. The `keep_if` at line 66 therefore also removes the falsy pairs from
  `route_values` before line 71 subtracts them from the options. With a hook, `route_values`
  keeps every pair. `Generation.Consumed` states both cases.

## Model

| member | source | states |
|---|---|---|
| `RouteTable.NewRouter` | lib/journey/router.rb:27-33 | a new router has no routes and no named routes, stores recognised parameters under the given parameters key, and the name index invariant holds |
| `RouteTable.AddRoute` | lib/journey/router.rb:35-41 | exactly one route is appended at the end and earlier routes are unchanged; with a name, that name now maps to the new route and other names are unchanged; without a name the index is unchanged; the route is returned |
| `RouteTable.AddRouteKeepsNamesRegistered` | lib/journey/router.rb:38-39 | registration keeps every named route pointing at a registered route |
| `Recognition.FindFrom` | lib/journey/router.rb:103-112 | `routes.find` returns the least position whose verb, constraints and path match all accept, or nothing when no later route accepts |
| `Recognition.RouteFor` | lib/journey/router.rb:98-124 | recognition fails exactly when no route accepts; otherwise it returns the first accepting route with the parameters built from its match; a non-empty remainder becomes `PATH_INFO` with the matched text in `SCRIPT_NAME` and nothing else changed; an empty remainder leaves the environment untouched |
| `Recognition.KeptCapturesKeys` | lib/journey/router.rb:121-122 | a name is in the capture hash exactly when some capture under that name is not `nil` |
| `Recognition.KeptCapturesLastWins` | lib/journey/router.rb:122 | where several groups share a name, the hash keeps the last non-`nil` capture |
| `Recognition.RouteParamsKeys` | lib/journey/router.rb:121-123 | a name has a recognised parameter exactly when it is an extra or some capture under it is not `nil` |
| `Recognition.RouteParamsCaptureWins` | lib/journey/router.rb:121-123 | a non-`nil` capture overrides an extra of the same name, the last non-`nil` capture winning among groups that share a name |
| `Recognition.RouteParamsExtraKept` | lib/journey/router.rb:123 | an extra keeps its value when every capture of that name is `nil` |
| `Recognition.FirstAcceptingWins` | lib/journey/router.rb:103-114 | if any route accepts the request, recognition succeeds with a route registered no later than it |
| `Recognition.AddRouteKeepsRecognition` | lib/journey/router.rb:35-41 | appending a route never changes how an already recognised request is recognised |
| `Recognition.AddRouteRecognisesNew` | lib/journey/router.rb:35-41 | a request nothing recognised is recognised after registration exactly when the new route accepts it, and then by that route |
| `Recognition.RouteForIsFirstAccepting` | lib/journey/router.rb:103-112 | the route recognition returns is the unique first accepting route |
| `Recognition.Call` | lib/journey/router.rb:78-86 | with no accepting route the response is `[404, {'X-Cascade' => 'pass'}, ['Not Found']]`; otherwise it is the first accepting route's app response, the app called on the rewritten environment with the parameters stored under the parameters key |
| `Recognition.Recognize` | lib/journey/router.rb:88-91 | the block receives nothing exactly when no route accepts; otherwise it receives the first accepting route and its parameters, and the request environment is rewritten as by `route_for`: a non-empty remainder becomes `PATH_INFO` with the matched text in `SCRIPT_NAME`, an empty remainder leaves it untouched |
| `Generation.MatchRoute` | lib/journey/router.rb:94-96 | a route is chosen exactly when the table is non-empty, and its score is at least that of every route |
| `Generation.SelectRoute` | lib/journey/router.rb:44 | a registered name selects its named route; otherwise the selected route is registered and has maximal score for the recall overridden by the options |
| `Generation.SuppliedPrefixMembers` | lib/journey/router.rb:49-50 | the parts kept by `drop_while` on the reversed parts are exactly those at or before some part supplied with a truthy option |
| `Generation.ProvidedPartsSpec` | lib/journey/router.rb:49-51 | the parts to render have no duplicates; they are the required parts plus the optional parts up to the last supplied one |
| `Generation.RouteValuesMembers` | lib/journey/router.rb:54-56 | each provided part is paired with its truthy option value, or else its recalled value, or else `nil`, and with nothing else |
| `Generation.RenderedParts` | lib/journey/router.rb:46-67 | the hash given to `format` holds exactly the parts to render whose hooked value is truthy, each with that value |
| `Generation.ConsumedPairs` | lib/journey/router.rb:71 | an options pair is subtracted exactly when its part is among the parts to render and its chosen (pre-hook) value is that very value, and, without a hook, that value is truthy |
| `Generation.GenerateFor` | lib/journey/router.rb:71-73 | the leftover options are a sub-map of the options and never contain `:controller` or `:action` |
| `Generation.GenerateForSpec` | lib/journey/router.rb:46-75 | `RoutingError` occurs exactly when some required part with a requirement is missing from the rendering or does not fully match its pattern, which is the `verify_required_parts!` check of lines 126-131 (`RequiredPartsValid`); otherwise the path is the route's format of the rendering, and the leftover options are the unconsumed options minus `:controller` and `:action` |
| `Generation.Generate` | lib/journey/router.rb:43-76 | the leftover options of `generate` are a sub-map of the options without `:controller` or `:action` |
| `Generation.GenerateSpec` | lib/journey/router.rb:43-76 | `generate` on the table behaves as `GenerateForSpec` describes for the route line 44 selects |
| `Generation.MissingRequiredPartFails` | lib/journey/router.rb:126-131 | without a `parameterize` hook, a required part with a requirement and no truthy value in the options or the recall fails `verify_required_parts!` (`RequiredPartsValid`) and raises `RoutingError` |
| `Generation.UnmatchedRequirementFails` | lib/journey/router.rb:126-131 | a required part whose rendered string does not fully match its requirement fails `verify_required_parts!` (`RequiredPartsValid`) and raises `RoutingError` |
| `Generation.LeftoverOptions` | lib/journey/router.rb:71-73 | a truthy option for a rendered part is never left over; an unreserved option that names no part of the route is always left over |

## Left out

- The Rack environment as a hash, and `request_class.new env`. The request is a record: method, path, script name, optional client address, an attribute lookup standing for `req.send(k)`, and the slots parameters are stored in.
- The `$-w` warning toggling around the parser `require` (lines 4-7), `VERSION`, and `NullReq`.
- The internals of `Route.new`, `Path::Pattern`, the definition parser, `strexp`, `utils` and `backwards`. These files are not part of this model. Their behaviour is abstract: `path`, `score`, `format`, `verb`, `constraints`, `parts`, `required_parts`, `requirements` and `extras` are fields of `Route`.
- The regex engine, including the exact `\A...\Z` semantics (`\Z` also accepts one trailing newline). It is the `fullMatch` parameter.
- Invoking the downstream app is a pure function of the environment. Its side effects, and any change it makes to the environment, are not modelled. Being pure, it cannot be observed whether an app ran on the 404 path; `Call` gives the fixed 404 response there regardless of every app.
- Thread safety of the table, and the single-writer set-up phase.
- The client-address guard at line 105. It never skips a route, so no host filter is modelled.
- Generation.MatchRoute: promises only that the chosen route has maximal score, not which of several tied routes is chosen, because `sort_by` is not stable. The model's own choice (the later route on ties) is not part of its contract.
- The crash when no route is registered and the name does not resolve (`nil.parts`). The precondition `Generation.CanSelect` excludes it.
- Ruby values other than `nil`, `false` and strings. Integers or symbols passed as options are represented by their strings, although `Regexp#===` would reject an integer.
- The unused `key` argument of `generate`.
- Generation followed by recognition (the round trip). It depends on how `Path::Pattern#match` and `Route#format` relate, and both are abstract here.
- Determinism of `generate` and the fact that recognition never changes the table hold by construction: every operation is a pure function.
