/** Generation: `generate`, `match_route` and `verify_required_parts!`
    (lib/journey/router.rb:43-76, 94-96, 126-131). */
module Generation {
  import opened RubyCore
  import opened RouteTable

  /** `match_route`: the position of a route whose score is maximal. Ruby's `sort_by` is not
      stable, so only maximality is promised, not which of several tied routes is taken. */
  function MatchRoute(routes: seq<Route>, opts: Params): (r: Option<nat>)
    ensures r.None? <==> |routes| == 0
    ensures r.Some? ==> r.value < |routes|
    ensures r.Some? ==> forall j :: 0 <= j < |routes| ==> routes[j].score(opts) <= routes[r.value].score(opts)
  {
    if |routes| == 0 then None
    else
      var last := |routes| - 1;
      match MatchRoute(routes[..last], opts)
      case None => Some(last)
      case Some(b) =>
        if routes[last].score(opts) >= routes[b].score(opts) then Some(last) else Some(b)
  }

  /** Line 44 can produce a route: the name is registered, or there is a route to score.
      With neither, `match_route` answers `nil` and `generate` fails on `nil.parts`. */
  predicate CanSelect(t: Router, name: Option<Name>) {
    (name.Some? && name.value in t.namedRoutes) || |t.routes| > 0
  }

  /** Line 44: the named route when the name is registered, otherwise a best-scoring route
      for the recall overridden by the options. */
  function SelectRoute(t: Router, name: Option<Name>, options: Params, recall: Params): (r: Route)
    requires CanSelect(t, name)
    ensures name.Some? && name.value in t.namedRoutes ==> r == t.namedRoutes[name.value]
    ensures !(name.Some? && name.value in t.namedRoutes) ==>
              exists i :: 0 <= i < |t.routes| && r == t.routes[i]
                          && forall j :: 0 <= j < |t.routes| ==>
                               t.routes[j].score(recall + options) <= r.score(recall + options)
  {
    if name.Some? && name.value in t.namedRoutes then t.namedRoutes[name.value]
    else t.routes[MatchRoute(t.routes, recall + options).value]
  }

  /** Line 46: the options whose value is truthy. */
  function SegmentValues(options: Params): Params {
    map k | k in options && Truthy(options[k]) :: options[k]
  }

  /** Lines 49-51: the route's parts reversed, with the leading ones that were not supplied
      dropped, united with the required parts. */
  function ProvidedParts(r: Route, segmentValues: Params): seq<Key> {
    ArrayUnion(SuppliedPrefix(r.parts, segmentValues), r.requiredParts)
  }

  /** Line 49: `parts.reverse.drop_while { |part| !segment_values.key?(part) }`. */
  function SuppliedPrefix(parts: seq<Key>, segmentValues: Params): seq<Key> {
    DropWhile(Reverse(parts), p => p !in segmentValues)
  }

  /** Lines 54-56: each part with `segment_values[part] || recall[part]`. */
  function RouteValues(parts: seq<Key>, segmentValues: Params, recall: Params): seq<(Key, Value)> {
    seq(|parts|, i requires 0 <= i < |parts| =>
      (parts[i], Or(Get(segmentValues, parts[i]), Get(recall, parts[i]))))
  }

  /** The optional `parameterize[:parameterize]` callable of lines 60-64. */
  type Hook = Option<(Key, Value) -> Value>

  /** Lines 58-64: the route values, passed through the hook when there is one. */
  function Parameterize(routeValues: seq<(Key, Value)>, hook: Hook): seq<(Key, Value)> {
    match hook
    case None => routeValues
    case Some(f) =>
      seq(|routeValues|, i requires 0 <= i < |routeValues| =>
        (routeValues[i].0, f(routeValues[i].0, routeValues[i].1)))
  }

  predicate TruthyPair(p: (Key, Value)) {
    Truthy(p.1)
  }

  /** `Regexp#===`: `nil` never matches; a string matches when the anchored pattern accepts it. */
  predicate RegexCaseEq(fullMatch: (Pattern, string) -> bool, pattern: Pattern, v: Value) {
    v.Str? && fullMatch(pattern, v.s)
  }

  /** `verify_required_parts!` holds: every required part that has a requirement is
      present in the rendered parameters and fully matches its pattern. */
  predicate RequiredPartsValid(r: Route, parts: Params, fullMatch: (Pattern, string) -> bool) {
    forall k :: k in r.requirements && k in r.requiredParts ==>
      RegexCaseEq(fullMatch, r.requirements[k], Get(parts, k))
  }

  /** Reserved option keys naming the dispatch target, never left over. */
  const Reserved: set<Key> := {"controller", "action"}

  /** Lines 71-73: the option pairs not among the consumed pairs, without the reserved keys. */
  function Leftover(options: Params, consumed: seq<(Key, Value)>): Params {
    (map k | k in options && (k, options[k]) !in consumed :: options[k]) - Reserved
  }

  /** The outcome of `generate`: the formatted path and leftover options, or `RoutingError`. */
  datatype Generated = Generated(path: string, leftover: Params) | RoutingError

  /** Lines 46-75 once the route is chosen. Without a hook, `parameterized_parts` and
      `route_values` are the same array, so the `keep_if` at line 66 also removes the falsy
      pairs from `route_values` before line 71 subtracts them from the options; with a hook
      the map at line 61 builds a new array and `route_values` keeps every pair. */
  function GenerateFor(r: Route, options: Params, recall: Params, hook: Hook,
                       fullMatch: (Pattern, string) -> bool): (g: Generated)
    ensures g.Generated? ==> g.leftover.Keys !! Reserved
    ensures g.Generated? ==> forall k :: k in g.leftover ==> k in options && g.leftover[k] == options[k]
  {
    var segmentValues := SegmentValues(options);
    var provided := ProvidedParts(r, segmentValues);
    var routeValues := RouteValues(provided, segmentValues, recall);
    var kept := KeptPairs(provided, options, recall, hook);
    var consumed := if hook.None? then kept else routeValues;
    var parts := HashOf(kept);
    if !RequiredPartsValid(r, parts, fullMatch) then RoutingError
    else Generated(r.format(parts), Leftover(options, consumed))
  }

  /** `generate`. */
  function Generate(t: Router, name: Option<Name>, options: Params, recall: Params, hook: Hook,
                    fullMatch: (Pattern, string) -> bool): (g: Generated)
    requires CanSelect(t, name)
    ensures g.Generated? ==> g.leftover.Keys !! Reserved
    ensures g.Generated? ==> forall k :: k in g.leftover ==> k in options && g.leftover[k] == options[k]
  {
    GenerateFor(SelectRoute(t, name, options, recall), options, recall, hook, fullMatch)
  }

  // ---------------------------------------------------------------------------------------
  // Reference definitions of what `generate` renders, stated without the array pipeline.

  /** Part `k` is rendered: it is required, or it is an optional part at or before the last
      part supplied with a truthy option. */
  ghost predicate ShouldRender(r: Route, options: Params, k: Key) {
    || k in r.requiredParts
    || exists i, j :: 0 <= i <= j < |r.parts| && r.parts[i] == k
                      && r.parts[j] in options && Truthy(options[r.parts[j]])
  }

  /** The value chosen for a part: a truthy option, otherwise the recalled value (or `nil`). */
  function Chosen(options: Params, recall: Params, k: Key): Value {
    if k in options && Truthy(options[k]) then options[k] else Get(recall, k)
  }

  /** The chosen value after the hook. */
  function Final(options: Params, recall: Params, hook: Hook, k: Key): Value {
    match hook
    case None => Chosen(options, recall, k)
    case Some(f) => f(k, Chosen(options, recall, k))
  }

  /** The parameters handed to `format`: every part that should be rendered and whose final
      value is truthy. */
  ghost function Rendered(r: Route, options: Params, recall: Params, hook: Hook): Params {
    map k | k in r.parts + r.requiredParts && ShouldRender(r, options, k)
                                            && Truthy(Final(options, recall, hook, k))
      :: Final(options, recall, hook, k)
  }

  /** The options pair for `k` is consumed: `k` is among the parts to render, its chosen
      (pre-hook) value is exactly the option's value, and, without a hook, that value is
      truthy. With a hook the pair is consumed even when the hook's result is falsy and the
      part is not rendered. */
  ghost predicate Consumed(r: Route, options: Params, recall: Params, hook: Hook, k: Key)
    requires k in options
  {
    && ShouldRender(r, options, k)
    && options[k] == Chosen(options, recall, k)
    && (hook.Some? || Truthy(options[k]))
  }

  // ---------------------------------------------------------------------------------------
  // Lemmas connecting the pipeline with the reference definitions.

  /** Part `x` sits at or before some part that was supplied. */
  ghost predicate AtOrBeforeSupplied(parts: seq<Key>, segmentValues: Params, x: Key) {
    exists i, j :: 0 <= i <= j < |parts| && parts[i] == x && parts[j] in segmentValues
  }

  /** `drop_while` on the reversed parts leaves the parts up to the last supplied one, in
      reverse order: position `k` of the result is part `|d| - 1 - k`. */
  lemma SuppliedPrefixOrder(parts: seq<Key>, segmentValues: Params, k: int)
    requires 0 <= k < |SuppliedPrefix(parts, segmentValues)|
    ensures |SuppliedPrefix(parts, segmentValues)| <= |parts|
    ensures SuppliedPrefix(parts, segmentValues)[k]
            == parts[|SuppliedPrefix(parts, segmentValues)| - 1 - k]
  {
    var rev := Reverse(parts);
    var d := SuppliedPrefix(parts, segmentValues);
    var m := |rev| - |d|;
    assert d == rev[m..];
    assert d[k] == rev[m + k];
    assert rev[m + k] == parts[|parts| - 1 - (m + k)];
    assert |parts| - 1 - (m + k) == |d| - 1 - k;
  }

  /** The last part kept by `drop_while` was supplied. */
  lemma SuppliedPrefixLastSupplied(parts: seq<Key>, segmentValues: Params)
    requires |SuppliedPrefix(parts, segmentValues)| > 0
    ensures parts[|SuppliedPrefix(parts, segmentValues)| - 1] in segmentValues
  {
    var d := SuppliedPrefix(parts, segmentValues);
    SuppliedPrefixOrder(parts, segmentValues, 0);
    assert d[0] in segmentValues;
  }

  /** Every part after those kept by `drop_while` was not supplied. */
  lemma SuppliedPrefixRestUnsupplied(parts: seq<Key>, segmentValues: Params, j: int)
    requires |SuppliedPrefix(parts, segmentValues)| <= j < |parts|
    ensures parts[j] !in segmentValues
  {
    var rev := Reverse(parts);
    var d := SuppliedPrefix(parts, segmentValues);
    var i := |parts| - 1 - j;
    assert i < |rev| - |d|;
    assert rev[i] == parts[j];
  }

  /** The parts that survive `drop_while` on the reversed parts are exactly those at or
      before the last supplied part. */
  lemma SuppliedPrefixMembers(parts: seq<Key>, segmentValues: Params, x: Key)
    ensures x in SuppliedPrefix(parts, segmentValues) <==> AtOrBeforeSupplied(parts, segmentValues, x)
  {
    var d := SuppliedPrefix(parts, segmentValues);
    if x in d {
      var k :| 0 <= k < |d| && d[k] == x;
      SuppliedPrefixSound(parts, segmentValues, k);
    }
    if AtOrBeforeSupplied(parts, segmentValues, x) {
      var i, j :| 0 <= i <= j < |parts| && parts[i] == x && parts[j] in segmentValues;
      SuppliedPrefixComplete(parts, segmentValues, i, j);
    }
  }

  lemma SuppliedPrefixSound(parts: seq<Key>, segmentValues: Params, k: int)
    requires 0 <= k < |SuppliedPrefix(parts, segmentValues)|
    ensures AtOrBeforeSupplied(parts, segmentValues, SuppliedPrefix(parts, segmentValues)[k])
  {
    var n := |SuppliedPrefix(parts, segmentValues)|;
    SuppliedPrefixOrder(parts, segmentValues, k);
    SuppliedPrefixLastSupplied(parts, segmentValues);
    assert 0 <= n - 1 - k <= n - 1 < |parts|;
  }

  lemma SuppliedPrefixComplete(parts: seq<Key>, segmentValues: Params, i: int, j: int)
    requires 0 <= i <= j < |parts| && parts[j] in segmentValues
    ensures parts[i] in SuppliedPrefix(parts, segmentValues)
  {
    var d := SuppliedPrefix(parts, segmentValues);
    if j < |d| {
      SuppliedPrefixOrder(parts, segmentValues, |d| - 1 - i);
      assert d[|d| - 1 - i] == parts[i];
    } else {
      SuppliedPrefixRestUnsupplied(parts, segmentValues, j);
    }
  }

  /** Lines 49-51 compute the parts that should be rendered, each once. */
  lemma ProvidedPartsSpec(r: Route, options: Params)
    ensures var provided := ProvidedParts(r, SegmentValues(options));
            && NoDuplicates(provided)
            && forall k :: k in provided <==> ShouldRender(r, options, k)
  {
    forall k ensures k in ProvidedParts(r, SegmentValues(options)) <==> ShouldRender(r, options, k) {
      ProvidedPartsMember(r, options, k);
    }
  }

  lemma ProvidedPartsMember(r: Route, options: Params, k: Key)
    ensures k in ProvidedParts(r, SegmentValues(options)) <==> ShouldRender(r, options, k)
  {
    SuppliedPrefixMembers(r.parts, SegmentValues(options), k);
  }

  /** A part that should be rendered is one of the route's parts. */
  lemma ShouldRenderIsPart(r: Route, options: Params, k: Key)
    requires ShouldRender(r, options, k)
    ensures k in r.parts + r.requiredParts
  {
    if k !in r.requiredParts {
      var i, j :| 0 <= i <= j < |r.parts| && r.parts[i] == k
                  && r.parts[j] in options && Truthy(options[r.parts[j]]);
      assert (r.parts + r.requiredParts)[i] == k;
    }
  }

  /** The pairs of lines 54-64 each carry the final value of their part. */
  lemma ParameterizedPairs(provided: seq<Key>, options: Params, recall: Params, hook: Hook)
    ensures var pairs := Parameterize(RouteValues(provided, SegmentValues(options), recall), hook);
            && |pairs| == |provided|
            && forall i :: 0 <= i < |pairs| ==> pairs[i] == (provided[i], Final(options, recall, hook, provided[i]))
  {
  }

  /** Lines 54-66 before `Hash[]`: the truthy hooked pairs of the provided parts. */
  function KeptPairs(provided: seq<Key>, options: Params, recall: Params, hook: Hook): seq<(Key, Value)> {
    Filter(Parameterize(RouteValues(provided, SegmentValues(options), recall), hook), TruthyPair)
  }

  /** The kept pairs are exactly the provided parts with their final value, when truthy. */
  lemma KeptPairsMembers(provided: seq<Key>, options: Params, recall: Params, hook: Hook, p: (Key, Value))
    ensures p in KeptPairs(provided, options, recall, hook) <==>
              p.0 in provided && p.1 == Final(options, recall, hook, p.0) && Truthy(p.1)
  {
    var pairs := Parameterize(RouteValues(provided, SegmentValues(options), recall), hook);
    ParameterizedPairs(provided, options, recall, hook);
    if p in pairs {
      var j :| 0 <= j < |pairs| && pairs[j] == p;
    }
    if p.0 in provided && p.1 == Final(options, recall, hook, p.0) {
      var j :| 0 <= j < |provided| && provided[j] == p.0;
      assert pairs[j] == p;
    }
  }

  /** `Hash[]` of the kept pairs has a key for each provided part with a truthy final value. */
  lemma KeptPairsHashKey(provided: seq<Key>, options: Params, recall: Params, hook: Hook, k: Key)
    ensures k in HashOf(KeptPairs(provided, options, recall, hook)) <==>
              k in provided && Truthy(Final(options, recall, hook, k))
  {
    var kept := KeptPairs(provided, options, recall, hook);
    if k in HashOf(kept) {
      var i :| 0 <= i < |kept| && kept[i].0 == k;
      KeptPairsMembers(provided, options, recall, hook, kept[i]);
    }
    if k in provided && Truthy(Final(options, recall, hook, k)) {
      var p := (k, Final(options, recall, hook, k));
      KeptPairsMembers(provided, options, recall, hook, p);
      var i :| 0 <= i < |kept| && kept[i] == p;
    }
  }

  /** `Hash[]` of the kept pairs maps each key to its final value. */
  lemma KeptPairsHashValue(provided: seq<Key>, options: Params, recall: Params, hook: Hook)
    ensures var h := HashOf(KeptPairs(provided, options, recall, hook));
            forall k :: k in h ==> h[k] == Final(options, recall, hook, k)
  {
    var kept := KeptPairs(provided, options, recall, hook);
    var fin := k => Final(options, recall, hook, k);
    forall i | 0 <= i < |kept| ensures kept[i].1 == fin(kept[i].0) {
      KeptPairsMembers(provided, options, recall, hook, kept[i]);
    }
    HashOfFunctional(kept, fin);
  }

  /** `Hash[]` of the kept pairs maps each provided part with a truthy final value to it. */
  lemma KeptPairsHash(provided: seq<Key>, options: Params, recall: Params, hook: Hook)
    ensures HashOf(KeptPairs(provided, options, recall, hook))
            == map k | k in provided && Truthy(Final(options, recall, hook, k)) :: Final(options, recall, hook, k)
  {
    KeptPairsHashValue(provided, options, recall, hook);
    forall k ensures k in HashOf(KeptPairs(provided, options, recall, hook)) <==>
                     k in provided && Truthy(Final(options, recall, hook, k)) {
      KeptPairsHashKey(provided, options, recall, hook, k);
    }
  }

  /** A part is rendered from the provided parts exactly when the reference rendering has it. */
  lemma RenderedKey(r: Route, options: Params, recall: Params, hook: Hook, k: Key)
    ensures (k in ProvidedParts(r, SegmentValues(options)) && Truthy(Final(options, recall, hook, k)))
            <==> k in Rendered(r, options, recall, hook)
  {
    ProvidedPartsMember(r, options, k);
    if ShouldRender(r, options, k) {
      ShouldRenderIsPart(r, options, k);
    }
  }

  /** The hash handed to `format` at line 75 is the reference rendering. */
  lemma RenderedParts(r: Route, options: Params, recall: Params, hook: Hook)
    ensures HashOf(KeptPairs(ProvidedParts(r, SegmentValues(options)), options, recall, hook))
            == Rendered(r, options, recall, hook)
  {
    var provided := ProvidedParts(r, SegmentValues(options));
    KeptPairsHash(provided, options, recall, hook);
    forall k ensures (k in provided && Truthy(Final(options, recall, hook, k)))
                     <==> k in Rendered(r, options, recall, hook) {
      RenderedKey(r, options, recall, hook, k);
    }
  }

  /** The pairs of lines 54-56 are the provided parts with their chosen values. */
  lemma RouteValuesMembers(provided: seq<Key>, options: Params, recall: Params, k: Key, v: Value)
    ensures (k, v) in RouteValues(provided, SegmentValues(options), recall) <==>
              k in provided && v == Chosen(options, recall, k)
  {
    var rv := RouteValues(provided, SegmentValues(options), recall);
    if k in provided {
      var j :| 0 <= j < |provided| && provided[j] == k;
      assert rv[j] == (k, Chosen(options, recall, k));
    }
  }

  /** An options pair is subtracted at line 71 exactly when it is consumed. */
  lemma ConsumedPairs(r: Route, options: Params, recall: Params, hook: Hook, k: Key)
    requires k in options
    ensures var segmentValues := SegmentValues(options);
            var routeValues := RouteValues(ProvidedParts(r, segmentValues), segmentValues, recall);
            var consumed := if hook.None? then Filter(Parameterize(routeValues, hook), TruthyPair) else routeValues;
            (k, options[k]) in consumed <==> Consumed(r, options, recall, hook, k)
  {
    ProvidedPartsSpec(r, options);
    RouteValuesMembers(ProvidedParts(r, SegmentValues(options)), options, recall, k, options[k]);
  }

  /** What `generate` does once the route is chosen: `RoutingError` exactly when a required
      part with a requirement is missing from the rendering or does not fully match its
      pattern; otherwise the route formats the reference rendering, and the leftover options
      are the options that were not consumed, minus `:controller` and `:action`. */
  lemma GenerateForSpec(r: Route, options: Params, recall: Params, hook: Hook,
                        fullMatch: (Pattern, string) -> bool)
    ensures var g := GenerateFor(r, options, recall, hook, fullMatch);
            var rendered := Rendered(r, options, recall, hook);
            && (g.RoutingError? <==>
                  exists k :: k in r.requiredParts && k in r.requirements
                              && !(k in rendered && RegexCaseEq(fullMatch, r.requirements[k], rendered[k])))
            && (g.Generated? ==> g.path == r.format(rendered))
            && (g.Generated? ==> forall k :: k in g.leftover <==>
                                   k in options && k !in Reserved && !Consumed(r, options, recall, hook, k))
  {
    RenderedParts(r, options, recall, hook);
    var g := GenerateFor(r, options, recall, hook, fullMatch);
    if g.Generated? {
      forall k | k in options ensures k in g.leftover <==> k !in Reserved && !Consumed(r, options, recall, hook, k) {
        ConsumedPairs(r, options, recall, hook, k);
      }
    }
  }

  /** `generate` on the table: the route of line 44, then `GenerateForSpec`. */
  lemma GenerateSpec(t: Router, name: Option<Name>, options: Params, recall: Params, hook: Hook,
                     fullMatch: (Pattern, string) -> bool)
    requires CanSelect(t, name)
    ensures var r := SelectRoute(t, name, options, recall);
            var g := Generate(t, name, options, recall, hook, fullMatch);
            var rendered := Rendered(r, options, recall, hook);
            && (g.RoutingError? <==>
                  exists k :: k in r.requiredParts && k in r.requirements
                              && !(k in rendered && RegexCaseEq(fullMatch, r.requirements[k], rendered[k])))
            && (g.Generated? ==> g.path == r.format(rendered))
            && (g.Generated? ==> forall k :: k in g.leftover <==>
                                   k in options && k !in Reserved && !Consumed(r, options, recall, hook, k))
  {
    GenerateForSpec(SelectRoute(t, name, options, recall), options, recall, hook, fullMatch);
  }

  /** A required, constrained part with no truthy value in the options or the recall (and
      no hook to supply one) makes `generate` raise `RoutingError`. */
  lemma MissingRequiredPartFails(r: Route, options: Params, recall: Params,
                                 fullMatch: (Pattern, string) -> bool, k: Key)
    requires k in r.requiredParts && k in r.requirements
    requires !(k in options && Truthy(options[k])) && !(k in recall && Truthy(recall[k]))
    ensures GenerateFor(r, options, recall, None, fullMatch) == RoutingError
  {
    GenerateForSpec(r, options, recall, None, fullMatch);
  }

  /** A required part whose value does not fully match its requirement makes `generate`
      raise `RoutingError`. */
  lemma UnmatchedRequirementFails(r: Route, options: Params, recall: Params, hook: Hook,
                                  fullMatch: (Pattern, string) -> bool, k: Key, s: string)
    requires k in r.requiredParts && k in r.requirements
    requires Final(options, recall, hook, k) == Str(s) && !fullMatch(r.requirements[k], s)
    ensures GenerateFor(r, options, recall, hook, fullMatch) == RoutingError
  {
    GenerateForSpec(r, options, recall, hook, fullMatch);
  }

  /** An option supplied with a truthy value for a part that is rendered is never left over,
      and an option naming no part of the route is always left over unless it is reserved. */
  lemma LeftoverOptions(r: Route, options: Params, recall: Params, hook: Hook,
                        fullMatch: (Pattern, string) -> bool, k: Key)
    requires GenerateFor(r, options, recall, hook, fullMatch).Generated?
    requires k in options
    ensures Truthy(options[k]) && ShouldRender(r, options, k) ==>
              k !in GenerateFor(r, options, recall, hook, fullMatch).leftover
    ensures k !in r.parts && k !in r.requiredParts && k !in Reserved ==>
              k in GenerateFor(r, options, recall, hook, fullMatch).leftover
  {
    GenerateForSpec(r, options, recall, hook, fullMatch);
  }
}
