/** Recognition: `route_for`, `call` and `recognize` (lib/journey/router.rb:78-124).

    The address guard at line 105, `next if addr && !r.ip === addr`, parses as
    `(!r.ip) === addr`, a boolean compared with a string by `===`, which is never true:
    no route is ever skipped because of the client address, so eligibility below does not
    consult `remoteAddr`. */
module Recognition {
  import opened RubyCore
  import opened RouteTable

  /** Every named constraint accepts the request attribute of the same name. */
  predicate ConstraintsHold(r: Route, env: Env) {
    forall k :: k in r.constraints ==> r.constraints[k](env.attr(k))
  }

  /** The conditions checked before the path: verb and named constraints. */
  predicate Eligible(r: Route, env: Env) {
    r.verb(env.requestMethod) && ConstraintsHold(r, env)
  }

  /** The `find` block of `route_for` is truthy: eligible and the path matches. */
  predicate Accepts(r: Route, env: Env) {
    Eligible(r, env) && r.path(env.pathInfo).Some?
  }

  /** `routes.find` from position `i` on: the first accepting route at or after `i`. */
  function FindFrom(routes: seq<Route>, env: Env, i: nat): (r: Option<nat>)
    requires i <= |routes|
    ensures r.Some? ==> i <= r.value < |routes| && Accepts(routes[r.value], env)
    ensures r.Some? ==> forall j :: i <= j < r.value ==> !Accepts(routes[j], env)
    ensures r.None? <==> forall j :: i <= j < |routes| ==> !Accepts(routes[j], env)
    decreases |routes| - i
  {
    if i == |routes| then None
    else if Accepts(routes[i], env) then Some(i)
    else FindFrom(routes, env, i + 1)
  }

  /** Capture `i` as `names.zip(captures)` pairs it: `nil` past the end of `captures`. */
  function CaptureAt(md: MatchData, i: nat): Option<string> {
    if i < |md.captures| then md.captures[i] else None
  }

  /** `names.zip(captures)`. */
  function Zip(md: MatchData): seq<(Key, Option<string>)> {
    seq(|md.names|, i requires 0 <= i < |md.names| => (md.names[i], CaptureAt(md, i)))
  }

  /** `find_all { |_, y| y }`: the pairs whose capture is not `nil`, in order, each capture
      read as the Ruby string it is. */
  function KeptCaptures(z: seq<(Key, Option<string>)>): seq<(Key, Value)> {
    if |z| == 0 then []
    else
      var last := z[|z| - 1];
      KeptCaptures(z[..|z| - 1]) + (if last.1.Some? then [(last.0, Str(last.1.value))] else [])
  }

  /** The `info` hash of line 122. */
  function CaptureInfo(md: MatchData): Params {
    HashOf(KeptCaptures(Zip(md)))
  }

  /** Capture `i` is the last non-`nil` capture named `k`. */
  ghost predicate LastCapture(z: seq<(Key, Option<string>)>, i: int, k: Key) {
    && 0 <= i < |z| && z[i].0 == k && z[i].1.Some?
    && forall j :: i < j < |z| && z[j].0 == k ==> z[j].1.None?
  }

  /** Appending one pair to the zipped captures updates the capture hash by at most that pair. */
  lemma KeptCapturesSnoc(z: seq<(Key, Option<string>)>)
    requires |z| > 0
    ensures z[|z| - 1].1.None? ==> HashOf(KeptCaptures(z)) == HashOf(KeptCaptures(z[..|z| - 1]))
    ensures z[|z| - 1].1.Some? ==>
              HashOf(KeptCaptures(z))
              == HashOf(KeptCaptures(z[..|z| - 1]))[z[|z| - 1].0 := Str(z[|z| - 1].1.value)]
  {
    var init := z[..|z| - 1];
    var last := z[|z| - 1];
    if last.1.Some? {
      var p := (last.0, Str(last.1.value));
      assert KeptCaptures(z) == KeptCaptures(init) + [p];
      HashOfSnoc(KeptCaptures(init), p);
    } else {
      assert KeptCaptures(z) == KeptCaptures(init);
    }
  }

  /** Some capture named `k` is not `nil`. */
  ghost predicate HasCapture(z: seq<(Key, Option<string>)>, k: Key) {
    exists i :: 0 <= i < |z| && z[i].0 == k && z[i].1.Some?
  }

  lemma HasCaptureSnoc(z: seq<(Key, Option<string>)>, k: Key)
    requires |z| > 0
    ensures HasCapture(z, k) <==> HasCapture(z[..|z| - 1], k) || (z[|z| - 1].0 == k && z[|z| - 1].1.Some?)
  {
    var init := z[..|z| - 1];
    if HasCapture(z, k) {
      var i :| 0 <= i < |z| && z[i].0 == k && z[i].1.Some?;
      if i < |init| {
        assert init[i] == z[i];
      }
    }
    if HasCapture(init, k) {
      var i :| 0 <= i < |init| && init[i].0 == k && init[i].1.Some?;
      assert z[i] == init[i];
    }
  }

  /** A key is in the capture hash exactly when some non-`nil` capture carries that name. */
  lemma {:induction false} KeptCapturesKeys(z: seq<(Key, Option<string>)>)
    ensures forall k :: k in HashOf(KeptCaptures(z)) <==> HasCapture(z, k)
  {
    if |z| > 0 {
      KeptCapturesKeys(z[..|z| - 1]);
      KeptCapturesSnoc(z);
      forall k
        ensures k in HashOf(KeptCaptures(z)) <==> HasCapture(z, k)
      {
        HasCaptureSnoc(z, k);
      }
    }
  }

  /** The value the capture hash keeps for a name is its last non-`nil` capture. */
  lemma {:induction false} KeptCapturesLastWins(z: seq<(Key, Option<string>)>, i: int, k: Key)
    requires LastCapture(z, i, k)
    ensures k in HashOf(KeptCaptures(z)) && HashOf(KeptCaptures(z))[k] == Str(z[i].1.value)
  {
    var init := z[..|z| - 1];
    KeptCapturesSnoc(z);
    if i < |init| {
      assert LastCapture(init, i, k);
      KeptCapturesLastWins(init, i, k);
    }
  }

  /** The parameter map of line 123: the route's extras overridden by the captures. */
  function RouteParams(r: Route, md: MatchData): Params {
    r.extras + CaptureInfo(md)
  }

  /** Lines 116-119: a partial (mount) match moves the matched prefix into `SCRIPT_NAME` and
      leaves the remainder in `PATH_INFO`; a full match leaves the environment alone. */
  function Rewrite(env: Env, md: MatchData): Env {
    if md.postMatch == "" then env
    else env.(scriptName := md.matched, pathInfo := md.postMatch)
  }

  /** The result of `route_for`: the route's position, its parameters, and the
      environment as the route sees it after the mount rewrite. */
  datatype Found = Found(index: nat, params: Params, env: Env)

  /** `route_for`. */
  function RouteFor(t: Router, env: Env): (f: Option<Found>)
    ensures f.None? <==> forall j :: 0 <= j < |t.routes| ==> !Accepts(t.routes[j], env)
    ensures f.Some? ==> f.value.index < |t.routes| && Accepts(t.routes[f.value.index], env)
    ensures f.Some? ==> forall j :: 0 <= j < f.value.index ==> !Accepts(t.routes[j], env)
    ensures f.Some? ==> f.value.params == RouteParams(t.routes[f.value.index],
                                                      t.routes[f.value.index].path(env.pathInfo).value)
    ensures f.Some? ==>
              var md := t.routes[f.value.index].path(env.pathInfo).value;
              && (md.postMatch == "" ==> f.value.env == env)
              && (md.postMatch != "" ==> f.value.env.pathInfo == md.postMatch
                                         && f.value.env.scriptName == md.matched
                                         && f.value.env.(scriptName := env.scriptName,
                                                         pathInfo := env.pathInfo) == env)
  {
    match FindFrom(t.routes, env, 0)
    case None => None
    case Some(i) =>
      var md := t.routes[i].path(env.pathInfo).value;
      Some(Found(i, RouteParams(t.routes[i], md), Rewrite(env, md)))
  }

  /** A name has a recognised parameter exactly when it is an extra or has a non-`nil` capture. */
  lemma RouteParamsKeys(r: Route, md: MatchData)
    ensures forall k :: k in RouteParams(r, md) <==> k in r.extras || HasCapture(Zip(md), k)
  {
    KeptCapturesKeys(Zip(md));
  }

  /** A non-`nil` capture overrides the extra of the same name; where several groups share a
      name, the last non-`nil` one wins. */
  lemma RouteParamsCaptureWins(r: Route, md: MatchData, i: int, k: Key)
    requires LastCapture(Zip(md), i, k)
    ensures k in RouteParams(r, md) && RouteParams(r, md)[k] == Str(CaptureAt(md, i).value)
  {
    KeptCapturesLastWins(Zip(md), i, k);
  }

  /** An extra keeps its value when no capture of that name is non-`nil`. */
  lemma RouteParamsExtraKept(r: Route, md: MatchData, k: Key)
    requires k in r.extras && !HasCapture(Zip(md), k)
    ensures k in RouteParams(r, md) && RouteParams(r, md)[k] == r.extras[k]
  {
    KeptCapturesKeys(Zip(md));
  }

  /** First eligible match wins: whenever some route accepts the request, recognition
      succeeds with a route registered no later than it. */
  lemma FirstAcceptingWins(t: Router, env: Env, j: nat)
    requires j < |t.routes| && Accepts(t.routes[j], env)
    ensures RouteFor(t, env).Some? && RouteFor(t, env).value.index <= j
  {
  }

  /** Registering a route never changes how an already recognised request is recognised. */
  lemma AddRouteKeepsRecognition(t: Router, route: Route, name: Option<Name>, env: Env)
    requires RouteFor(t, env).Some?
    ensures RouteFor(AddRoute(t, route, name).0, env) == RouteFor(t, env)
  {
    var t' := AddRoute(t, route, name).0;
    var f := RouteFor(t, env).value;
    assert t'.routes[f.index] == t.routes[f.index];
    assert Accepts(t'.routes[f.index], env);
    var g := RouteFor(t', env).value;
    assert g.index <= f.index;
    assert t'.routes[g.index] == t.routes[g.index];
    assert g.index == f.index;
  }

  /** A request nothing recognised is recognised after registration exactly when the new
      route accepts it, and then by that route. */
  lemma AddRouteRecognisesNew(t: Router, route: Route, name: Option<Name>, env: Env)
    requires RouteFor(t, env).None?
    ensures var f := RouteFor(AddRoute(t, route, name).0, env);
            && (f.Some? <==> Accepts(route, env))
            && (f.Some? ==> f.value.index == |t.routes|)
  {
    var t' := AddRoute(t, route, name).0;
    assert t'.routes[|t.routes|] == route;
    assert forall j :: 0 <= j < |t.routes| ==> t'.routes[j] == t.routes[j];
  }

  /** The response `call` gives when no route accepts the request. */
  const NotFound: Response := Response(404, map["X-Cascade" := "pass"], ["Not Found"])

  /** Route `i` is the first route that accepts the request. */
  predicate FirstAccepting(t: Router, env: Env, i: int) {
    && 0 <= i < |t.routes| && Accepts(t.routes[i], env)
    && forall j :: 0 <= j < i ==> !Accepts(t.routes[j], env)
  }

  /** Recognition picks the unique first accepting route. */
  lemma RouteForIsFirstAccepting(t: Router, env: Env, i: int)
    requires FirstAccepting(t, env, i)
    ensures RouteFor(t, env).Some? && RouteFor(t, env).value.index == i
  {
  }

  /** The environment handed to the matched app: rewritten, with the parameters stored. */
  function DispatchEnv(t: Router, env: Env, i: int): Env
    requires 0 <= i < |t.routes| && t.routes[i].path(env.pathInfo).Some?
  {
    var md := t.routes[i].path(env.pathInfo).value;
    var env' := Rewrite(env, md);
    env'.(slots := env'.slots[t.paramsKey := RouteParams(t.routes[i], md)])
  }

  /** `call`: a 404 carrying `X-Cascade: pass` when nothing accepts the request; otherwise
      the matched route's app, called once on the rewritten environment with the parameters
      stored under the router's key, and its response returned unchanged. */
  function Call(t: Router, env: Env): (resp: Response)
    ensures (forall j :: 0 <= j < |t.routes| ==> !Accepts(t.routes[j], env)) ==> resp == NotFound
    ensures forall i :: FirstAccepting(t, env, i) ==> resp == t.routes[i].app(DispatchEnv(t, env, i))
  {
    match RouteFor(t, env)
    case None => NotFound
    case Some(f) =>
      assert forall i :: FirstAccepting(t, env, i) ==> i == f.index by {
        forall i | FirstAccepting(t, env, i) ensures i == f.index {
          RouteForIsFirstAccepting(t, env, i);
        }
      }
      t.routes[f.index].app(f.env.(slots := f.env.slots[t.paramsKey := f.params]))
  }

  /** `recognize`: the block receives the matched route and its parameters, or is not
      called. Like `call`, it runs `route_for` on the request's own environment, so a partial
      match also rewrites that environment; the third component is the environment after it. */
  function Recognize(t: Router, env: Env): (res: Option<(Route, Params, Env)>)
    ensures res.None? <==> forall j :: 0 <= j < |t.routes| ==> !Accepts(t.routes[j], env)
    ensures res.Some? ==> exists i :: FirstAccepting(t, env, i)
                                      && res.value.0 == t.routes[i]
                                      && res.value.1 == RouteParams(t.routes[i], t.routes[i].path(env.pathInfo).value)
                                      && res.value.2 == Rewrite(env, t.routes[i].path(env.pathInfo).value)
    ensures res.Some? ==>
              var md := t.routes[RouteFor(t, env).value.index].path(env.pathInfo).value;
              && (md.postMatch == "" ==> res.value.2 == env)
              && (md.postMatch != "" ==> res.value.2.pathInfo == md.postMatch
                                         && res.value.2.scriptName == md.matched)
  {
    match RouteFor(t, env)
    case None => None
    case Some(f) => Some((t.routes[f.index], f.params, f.env))
  }
}
