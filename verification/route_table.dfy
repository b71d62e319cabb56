/** The route table of `Journey::Router`: the `Route` record with its collaborators left
    abstract, the Rack request environment, and `add_route` (lib/journey/router.rb:25-41). */
module RouteTable {
  import opened RubyCore

  type Name = string

  /** Source text of a requirement pattern; its full-string semantics is the regex engine's. */
  type Pattern = string

  /** Parameter maps: captures, defaults, options, recall. */
  type Params = map<Key, Value>

  /** What `Path::Pattern#match` answers on success: group names, the captures (a group that
      did not participate is `None`), the matched prefix and the unmatched remainder. */
  datatype MatchData = MatchData(names: seq<Key>, captures: seq<Option<string>>,
                                 matched: string, postMatch: string)

  /** The Rack environment as far as the router reads or writes it: the request method, the
      path, the mount prefix, the client address, the request attributes that named
      constraints consult (`req.send(k)`), and the slots the router stores parameters in. */
  datatype Env = Env(requestMethod: string, pathInfo: string, scriptName: string,
                     remoteAddr: Option<string>, attr: Key -> Value,
                     slots: map<string, Params>)

  /** A Rack response triple. */
  datatype Response = Response(status: int, headers: map<string, string>, body: seq<string>)

  /** A route. Every field is a collaborator the router only calls:
      - `app`: the downstream Rack application (`route.app.call(env)`);
      - `verb`: `r.verb === method`;
      - `constraints`: name to matcher, each applied as `v === req.send(k)`;
      - `path`: `r.path.match(path_info)`, `None` for Ruby's `nil`;
      - `extras`: the defaults merged under the captures;
      - `parts`, `requiredParts`: the template's parameter names, in template order;
      - `requirements`: `r.path.requirements`, name to pattern;
      - `score`, `format`: `Route#score` and `Route#format`. */
  datatype Route = Route(app: Env -> Response,
                         verb: string -> bool,
                         constraints: map<Key, Value -> bool>,
                         path: string -> Option<MatchData>,
                         extras: Params,
                         parts: seq<Key>,
                         requiredParts: seq<Key>,
                         requirements: map<Key, Pattern>,
                         score: Params -> int,
                         format: Params -> string)

  /** The router's state: routes in registration order, the name index, and the env slot
      that recognised parameters are stored under. */
  datatype Router = Router(routes: seq<Route>, namedRoutes: map<Name, Route>, paramsKey: string)

  /** Every named route is one of the registered routes. */
  ghost predicate NamesRegistered(t: Router) {
    forall n :: n in t.namedRoutes ==> exists i :: 0 <= i < |t.routes| && t.routes[i] == t.namedRoutes[n]
  }

  /** `Router.new`: an empty table that stores recognised parameters under `paramsKey`
      (`options[:parameters_key]`). */
  function NewRouter(paramsKey: string): (t: Router)
    ensures |t.routes| == 0 && |t.namedRoutes| == 0
    ensures t.paramsKey == paramsKey
    ensures NamesRegistered(t)
  {
    Router([], map[], paramsKey)
  }

  /** `add_route`, given the route `Route.new` built from the app, conditions and defaults. */
  function AddRoute(t: Router, route: Route, name: Option<Name>): (res: (Router, Route))
    ensures res.1 == route
    ensures |res.0.routes| == |t.routes| + 1 && res.0.routes[|t.routes|] == route
    ensures forall i :: 0 <= i < |t.routes| ==> res.0.routes[i] == t.routes[i]
    ensures name.Some? ==> res.0.namedRoutes.Keys == t.namedRoutes.Keys + {name.value}
                           && res.0.namedRoutes[name.value] == route
    ensures name.Some? ==> forall n :: n in t.namedRoutes && n != name.value ==>
                             res.0.namedRoutes[n] == t.namedRoutes[n]
    ensures name.None? ==> res.0.namedRoutes == t.namedRoutes
    ensures res.0.paramsKey == t.paramsKey
  {
    var named := if name.Some? then t.namedRoutes[name.value := route] else t.namedRoutes;
    (t.(routes := t.routes + [route], namedRoutes := named), route)
  }

  /** Registration keeps every named route pointing at a registered route. */
  lemma AddRouteKeepsNamesRegistered(t: Router, route: Route, name: Option<Name>)
    requires NamesRegistered(t)
    ensures NamesRegistered(AddRoute(t, route, name).0)
  {
    var t' := AddRoute(t, route, name).0;
    forall n | n in t'.namedRoutes
      ensures exists i :: 0 <= i < |t'.routes| && t'.routes[i] == t'.namedRoutes[n]
    {
      if name.Some? && n == name.value {
        assert t'.routes[|t.routes|] == t'.namedRoutes[n];
      } else {
        var i :| 0 <= i < |t.routes| && t.routes[i] == t.namedRoutes[n];
        assert t'.routes[i] == t'.namedRoutes[n];
      }
    }
  }
}
