/** The route table, the dispatcher and the lifecycle of router.js. The module-level
    state of router.js (`root`, `routes`, `endsWithSlash`, `isInitialized`) becomes
    the fields of one `Router` object; the browser's `location.pathname`, the paths
    pushed with `history.pushState` and the `popstate` subscription are fields too. */
module Routing {
  import opened Wrappers
  import opened Paths

  /** What `pathname.match(pattern)` returns: `None` for `null`, otherwise the match
      array, group 0 first; a group that did not take part is `None` (`undefined`). */
  type MatchArray = seq<Option<string>>

  /** A route pattern: its `toString()` form, which `remove` compares, and the matcher
      `String.prototype.match` runs with it. */
  datatype Pattern = Pattern(key: string, matcher: string -> Option<MatchArray>)

  /** A registered callback, known only by identity. */
  type CallbackId = nat

  datatype Route = Route(pattern: Pattern, callback: CallbackId)

  /** One callback invocation `routes[index].callback(path, captures, pattern)`. */
  datatype Call = Call(index: nat, callback: CallbackId, path: string, captures: MatchArray, pattern: Pattern)

  /** The options `init` honours: a string `root` and a boolean `endsWithSlash`; `None`
      stands for a missing option or one of another type. */
  datatype InitOptions = InitOptions(root: Option<string>, endsWithSlash: Option<bool>)

  predicate Matches(route: Route, path: string)
  {
    route.pattern.matcher(path).Some?
  }

  /** `match.shift()`: the match array without group 0. */
  function Captures(groups: MatchArray): MatchArray
  {
    if groups == [] then [] else groups[1..]
  }

  /** `call` is what route `call.index` of `routes` is invoked with on `path`. */
  ghost predicate IsCallOf(routes: seq<Route>, path: string, call: Call)
  {
    && call.index < |routes|
    && var route := routes[call.index];
    && Matches(route, path)
    && call == Call(call.index, route.callback, path, Captures(route.pattern.matcher(path).value), route.pattern)
  }

  /** The callback invocation a scan of `routes` from index `start` on makes for `path`. */
  function DispatchFrom(routes: seq<Route>, path: string, start: nat): (r: Option<Call>)
    requires start <= |routes|
    ensures r.None? ==> forall j | start <= j < |routes| :: !Matches(routes[j], path)
    ensures r.Some? ==> start <= r.value.index && IsCallOf(routes, path, r.value)
    ensures r.Some? ==> forall j | start <= j < r.value.index :: !Matches(routes[j], path)
    decreases |routes| - start
  {
    if start == |routes| then None
    else match routes[start].pattern.matcher(path)
      case Some(groups) => Some(Call(start, routes[start].callback, path, Captures(groups), routes[start].pattern))
      case None => DispatchFrom(routes, path, start + 1)
  }

  /** What `check(path)` does: the callback of the lowest-index route whose pattern
      matches `path` is invoked with the path, the groups after group 0, and the pattern;
      when no pattern matches, nothing is invoked. */
  function Dispatch(routes: seq<Route>, path: string): (r: Option<Call>)
    ensures r.None? <==> forall j | 0 <= j < |routes| :: !Matches(routes[j], path)
    ensures r.Some? ==> IsCallOf(routes, path, r.value)
    ensures r.Some? ==> forall j | 0 <= j < r.value.index :: !Matches(routes[j], path)
  {
    DispatchFrom(routes, path, 0)
  }

  /** The route table after `remove(pattern)` with `pattern.toString() == key`. */
  function RemoveFirst(routes: seq<Route>, key: string): seq<Route>
  {
    if routes == [] then []
    else if routes[0].pattern.key == key then routes[1..]
    else [routes[0]] + RemoveFirst(routes[1..], key)
  }

  /** `remove` deletes the lowest-index route whose pattern has the key, and keeps the
      others in their order. */
  lemma {:induction false} RemoveFirstDeletesLowest(routes: seq<Route>, key: string, i: nat)
    requires i < |routes| && routes[i].pattern.key == key
    requires forall j | 0 <= j < i :: routes[j].pattern.key != key
    ensures RemoveFirst(routes, key) == routes[..i] + routes[i + 1..]
  {
    if i > 0 {
      RemoveFirstDeletesLowest(routes[1..], key, i - 1);
      assert routes[1..][..i - 1] == routes[1..i];
      assert routes[1..][i..] == routes[i + 1..];
      assert [routes[0]] + routes[1..i] == routes[..i];
    }
  }

  /** `remove` changes nothing when no route's pattern has the key. */
  lemma {:induction false} RemoveFirstAbsent(routes: seq<Route>, key: string)
    requires forall j | 0 <= j < |routes| :: routes[j].pattern.key != key
    ensures RemoveFirst(routes, key) == routes
  {
    if routes != [] {
      RemoveFirstAbsent(routes[1..], key);
      assert [routes[0]] + routes[1..] == routes;
    }
  }

  class Router {
    var root: string
    var routes: seq<Route>
    var endsWithSlash: bool
    var isInitialized: bool
    /** How many `popstate` listeners the router has registered. */
    ghost var subscriptions: nat
    /** The browser's `location.pathname`. */
    var location: string
    /** The paths pushed with `history.pushState`, oldest first. */
    var history: seq<string>
    /** The host's `decodeURI`. */
    const decodeUri: string -> string

    /** Between calls: one listener exactly while initialized, and the default
        configuration while not. */
    ghost predicate Valid()
      reads this
    {
      && subscriptions == (if isInitialized then 1 else 0)
      && (!isInitialized ==> root == "/" && endsWithSlash)
    }

    /** The state the module starts in. */
    constructor (location: string, decodeUri: string -> string)
      ensures Valid()
      ensures root == "/" && routes == [] && endsWithSlash && !isInitialized && subscriptions == 0
      ensures this.location == location && history == [] && this.decodeUri == decodeUri
    {
      root := "/";
      routes := [];
      endsWithSlash := true;
      isInitialized := false;
      subscriptions := 0;
      this.location := location;
      history := [];
      this.decodeUri := decodeUri;
    }

    /** `init(options)`: when not yet initialized, applies the options over the defaults,
        subscribes `check` to `popstate` and becomes initialized; otherwise does nothing. */
    method Init(options: InitOptions)
      requires Valid()
      modifies this`root, this`endsWithSlash, this`isInitialized, this`subscriptions
      ensures Valid() && isInitialized && subscriptions == 1
      ensures old(isInitialized) ==>
        root == old(root) && endsWithSlash == old(endsWithSlash) && subscriptions == old(subscriptions)
      ensures !old(isInitialized) ==>
        && root == (if options.root.Some? then options.root.value else "/")
        && endsWithSlash == (if options.endsWithSlash.Some? then options.endsWithSlash.value else true)
        && subscriptions == old(subscriptions) + 1
    {
      if isInitialized {
        return;
      }
      if options.root.Some? {
        root := options.root.value;
      }
      if options.endsWithSlash.Some? {
        endsWithSlash := options.endsWithSlash.value;
      }
      subscriptions := subscriptions + 1;
      isInitialized := true;
    }

    /** `add(pattern, callback)`: appends one route at the end. */
    method Add(pattern: Pattern, callback: CallbackId)
      requires Valid()
      modifies this`routes
      ensures Valid()
      ensures routes == old(routes) + [Route(pattern, callback)]
    {
      routes := routes + [Route(pattern, callback)];
    }

    /** `remove(pattern)`: scans the table in order and splices out the first route whose
        pattern has the same `toString()` form. */
    method Remove(pattern: Pattern)
      requires Valid()
      modifies this`routes
      ensures Valid()
      ensures routes == RemoveFirst(old(routes), pattern.key)
    {
      var i := 0;
      while i < |routes|
        invariant 0 <= i <= |routes|
        invariant routes == old(routes)
        invariant forall j | 0 <= j < i :: routes[j].pattern.key != pattern.key
      {
        if routes[i].pattern.key == pattern.key {
          RemoveFirstDeletesLowest(routes, pattern.key, i);
          routes := routes[..i] + routes[i + 1..];
          return;
        }
        i := i + 1;
      }
      RemoveFirstAbsent(routes, pattern.key);
    }

    /** `clear()`: empties the table. It keeps `Valid()`, and needs it only for that:
        `destroy` calls it after removing the listener and before resetting the rest. */
    method Clear()
      modifies this`routes
      ensures old(Valid()) ==> Valid()
      ensures routes == []
    {
      routes := [];
    }

    /** The path `check` works on: its argument when that is a string, otherwise the path
        `getPathname` reads from the location. */
    function CheckedPath(pathname: Option<string>): string
      reads this
    {
      match pathname
      case Some(p) => p
      case None => GetPathname(location, root, decodeUri)
    }

    /** `check(pathname)`: scans the table in order and invokes the callback of the first
        route whose pattern matches, with the groups after group 0; then stops. */
    method Check(pathname: Option<string>) returns (call: Option<Call>)
      ensures call == Dispatch(routes, CheckedPath(pathname))
    {
      var path := CheckedPath(pathname);
      var i := 0;
      while i < |routes|
        invariant 0 <= i <= |routes|
        invariant DispatchFrom(routes, path, i) == Dispatch(routes, path)
      {
        var groups := routes[i].pattern.matcher(path);
        if groups.Some? {
          call := Some(Call(i, routes[i].callback, path, Captures(groups.value), routes[i].pattern));
          return;
        }
        i := i + 1;
      }
      call := None;
    }

    /** `navigate(pathname)`: pushes `root` + the cleared path (+ `/` when `endsWithSlash`
        holds and the cleared path is not empty), which becomes the location, then runs
        `check` on the path read back from that location. */
    method Navigate(pathname: string) returns (call: Option<Call>)
      requires Valid()
      modifies this`location, this`history
      ensures Valid()
      ensures var cleared := ClearSlashes(pathname);
        location == root + cleared + (if endsWithSlash && cleared != "" then "/" else "")
      ensures history == old(history) + [location]
      ensures call == Dispatch(routes, GetPathname(location, root, decodeUri))
    {
      var target := NavigateTarget(pathname, root, endsWithSlash);
      history := history + [target];
      location := target;
      call := Check(None);
    }

    /** `destroy()`: when initialized, unsubscribes from `popstate`, empties the table,
        restores the default configuration and becomes uninitialized; otherwise does
        nothing. */
    method Destroy()
      requires Valid()
      modifies this`routes, this`root, this`endsWithSlash, this`isInitialized, this`subscriptions
      ensures Valid() && !isInitialized && subscriptions == 0
      ensures !old(isInitialized) ==> routes == old(routes) && root == old(root) && endsWithSlash == old(endsWithSlash)
      ensures old(isInitialized) ==>
        routes == [] && root == "/" && endsWithSlash && subscriptions == old(subscriptions) - 1
    {
      if !isInitialized {
        return;
      }
      subscriptions := subscriptions - 1;
      Clear();
      root := "/";
      endsWithSlash := true;
      isInitialized := false;
    }
  }
}
