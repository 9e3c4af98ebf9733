/** Usage scenarios of the router, checked against the contracts alone. */
module Scenarios {
  import opened Wrappers
  import opened Routing

  predicate AllDigits(s: string)
  {
    forall i | 0 <= i < |s| :: '0' <= s[i] <= '9'
  }

  /** A matcher for `/^user\/(\d+)$/`. */
  function UserId(path: string): Option<MatchArray>
  {
    if |path| > 5 && path[..5] == "user/" && AllDigits(path[5..]) then Some([Some(path), Some(path[5..])]) else None
  }

  /** A matcher for `/^user\/new$/`. */
  function UserNew(path: string): Option<MatchArray>
  {
    if path == "user/new" then Some([Some(path)]) else None
  }

  /** The first matching route wins, and the captures leave out group 0. */
  method FirstMatchWins()
  {
    var router := new Router("/", s => s);
    var userId := Pattern("/^user\\/(\\d+)$/", UserId);
    var userNew := Pattern("/^user\\/new$/", UserNew);
    router.Add(userId, 1);
    router.Add(userNew, 2);
    var call := router.Check(Some("user/42"));
    assert "user/42"[..5] == "user/" && "user/42"[5..] == "42";
    assert call == Some(Call(0, 1, "user/42", [Some("42")], userId));
    call := router.Check(Some("user/new"));
    assert "user/new"[5..][0] == 'n';
    assert !Matches(router.routes[0], "user/new");
    assert Matches(router.routes[1], "user/new");
    assert Captures([Some("user/new")]) == [];
    assert call == Some(Call(1, 2, "user/new", [], userNew));
    call := router.Check(Some("about"));
    assert call == None;
  }

  /** Removing a pattern that is registered twice removes the first copy only, so the
      second copy now handles the path. */
  method RemoveDuplicate()
  {
    var router := new Router("/", s => s);
    var userNew := Pattern("/^user\\/new$/", UserNew);
    router.Add(userNew, 1);
    router.Add(userNew, 2);
    router.Remove(userNew);
    RemoveFirstDeletesLowest([Route(userNew, 1), Route(userNew, 2)], userNew.key, 0);
    assert router.routes == [Route(userNew, 2)];
    var call := router.Check(Some("user/new"));
    assert Matches(router.routes[0], "user/new");
    assert Captures([Some("user/new")]) == [];
    assert call == Some(Call(0, 2, "user/new", [], userNew));
  }

  /** A second `init` subscribes nothing more; `destroy` releases the one listener,
      empties the table and restores the defaults; a second `destroy` does nothing. */
  method InitTwiceThenDestroy()
  {
    var router := new Router("/", s => s);
    router.Init(InitOptions(Some("/app/"), Some(false)));
    router.Init(InitOptions(Some("/other/"), None));
    assert router.subscriptions == 1 && router.root == "/app/" && !router.endsWithSlash;
    router.Add(Pattern("/^a$/", UserNew), 1);
    router.Destroy();
    assert router.subscriptions == 0 && router.routes == [] && router.root == "/" && router.endsWithSlash;
    router.Destroy();
    assert router.subscriptions == 0;
  }

  /** Under root `/app/` navigating to `profile` pushes `/app/profile/` and dispatches on
      `app/profile`, the path read back from that location. */
  method NavigateUnderRoot()
  {
    var router := new Router("/", s => s);
    router.Init(InitOptions(Some("/app/"), None));
    var call := router.Navigate("profile");
    Paths.NavigateUnderAppRoot();
    assert router.location == "/app/profile/";
    assert call == Dispatch(router.routes, "app/profile");
  }
}
