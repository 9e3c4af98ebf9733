/** The path normaliser of router.js: `clearSlashes`, the private `getPathname` that
    reads the current location, and the target path `navigate` pushes. */
module Paths {
  import opened Strings

  predicate StartsWithSlash(s: string)
  {
    |s| > 0 && s[0] == '/'
  }

  predicate EndsWithSlash(s: string)
  {
    |s| > 0 && s[|s| - 1] == '/'
  }

  /** `clearSlashes`: drops one trailing `/` (the regular expression `/\/$/`), then
      one leading `/` (`/^\//`) of what is left. It is the identity exactly on paths
      that neither start nor end with `/`. */
  function ClearSlashes(pathname: string): (r: string)
    ensures |pathname| - 2 <= |r| <= |pathname|
    ensures r == pathname <==> !StartsWithSlash(pathname) && !EndsWithSlash(pathname)
  {
    var trimmed := if EndsWithSlash(pathname) then pathname[..|pathname| - 1] else pathname;
    if StartsWithSlash(trimmed) then trimmed[1..] else trimmed
  }

  /** What `clearSlashes` keeps is the input with at most one `/` taken off each end;
      no other character changes. */
  lemma ClearSlashesKeepsInnerRun(pathname: string)
    ensures var r := ClearSlashes(pathname);
      pathname == r || pathname == "/" + r || pathname == r + "/" || pathname == "/" + r + "/"
  {
    var trimmed := if EndsWithSlash(pathname) then pathname[..|pathname| - 1] else pathname;
    if EndsWithSlash(pathname) {
      assert pathname == trimmed + "/";
    }
    if StartsWithSlash(trimmed) {
      assert trimmed == "/" + trimmed[1..];
    }
  }

  /** `clearSlashes` is not idempotent: a doubled slash at either end survives one pass. */
  lemma ClearSlashesNotIdempotent()
    ensures ClearSlashes("//a//") == "/a/"
    ensures ClearSlashes(ClearSlashes("//a//")) == "a"
  {
    assert "//a//"[..4] == "//a/";
    assert "//a/"[1..] == "/a/";
    assert "/a/"[..2] == "/a";
    assert "/a"[1..] == "a";
  }

  /** `getPathname`: clears the slashes of the decoded location path, removes the first
      occurrence of `root` anywhere in it when `root` is not `"/"`, and clears slashes
      again. `decodeUri` stands for the host's `decodeURI`. */
  function GetPathname(locationPath: string, root: string, decodeUri: string -> string): string
  {
    var pathname := ClearSlashes(decodeUri(locationPath));
    var stripped := if root != "/" then DeleteFirst(pathname, root) else pathname;
    ClearSlashes(stripped)
  }

  /** When the cleared location path begins with `root` (and `root` is not `"/"`),
      `getPathname` strips it as a prefix. */
  lemma GetPathnameStripsLeadingRoot(locationPath: string, root: string, decodeUri: string -> string)
    requires root != "/"
    requires var pathname := ClearSlashes(decodeUri(locationPath));
      |root| <= |pathname| && pathname[..|root|] == root
    ensures var pathname := ClearSlashes(decodeUri(locationPath));
      GetPathname(locationPath, root, decodeUri) == ClearSlashes(pathname[|root|..])
  {
    var pathname := ClearSlashes(decodeUri(locationPath));
    assert OccursAt(pathname, root, 0);
    assert pathname[..0] + pathname[|root|..] == pathname[|root|..];
  }

  /** The root is removed wherever it first occurs, not only at the front: under root
      `"app"` the location `/shop/app/cart` reads back as `shop//cart`. */
  lemma GetPathnameRemovesRootInside()
    ensures GetPathname("/shop/app/cart", "app", s => s) == "shop//cart"
  {
    var pathname := ClearSlashes("/shop/app/cart");
    assert pathname == "shop/app/cart" by {
      assert "/shop/app/cart"[1..] == "shop/app/cart";
    }
    assert OccursAt(pathname, "app", 5) by {
      assert pathname[5..8] == "app";
    }
    forall j: nat | j < 5 ensures !OccursAt(pathname, "app", j) {
      assert pathname[j + 1] != 'p' || pathname[j] != 'a';
    }
    assert pathname[..5] + pathname[8..] == "shop//cart";
  }

  /** `getPathname` can end with `/`: with the identity decoder and root `"/"`, the
      location `///a///` reads back as `/a/`. */
  lemma GetPathnameMayKeepSlashes()
    ensures GetPathname("///a///", "/", s => s) == "/a/"
  {
    assert "///a///"[..6] == "///a//";
    assert "///a//"[1..] == "//a//";
    assert "//a//"[..4] == "//a/";
    assert "//a/"[1..] == "/a/";
  }

  /** The path `navigate` pushes: `root`, the cleared path, and a trailing `/` only when
      `endsWithSlash` holds and the cleared path is not empty. */
  function NavigateTarget(pathname: string, root: string, endsWithSlash: bool): string
  {
    var cleared := ClearSlashes(pathname);
    if endsWithSlash && cleared != "" then root + cleared + "/" else root + cleared
  }

  /** Under root `"/"`, reading back the pushed path of a path that neither starts nor
      ends with `/` gives that path again, whatever the trailing-slash policy. */
  lemma NavigateThenReadBack(pathname: string, endsWithSlash: bool, decodeUri: string -> string)
    requires !StartsWithSlash(pathname) && !EndsWithSlash(pathname)
    requires decodeUri(NavigateTarget(pathname, "/", endsWithSlash)) == NavigateTarget(pathname, "/", endsWithSlash)
    ensures GetPathname(NavigateTarget(pathname, "/", endsWithSlash), "/", decodeUri) == pathname
  {
    var target := NavigateTarget(pathname, "/", endsWithSlash);
    assert ClearSlashes(pathname) == pathname;
    if endsWithSlash && pathname != "" {
      assert target[..|target| - 1] == "/" + pathname;
      assert ("/" + pathname)[1..] == pathname;
    } else if pathname != "" {
      assert target[|target| - 1] == pathname[|pathname| - 1];
      assert target[1..] == pathname;
    }
  }

  /** Under root `"/app/"`, navigating to `profile` pushes `/app/profile/`, but the path read
      back is `app/profile`: after clearing slashes `"/app/"` no longer occurs in it. */
  lemma NavigateUnderAppRoot()
    ensures NavigateTarget("profile", "/app/", true) == "/app/profile/"
    ensures GetPathname("/app/profile/", "/app/", s => s) == "app/profile"
  {
    assert ClearSlashes("profile") == "profile";
    var pathname := ClearSlashes("/app/profile/");
    assert pathname == "app/profile" by {
      assert "/app/profile/"[..12] == "/app/profile";
      assert "/app/profile"[1..] == "app/profile";
    }
    forall j: nat | j + 5 <= |pathname| ensures !OccursAt(pathname, "/app/", j) {
      assert pathname[j..j + 5][0] == pathname[j] && pathname[j..j + 5][4] == pathname[j + 4];
      assert pathname[j] != '/' || pathname[j + 4] != '/';
    }
  }
}
