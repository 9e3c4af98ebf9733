# router.js in Dafny

A model of router.js, a small client-side router for single-page applications, with the
properties its code promises proved about the model. The router keeps module-level state:

- the application `root` (default `"/"`);
- the ordered table of `routes`, each a pattern with a callback;
- the `endsWithSlash` policy for navigated paths (default true);
- an `isInitialized` flag.

Its public functions fall into four groups:

- **Route table.** `add`, `remove` and `clear` manage the table.
- **Dispatch and navigation.** `check` runs the callback of the first route whose pattern
  matches a path. `navigate` pushes a path onto the browser history and then checks it.
- **Query strings.** `getParameters` and `getParameterByKey` parse a query string.
  `buildQuery` writes one.
- **Lifecycle.** `init` and `destroy` switch the router on and off, together with its
  `popstate` listener.

Two private helpers, `clearSlashes` and `getPathname`, normalise paths.

The project has one module per concern:

| file | module | contents |
|---|---|---|
| wrappers.dfy | `Wrappers` | `Option` (`None` stands for JavaScript's `undefined`/`null`) |
| strings.dfy | `Strings` | `split` and `join` with a one-character separator; `indexOf`; `replace` with a string pattern, which removes the first occurrence only |
| paths.dfy | `Paths` | `clearSlashes`, `getPathname`, the path `navigate` pushes |
| query.dfy | `Query` | `getParameters`, `getParameterByKey`, `buildQuery`, and the round trip between them |
| router.dfy | `Routing` | the `Router` class: the module state, `init`, `add`, `remove`, `clear`, `check`, `navigate`, `destroy` |
| scenarios.dfy | `Scenarios` | client code driving a `Router` through the contracts alone |

How the model stands in for the code:

- **Query object.** The parameter object `getParameters` builds is a `ParameterMap`: a
  sequence of entries (key, list of values) in key-insertion order. An absent value
  (`undefined`) is `None`.
- **Patterns.** A route pattern is its `toString()` form, which is what `remove` compares,
  together with an abstract matcher standing for `String.prototype.match`.
- **Callbacks.** A callback is known by identity only. Invoking it is recorded as the
  `Call` value that `check` returns.
- **Host codecs.** `decodeURI`, `decodeURIComponent` and `encodeURIComponent` are
  function parameters.
- **Browser state.** The location path, the paths pushed with `history.pushState` and the
  number of `popstate` listeners are fields of the `Router`. The listener count is ghost.

Behaviours of the code worth knowing, each proved as the code has it:

- `clearSlashes`, commented "Remove slashes from the beginning and the end of path"
  (router.js:170), removes only one `/` from each end. So it is not idempotent
  (`Paths.ClearSlashesNotIdempotent`).
- `getPathname` removes the first occurrence of `root` anywhere in the path, not only a
  leading one (`Paths.GetPathnameRemovesRootInside`). Its result can still start or end
  with `/` (`Paths.GetPathnameMayKeepSlashes`).
- Under a root such as `/app/`, the path `navigate` dispatches is the one read back from
  the new location: `app/profile`, not `profile`. This happens because `"/app/"` no longer
  occurs once the slashes are cleared (`Paths.NavigateUnderAppRoot`).
- Query keys are never decoded; only values are.

## Model

| member | source | states |
|---|---|---|
| Strings.Split | router.js:107-108 | `split` yields at least one piece, no piece contains the separator, and joining the pieces with the separator gives the input back |
| Strings.SplitJoin | router.js:107-108 | `split` undoes `join` when every piece is free of the separator |
| Strings.SplitFirstPiece | router.js:108-109 | field 0 of `split` is the text before the first separator (the whole string when there is none), and there is one field exactly when the separator does not occur |
| Strings.SplitAfterFirst | router.js:108-110 | the fields after field 0 are the split of the text after the first separator |
| Strings.IndexOfFrom | router.js:165 | the result is the first index from `start` on where the pattern occurs, or none when it occurs nowhere from there |
| Strings.DeleteFirst | router.js:165 | `replace(root, '')` removes the first occurrence of `root`, wherever it is, and leaves the string alone when `root` does not occur |
| Paths.ClearSlashes | router.js:173-175 | the result is at most two characters shorter, and equals the input exactly when the input neither starts nor ends with `/` |
| Paths.ClearSlashesKeepsInnerRun | router.js:173-175 | the input is the result with at most one `/` added at each end: no other character changes |
| Paths.ClearSlashesNotIdempotent | router.js:173-175 | `"//a//"` clears to `"/a/"`, and that clears to `"a"` |
| Paths.GetPathnameStripsLeadingRoot | router.js:162-167 | when the cleared location starts with a root other than `"/"`, the path read is the rest, cleared again |
| Paths.GetPathnameRemovesRootInside | router.js:162-167 | under root `app`, the location `/shop/app/cart` reads as `shop//cart` |
| Paths.GetPathnameMayKeepSlashes | router.js:162-167 | under root `/`, the location `///a///` reads as `/a/` |
| Paths.NavigateThenReadBack | router.js:86-94 | under root `/`, reading back the location `navigate` pushed for a path without outer slashes gives that path, under either `endsWithSlash` |
| Paths.NavigateUnderAppRoot | router.js:86-94 | under root `/app/`, `navigate("profile")` pushes `/app/profile/`, which reads back as `app/profile` |
| Query.KeyIndex | router.js:111 | `qd[k]` finds the first entry with key `k`, or none when no entry has that key |
| Query.AddValueEffect | router.js:111 | `(qd[k] = qd[k] \|\| []).push(v)` keeps keys distinct, appends `k` to the keys when it is new and otherwise leaves them alone, and stores exactly one more value |
| Query.LookupAfterAdd | router.js:111 | after that push, `k` holds its old values plus `v` at the end, and every other key is unchanged |
| Query.SegmentKey | router.js:108-109 | the key of a segment is the text before its first `=` (the whole segment when it has none) and contains no `=` |
| Query.SegmentValue | router.js:108-110 | the value is `undefined` exactly when the segment has no `=`; otherwise it is the text between the first and second `=`, decoded unless it is empty |
| Query.AccumulateDistinct | router.js:107-112 | the parsed object never holds a key twice |
| Query.AccumulateCount | router.js:107-112 | the parsed object stores exactly one value per segment |
| Query.AccumulateKeys | router.js:107-112 | the keys of the parsed object are the segment keys, undecoded, without repeats, in first-seen order |
| Query.AccumulateValues | router.js:107-112 | under each key are the values of that key's segments in segment order; a key no segment has is absent |
| Query.ParseQueryContents | router.js:102-114 | `getParameters(query)` has distinct keys, one value per `&`-segment, keys in first-seen order, and each key's values in segment order |
| Query.GetParameters | router.js:102-114 | the loop builds exactly the parsed object of the argument, or of `location.search` without its `?` when there is no argument; keys are distinct and the value count equals the segment count |
| Query.ParseEmptyQuery | router.js:107-111 | `getParameters("")` is `{"": [undefined]}` |
| Query.ParseExtraEquals | router.js:108-110 | `getParameters("a=b=c")` is `{a: [decode("b")]}` |
| Query.ParseRepeatedKeys | router.js:107-111 | `getParameters("a=1&a=2&b=")` is `{a: [decode("1"), decode("2")], b: [""]}` |
| Query.GetParameterByKey | router.js:121-127 | the result is `undefined` exactly when no segment has the key; otherwise it is the values of that key's segments, in order |
| Query.ValuesForEmpty | router.js:125-126 | a key has no values exactly when no segment carries it |
| Query.TruthyValues | router.js:137-138 | every value kept is truthy: neither `undefined` nor `""` |
| Query.EntryPairs | router.js:137-141 | for one key, one (key, value) pair per truthy value, in value order |
| Query.EmittedPairs | router.js:136-142 | no emitted pair has an empty value |
| Query.BuildQuery | router.js:133-144 | the loops produce the `&`-join of `encode(key)=encode(value)` over every truthy value, keys in map order and then values in list order |
| Query.NothingEmitted | router.js:136-143 | nothing is emitted, and nothing survives dropping falsy values, exactly when every value is falsy |
| Query.BuildQueryEmpty | router.js:133-144 | `buildQuery` gives `""` exactly when no value is truthy |
| Query.BuildQueryNoTrailingSeparator | router.js:139-143 | when encoded text never holds `&`, the query does not end in `&` |
| Query.RoundTrip | router.js:102-144 | `getParameters(buildQuery(m))` is `m` with its falsy values dropped and its emptied keys removed, assuming keys are unchanged by encoding, encoded text holds no `&` or `=`, decoding undoes encoding, and some value is truthy |
| Query.RoundTripAllFalsy | router.js:102-144 | when no value is truthy, the round trip gives `{"": [undefined]}`, not an empty object |
| Routing.DispatchFrom | router.js:71-78 | scanning from `start` calls the lowest-index matching route at or after `start`, with its callback, the path, the groups after group 0 and the pattern; with no match, nothing is called |
| Routing.Dispatch | router.js:67-80 | no callback fires exactly when no pattern matches; otherwise exactly one fires, for the lowest-index matching route |
| Routing.RemoveFirstDeletesLowest | router.js:45-53 | `remove` deletes the lowest-index route with an equal pattern string, and keeps the other routes in order |
| Routing.RemoveFirstAbsent | router.js:45-53 | `remove` changes nothing when no pattern string is equal |
| Routing.Router.constructor | router.js:11-14 | the module starts with root `/`, an empty table, `endsWithSlash` true, not initialized and with no listener |
| Routing.Router.Init | router.js:20-29 | when not initialized: applies the given options over the defaults, adds one listener and becomes initialized; when already initialized: changes nothing |
| Routing.Router.Add | router.js:36-39 | appends exactly one route at the end of the table |
| Routing.Router.Remove | router.js:45-53 | the index loop leaves the table as `RemoveFirst` describes: the first route with an equal pattern string is gone, the others are in order |
| Routing.Router.Clear | router.js:58-61 | the table is empty, and the router's invariant is kept |
| Routing.Router.Check | router.js:67-80 | the loop makes exactly the call `Dispatch` describes, on the argument or, without one, on the path read from the location; the table is not changed |
| Routing.Router.Navigate | router.js:86-96 | the location becomes `root + clearSlashes(p)`, plus `/` exactly when `endsWithSlash` holds and the cleared path is non-empty; that location is appended to the history, and the call is the dispatch of the path read back from it |
| Routing.Router.Destroy | router.js:149-157 | when initialized: removes the listener, empties the table, restores root `/` and `endsWithSlash` true, and becomes uninitialized; when not initialized: changes nothing |

## Left out

- Browser glue. `window.addEventListener` and `removeEventListener` are a ghost listener
  count. `history.pushState` appends to a history field and sets the location field.
  `window.location.search` is a parameter. The browser resolving a relative pushed path,
  and percent-encoding `location.pathname`, are not modelled: the pushed string becomes
  the location as it is.
- Regular expressions. A pattern's matcher is an abstract function. String patterns
  coerced to `RegExp`, and global-flag regexes (where `match` returns every match rather
  than groups), are not modelled.
- Codec internals. `decodeURI`, `decodeURIComponent` and `encodeURIComponent` are opaque
  parameters. Their exceptions on malformed escapes are not modelled.
- JavaScript object quirks. `Object.keys` lists integer-like keys first; the model keeps
  plain insertion order for every key. Non-string values given to `buildQuery` (numbers,
  `0`, `false`, `null`) are not modelled: a value is a string or `undefined`.
- Query.GetParameters: the contract holds for keys that are not inherited members of
  `Object.prototype`. For a key such as `constructor`, `toString`, `valueOf`,
  `hasOwnProperty` or `__proto__`, `qd[k] || []` finds the inherited member, and the
  following `push` throws a `TypeError` (router.js:111). The model instead stores the
  value under that key.
- Query.GetParameterByKey: for a key that names an inherited `Object.prototype` member,
  `parameters[key]` returns that member even when no segment has the key (router.js:126).
  The model returns `undefined` there. The contract holds for all other keys.
- Routing.Router.Init: `init(null)` throws a `TypeError`, because `typeof null` is
  `'object'` and router.js:23 then reads `null.root`. The model has no null options.
  Otherwise the `typeof` checks become `InitOptions`, where an option of the wrong type
  is `None`.
- Callbacks. They run with `this` bound to `{}`; the model only records their invocation
  as the returned `Call`. Any state a callback changes during `check` is not modelled.
  `check` returns straight after the callback, so nothing it does could affect the scan.
- Return values: `return this` chaining, and the `undefined` that `init` and `destroy`
  return on their no-op paths.
- Query.RoundTrip: requires one codec assumption beyond the other four. A non-empty
  string must not encode to `""`. `getParameters` stores an empty value as `""` without
  decoding it, so without this assumption a value encoded to `""` would not come back.
- Paths.NavigateThenReadBack: stated for root `/` only. Under any other root, the path
  read back depends on where the root string first occurs (see
  `Paths.NavigateUnderAppRoot`), so there is no general read-back law.
