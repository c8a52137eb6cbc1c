# mpgameserver HTTP routing core in Dafny

A Dafny model of the request-routing core of `mpgameserver/http_server.py`. It covers:

- **The path-pattern compiler.**
  - `Router.patternToRegex` turns `/user/:name/:rest*` into an anchored regular expression plus its token list.
  - `Router.patternToTemplate` turns the same pattern into a `/{name}` template, the token list and the count of required tokens.
- **The language of the compiled expression.**
  - `Matcher.MatchFrom` is a backtracking, leftmost-greedy interpreter of the five fragments the compiler emits, followed by the trailing `\/?$`.
  - `Matcher.InLanguage` states the same language with no search order.
  - It keeps two Python details: `.` does not match a newline, and `$` also matches before a final newline.
- **The route table.**
  - `registerRoutes` compiles before it checks the verb, and appends in order.
  - `getRoute` returns the first match in registration order, with the groups keyed by token name.
  - `Resource()` collects routes from an ordered member list.
  - `OrderedPropertyMap` keeps the first-definition order of names.
  - The `get`/`put`/`post`/`delete`/`header`/`param`/`ratelimit` decorators are modelled as functions on a handler value.
- **`CacheDict`**, the bounded ordered map that evicts its oldest keys (a class over a key sequence and a map).
- **`RollingCounter`** and **`RateLimiter.insert`**: binned window counters kept per client in a `CacheDict`. These are classes whose methods are proved against pure state-transition functions.
- **`request_response` and `dispatch`**: the 429 check from the limiter, then the 404/411/413 checks, the user callback, the 500 on a failed callback and the `TypeError` on a non-Response.
- **The small routines**:
  - the `path_join_safe` component check;
  - `CaseInsensitiveDict`;
  - the `ratelimit("n/unit")` parse;
  - the test client's `_coerce_dict` and `_build_request`;
  - the query half of `parse_url`.

The clock is an integer millisecond parameter (`ms`). The user callback is a function parameter returning an `Outcome`. In `parse_url`, `bytes.decode("utf-8")` is a function parameter returning None where it raises UnicodeDecodeError, and `unquote` is a function parameter.

The model keeps the source's behaviour as written, including its quirks. The lemmas named below exhibit them:

- `RateLimiter.__init__` passes `capacity=1024` through `**kwargs` into `OrderedDict`. The cache therefore keeps `cache_len` 128 and starts with the entry `"capacity" -> 1024` (`Limiter.Initial`, `Limiter.CapacityKeyRaises`).
- The reset branch of `RollingCounter.increment` does not update `_current_index`. Once the clock is past the fourth window, every counter resets to `[1]` on every call, so with the router's limit of 5 nobody is ever blocked (`Limiter.NeverBlocks`, `Routing.NeverTooMany`).
- A fresh counter's first event in window 0 raises IndexError, because `_counts` is still empty (`Counters.FirstWindowRaises`).
- `*` and `+` keep a trailing slash in their group, and `+` needs no slash before it (`Matcher.StarKeepsTrailingSlash`, `Matcher.PlusWithoutSlash`).

Modules:

| file | module | source |
|---|---|---|
| `text.dfy` | `Text` | `split`, `join`, `upper`, `replace`, `str(int)`, `int(str)`, UTF-8 |
| `wrappers.dfy` | `Wrappers` | Option / Result |
| `patterns.dfy` | `Patterns` | `patternToRegex`, `patternToTemplate` |
| `matcher.dfy` | `Matcher` | the language of the compiled expressions |
| `cache_dict.dfy` | `Cache` | `CacheDict` |
| `rolling_counter.dfy` | `Counters` | `RollingCounter` |
| `rate_limiter.dfy` | `Limiter` | `RateLimiter` |
| `headers.dfy` | `Headers` | `CaseInsensitiveDict` |
| `resource.dfy` | `Resources` | decorators, `ratelimit`, `OrderedPropertyMap`, `Resource()` |
| `router.dfy` | `Routing` | `Router`, `request_response`, `dispatch` |
| `test_client.dfy` | `Client` | `TestClient._coerce_dict`, `_build_request` |
| `query.dfy` | `Query` | `parse_url`'s query loop |
| `paths.dfy` | `PathSafety` | `path_join_safe` |

## Model

| member | source | states |
|---|---|---|
| Patterns.Parts | mpgameserver/http_server.py:582 | the parts of a pattern are its `/`-separated pieces with the empty ones dropped, so every part is non-empty |
| Patterns.CompilePart | mpgameserver/http_server.py:587-614 | one loop turn of `patternToRegex`: it fails exactly when a `?`/`*`/`+` token comes while `final` is set; otherwise it appends the fragment for the part's kind and the token name, and sets `final` on a `?`/`*`/`+` token |
| Patterns.PatternToRegex | mpgameserver/http_server.py:567-620 | the compiler succeeds exactly when the declarative `Compile` does, i.e. when at most one `?`/`*`/`+` token occurs; the ValueError carries the pattern; on success the segments are the pattern's parts, the tokens are the token names in pattern order, and the expression text is `^`, the per-segment fragments, `\/?` and `$` |
| Patterns.CompileFailsIffSecondFinal | mpgameserver/http_server.py:585-611 | compiling fails if and only if two `?`/`*`/`+` tokens occur at positions i < j; literals and plain tokens after the first such token are accepted |
| Patterns.TemplatePart | mpgameserver/http_server.py:552-563 | one loop turn of `patternToTemplate`: the token name for a token part, `/{name}` or `/lit` as the template piece, and 1 towards `required` exactly for plain and `+` tokens |
| Patterns.PatternToTemplate | mpgameserver/http_server.py:532-565 | never raises; returns the template of the pattern's segments, the token names in pattern order, and the number of plain plus `+` tokens |
| Patterns.RequiredAtMostTokens | mpgameserver/http_server.py:551-561 | `required` is at most the number of tokens, and the token list has one name per token segment |
| Matcher.MatchFrom | mpgameserver/http_server.py:589-619 | a successful match reports exactly one group per token of the pattern |
| Matcher.MatchIffInLanguage | mpgameserver/http_server.py:589-619 | the backtracking, leftmost-greedy search finds a match exactly when the path is in the declaratively stated language of the five fragments and the trailing `\/?$` |
| Matcher.PlainCaptures | mpgameserver/http_server.py:611-612 | for a path without newline, `/:t` matches exactly a single non-empty slash-free segment with an optional trailing slash, and captures that segment without the slash |
| Matcher.OptionalCaptures | mpgameserver/http_server.py:589-594 | for a path without newline, `/:t?` matches the empty path (group None) or one slash-free segment with an optional trailing slash; a bare `/` captures the empty string |
| Matcher.StarCaptures | mpgameserver/http_server.py:595-603 | for a path without newline, `/:t*` matches the empty path (group None) or any path starting with `/`, and captures everything after the first slash, embedded and trailing slashes included |
| Matcher.PlusCaptures | mpgameserver/http_server.py:604-609 | for a path without newline, `/:t+` needs at least one character: it captures everything after a leading slash, the bare slash itself, or the whole path when there is no leading slash |
| Matcher.EndMatchesPath | mpgameserver/http_server.py:616-619 | on a path without newline the tail `\/?$` accepts exactly the empty rest or a single slash |
| Matcher.LiteralPrefix | mpgameserver/http_server.py:613-614 | a run of literal segments consumes exactly its own `/lit` text and leaves the rest of the match unchanged |
| Matcher.TrailingSlash | mpgameserver/http_server.py:368-372 | a trailing slash is tolerated: if a path without newline and without a trailing slash matches, the path with one appended matches too |
| Matcher.FillMatches | mpgameserver/http_server.py:547-565 | filling the template of a literal-and-plain pattern with non-empty slash-free values gives a path the compiled expression matches, with exactly those values as groups |
| Matcher.StarKeepsTrailingSlash | mpgameserver/http_server.py:602 | `/files/:rest*` on `/files/a/` captures `a/` |
| Matcher.PlusWithoutSlash | mpgameserver/http_server.py:608 | `/files/:rest+` matches `/filesabc`, capturing `abc` |
| Matcher.PlusCapturesBareSlash | mpgameserver/http_server.py:608 | `/files/:rest+` matches `/files/`, capturing `/` |
| Matcher.NewlineBeforeEnd | mpgameserver/http_server.py:619 | `$` matches before a final newline: `/a` matches `/a\n` |
| Routing.AcceptedPrefix | mpgameserver/http_server.py:510-515 | the number of leading routes that register before the first refused one: all routes before it are registrable and the one at that index is not |
| Routing.RegisterStep | mpgameserver/http_server.py:513-515 | appending one compiled entry to its verb's list keeps the table equal to the per-verb lists of all routes registered so far, in order |
| Routing.Router.constructor | mpgameserver/http_server.py:485-497 | empty lists for exactly DELETE, GET, POST, PUT, no routes, and a limiter built as `RateLimiter(5, 60000, 1024)` |
| Routing.Router.RegisterRoute | mpgameserver/http_server.py:510-515 | one route: it succeeds exactly when its pattern compiles and its verb has a list; a bad pattern is reported before a bad verb; a refused route changes nothing; an accepted one is appended to `routes` and to its verb's list |
| Routing.Router.RegisterRoutes | mpgameserver/http_server.py:499-515 | routes are registered in order up to the first refused one, which is the error reported; the routes before it stay registered; success exactly when every route is accepted |
| Routing.LookupEarliest | mpgameserver/http_server.py:517-530 | `getRoute` returns None exactly for a verb outside the table or when no route of that verb matches; otherwise it returns the earliest registered route of that verb whose expression matches, with the groups keyed by token name |
| Routing.Router.GetRoute | mpgameserver/http_server.py:517-530 | the scan over the table's list for the verb is the lookup over all registered routes in registration order |
| Routing.RequestResponse | mpgameserver/http_server.py:430-478 | the answer raises TypeError exactly when a route was found, the size checks passed and the callback returned a non-Response value; an answer whose status is none of the router's own 404/411/413/500 is the Response the callback returned |
| Routing.NotFound | mpgameserver/http_server.py:432-435 | no route gives 404 "path not found" |
| Routing.SizeLimits | mpgameserver/http_server.py:441-461 | with `max_content_length` set: a missing Content-Length gives 411 (413 when the limit is negative); a declared length above the limit gives 413; a length at or below it passes the checks |
| Routing.NoSizeLimit | mpgameserver/http_server.py:441-442 | a route without `max_content_length` is not checked |
| Routing.CallbackOnlyWhenValid | mpgameserver/http_server.py:463-468 | when no route was found or a size check chose an error, the result does not depend on the callback |
| Routing.CallbackOutcomes | mpgameserver/http_server.py:463-478 | after the checks pass: a returned Response is the answer; None or an exception gives 500; any other value raises TypeError |
| Routing.DeclaredLengthOfDecimal | mpgameserver/http_server.py:449-452 | a Content-Length written in decimal is read back as its value, and a negative one as 0 |
| Routing.TooManyFirst | mpgameserver/http_server.py:622-626 | a client the limiter blocks gets 429 before any route lookup: the answer is the same with no routes at all |
| Routing.Router.Dispatch | mpgameserver/http_server.py:622-628 | the answer and the limiter's new state are `DispatchSpec`: the limiter's insert first (429 when it blocks, its exceptions propagate), then `request_response` |
| Routing.InitialStuck | mpgameserver/http_server.py:318-325 | the router's initial limiter holds no counter, only the stray int entry |
| Routing.NeverTooMany | mpgameserver/http_server.py:299-308 | once the clock is past 75 s, a limiter whose counters never left index 0 never answers 429: the result is `request_response`'s, or AttributeError for the client "capacity"; the counters stay at index 0 |
| Cache.Remove | mpgameserver/http_server.py:213-219 | removing a key keeps exactly the other keys |
| Cache.RemoveDistinct | mpgameserver/http_server.py:213-219 | removing a key from distinct keys keeps them distinct, and shortens them by one exactly when the key was present |
| Cache.MoveToEndFacts | mpgameserver/http_server.py:214-215 | after `move_to_end` the keys stay distinct, hold the old keys plus `k`, and end with `k` |
| Cache.RemoveKeepsOrder | mpgameserver/http_server.py:215 | removing a key keeps the relative order of the others |
| Cache.SetKeepsBound | mpgameserver/http_server.py:213-219 | after a set the map holds at most `cache_len` distinct keys, the set key is newest with the new value, and every other kept key keeps its value |
| Cache.SetEvictsOldest | mpgameserver/http_server.py:217-219 | only the oldest keys are evicted, and a key is evicted only when a new key was added to a full map |
| Cache.GetMovesToEnd | mpgameserver/http_server.py:221-225 | a get on a present key returns its value and makes it newest without changing the key set or any value; a missing key raises KeyError |
| Cache.BuildWellFormed | mpgameserver/http_server.py:207-211 | a map built from initial pairs is bounded and well-formed |
| Cache.CacheDict.constructor | mpgameserver/http_server.py:207-211 | the initial pairs are inserted one by one with eviction |
| Cache.CacheDict.Set | mpgameserver/http_server.py:213-219 | the new state is `SetSpec` of the old state: move or insert to the end, then evict from the front while over `cache_len` |
| Cache.CacheDict.Get | mpgameserver/http_server.py:221-225 | returns the value exactly when the key is present, moves it to the end, and changes no value |
| Counters.BumpLast | mpgameserver/http_server.py:310 | only the last bin changes, and it grows by one |
| Counters.TickBounds | mpgameserver/http_server.py:298-313 | `increment` raises IndexError exactly when the window is unchanged and there are no bins; otherwise at most `bins` bins remain, none negative, and the returned count is their sum and at least 1 |
| Counters.SameWindow | mpgameserver/http_server.py:299-311 | in the same window only the last bin grows, by one |
| Counters.NextWindow | mpgameserver/http_server.py:304-308 | a move by at most `bins` windows opens a bin holding this event, keeps the newest `bins - 1` older bins, and sets `_current_index` |
| Counters.LongPause | mpgameserver/http_server.py:302-303 | a gap of more than `bins` windows resets the bins to `[1]` and leaves `_current_index` unchanged |
| Counters.FirstWindowRaises | mpgameserver/http_server.py:281-310 | a fresh counter's first event in window 0 raises IndexError |
| Counters.RollingCounter.constructor | mpgameserver/http_server.py:278-285 | bin width `interval_ms // bins`, index 0, no bins, count 0 |
| Counters.RollingCounter.Increment | mpgameserver/http_server.py:287-313 | the new state and result are `Tick` of the old state in window `ms // interval`: the IndexError case leaves the state unchanged |
| Limiter.InsertNeverKeyError | mpgameserver/http_server.py:329-332 | the lookup after admitting the key never raises KeyError, and the key ends up newest |
| Limiter.InsertKeepsCoherent | mpgameserver/http_server.py:327-334 | insert keeps the cache bounded and well-formed, with every counter in a reachable state |
| Limiter.InsertSeen | mpgameserver/http_server.py:329-330 | a key already present gets no new counter: same keys, other entries unchanged |
| Limiter.InsertUnseen | mpgameserver/http_server.py:329-332 | an unseen key gets a fresh counter: its first event counts 1 (IndexError in window 0); other entries are unchanged; the oldest key is evicted when the cache was full |
| Limiter.EvictsFirst | mpgameserver/http_server.py:327-330 | admitting a new key into a full cache evicts its oldest key |
| Limiter.InsertOnInt | mpgameserver/http_server.py:332 | an int entry raises AttributeError and changes no value |
| Limiter.CapacityKeyRaises | mpgameserver/http_server.py:322-323 | a new limiter raises AttributeError for the key "capacity" |
| Limiter.InsertVerdict | mpgameserver/http_server.py:332-334 | the verdict is true exactly when the key's new count, the sum of its bins and at least 1, is greater than `limit` |
| Limiter.NeverBlocksPastFourthWindow | mpgameserver/http_server.py:302-334 | past the fourth window, a cache whose counters are at index 0 never blocks, and its counters stay at index 0 |
| Limiter.NeverBlocks | mpgameserver/http_server.py:299-334 | for any sequence of inserts past the fourth window on such a cache, no verdict is true |
| Limiter.RateLimiter.constructor | mpgameserver/http_server.py:319-325 | the cache view starts as the single entry `"capacity" -> capacity` |
| Limiter.RateLimiter.AdmitKey | mpgameserver/http_server.py:329-330 | a fresh counter is stored exactly for an unseen key |
| Limiter.RateLimiter.CountKey | mpgameserver/http_server.py:332 | the lookup moves the key to the end, then its counter's increment is compared with `limit` |
| Limiter.RateLimiter.Insert | mpgameserver/http_server.py:327-334 | the verdict and new cache view are `InsertSpec` of the old view |
| Headers.UpperSame | mpgameserver/http_server.py:227-241 | two keys have the same `upper()` exactly when they differ only in the case of ASCII letters |
| Headers.CaseInsensitiveDict.constructor | mpgameserver/http_server.py:227 | a new dictionary is empty |
| Headers.CaseInsensitiveDict.Set | mpgameserver/http_server.py:228-229 | the value is stored under the upper-cased key |
| Headers.CaseInsensitiveDict.Contains | mpgameserver/http_server.py:237-238 | true exactly when a stored key equals the key ignoring ASCII case |
| Headers.CaseInsensitiveDict.Get | mpgameserver/http_server.py:231-232 | the value of the stored key that equals the key ignoring case; KeyError when there is none |
| Headers.CaseInsensitiveDict.GetOr | mpgameserver/http_server.py:240-241 | the value when present, the default otherwise |
| Headers.SetThenGet | mpgameserver/http_server.py:228-232 | after a set, every key equal ignoring case reads the new value, and every other key reads what it read before |
| Resources.Get | mpgameserver/http_server.py:132-138 | `@get(path)` sets the endpoint to `(path, "GET")` and leaves every other attribute as it was |
| Resources.Put | mpgameserver/http_server.py:140-147 | `@put(path, n)` sets the endpoint to `(path, "PUT")` and the options to `{"max_content_length": n}`, and leaves every other attribute as it was |
| Resources.Post | mpgameserver/http_server.py:149-156 | `@post(path, n)` sets the endpoint to `(path, "POST")` and the options to `{"max_content_length": n}`, and leaves every other attribute as it was |
| Resources.Delete | mpgameserver/http_server.py:158-163 | `@delete(path)` sets the endpoint to `(path, "DELETE")` and leaves every other attribute as it was |
| Resources.Header | mpgameserver/http_server.py:166-172 | `@header(name)` makes the list the earlier list (empty when absent) followed by `name`, and leaves every other attribute as it was |
| Resources.Param | mpgameserver/http_server.py:174-180 | `@param(name)` makes the list the earlier list (empty when absent) followed by `name`, and leaves every other attribute as it was |
| Resources.ParseRate | mpgameserver/http_server.py:190-197 | a rate that parses has a known unit, and is the text of its count, a slash and the unit, where `int()` reads that text as the count |
| Resources.Ratelimit | mpgameserver/http_server.py:182-203 | `@ratelimit` raises exactly when the parse fails, and otherwise records `(count, unit)` on the handler |
| Resources.SlashCount | mpgameserver/http_server.py:190-192 | a rate with no slash, or with more than one, raises ValueError |
| Resources.ParseRateRoundTrip | mpgameserver/http_server.py:190-197 | a decimal count and a known unit parse back to themselves |
| Resources.OrderedPropertyMap.constructor | mpgameserver/http_server.py:245-246 | a new namespace is empty, with no member names |
| Resources.OrderedPropertyMap.Set | mpgameserver/http_server.py:248-255 | the value is stored; a new name is appended to `member_names`, and a redefinition keeps its place |
| Resources.FirstDefinitionsListsEach | mpgameserver/http_server.py:248-255 | `member_names` lists every defined name exactly once |
| Resources.FirstDefinitionsPrefix | mpgameserver/http_server.py:248-255 | later definitions only add names at the end of `member_names` |
| Resources.FirstDefinitionsOrder | mpgameserver/http_server.py:248-255 | a name defined before another name's first definition is listed at an earlier position in `member_names` |
| Resources.RouteOf | mpgameserver/http_server.py:406-421 | the route is named `RouteName(class, function)`, its callback is the member, it takes the verb and path from the decorators, and it carries the handler's rate limit (default `(1, "second")`) and options (default `{}`) |
| Resources.UserRouteName | mpgameserver/http_server.py:413-415 | the `get` handler of `UserResource` is the route `user.get` |
| Resources.CollectRoutes | mpgameserver/http_server.py:401-421 | the loop over `member_names` yields `RoutesOf`: one route per public decorated member, in member order |
| Resources.RoutesFromMembers | mpgameserver/http_server.py:406-421 | every route comes from a public decorated member, and routes keep the members' order |
| Resources.MembersGiveRoutes | mpgameserver/http_server.py:406-421 | every public decorated member gives a route |
| Resources.VerbOptions | mpgameserver/http_server.py:132-163 | `put`/`post` routes carry `max_content_length` (5 MiB by default); `get`/`delete` routes carry no options |
| Client.CoerceValueList | mpgameserver/http_server.py:664-674 | the inner loop builds the value list of `CoerceValues`, or stops at the first bad value |
| Client.CoerceDict | mpgameserver/http_server.py:647-676 | the loop over the items yields `Coerce`: the dictionary of encoded names, or the first item's error |
| Client.CoerceFailsAt | mpgameserver/http_server.py:651-673 | the first item that fails decides the error |
| Client.CoerceValuesFailsAt | mpgameserver/http_server.py:665-673 | the first value that fails decides the error |
| Client.CoercedNames | mpgameserver/http_server.py:653-664 | the keys are exactly the encoded names of the items |
| Client.BadNameFails | mpgameserver/http_server.py:655-656 | a name that is neither str nor bytes raises TypeError |
| Client.OneHeader | mpgameserver/http_server.py:658-674 | str and int values are encoded; bytes are iterated as their byte values; None in a list is kept |
| Client.SingleItem | mpgameserver/http_server.py:651-674 | a single item whose values iterate as one element gives a one-entry dictionary |
| Client.Kwargs | mpgameserver/http_server.py:685-686 | every token has an entry |
| Client.KwargsAt | mpgameserver/http_server.py:685-686 | with distinct token names, each token gets its own argument, or "" past the last one |
| Client.BuildRequest | mpgameserver/http_server.py:678-698 | the request is built exactly when there are enough arguments, no token name is a positional field and the headers coerce; it comes from 127.0.0.1 with the route's verb and the coerced headers, and `matches` has one key per token that received an argument |
| Client.TooFew | mpgameserver/http_server.py:681-683 | fewer arguments than `required` raise ValueError |
| Client.PositionalRaises | mpgameserver/http_server.py:688 | with enough arguments, a token whose name is empty or all digits makes `template.format(**kwargs)` raise IndexError |
| Client.OptionalWithoutName | mpgameserver/http_server.py:688 | `/files/:?` has the token `""`, so its template `/files/{}` raises IndexError |
| Client.BuiltPath | mpgameserver/http_server.py:679-691 | for a template without field syntax, a built request's path is the template filled with the value `kwargs` holds for each token (the last argument of a repeated name, "" for a missing one), then `/arg` for each argument past the tokens |
| Client.RepeatedNameLastWins | mpgameserver/http_server.py:685-688 | with the tokens `x`, `x` and the arguments `1`, `2`, both fields are filled with `2` |
| Client.BuiltPathDistinct | mpgameserver/http_server.py:679-691 | for a template without field syntax and with distinct token names, the path is the template filled with the arguments themselves (blanks for missing ones), then `/arg` for each argument past the tokens |
| Client.BuiltRequestMatches | mpgameserver/http_server.py:679-698 | for a literal-and-plain pattern without field syntax and with distinct keyword token names, one non-empty slash-free argument per token builds a request; the route's expression matches its path, and the groups are the request's `matches` |
| Query.SplitOnce | mpgameserver/http_server.py:726-727 | the split at the first separator: None exactly when there is no separator, otherwise a separator-free head, the separator and the rest |
| Query.ParseField | mpgameserver/http_server.py:726-732 | a piece without `=` is a name with value None; otherwise it is split at its first `=`; the field is refused exactly when the name or the value does not decode |
| Query.FieldsFail | mpgameserver/http_server.py:724-733 | the loop raises exactly when one of the non-empty pieces does not decode |
| Query.CollectGroups | mpgameserver/http_server.py:722-733 | a name is in the dictionary exactly when it occurs, and its list holds all its values in order |
| Query.ParseQuery | mpgameserver/http_server.py:722-735 | UnicodeDecodeError exactly when a non-empty piece does not decode; otherwise the loop yields `Collect` of the fields of the non-empty pieces: each name maps to its values in order |
| PathSafety.Normalize | mpgameserver/http_server.py:41-42 | every back-slash becomes a slash, and nothing else changes |
| PathSafety.PosixJoin | mpgameserver/http_server.py:49 | an absolute second path replaces the first; otherwise the result starts with the first and ends with the second |
| PathSafety.DotComponentRefused | mpgameserver/http_server.py:44-47 | a filename with a `.` or `..` component anywhere is refused |
| PathSafety.RefusedHasDotComponent | mpgameserver/http_server.py:44-47 | a refused filename has a `.` or `..` component |
| PathSafety.PathJoinSafeAsWritten | mpgameserver/http_server.py:28-50 | the check refuses exactly the filenames with a `.` or `..` component; an accepted result ends with the filename, starts with the root when the filename is relative, and is the filename itself when it is absolute |
| PathSafety.AbsoluteFilenameEscapes | mpgameserver/http_server.py:28-50 | `path_join_safe("/srv/www", "/etc/passwd")` returns `/etc/passwd`, outside the root |
| PathSafety.PathJoinSafe | mpgameserver/http_server.py:28-53 | a successful result starts with the root at a component boundary, as the docstring promises |
| Text.ZipDictAt | mpgameserver/http_server.py:529 | with distinct keys, the dictionary built from `zip` holds each key's own value |
| Text.ParseInt | mpgameserver/http_server.py:196 | a string `int()` reads holds a digit, and one it reads as negative holds a minus sign |
| Text.ParseIntOfDecimal | mpgameserver/http_server.py:196 | `int(str(n)) == n` |

## Left out

- The Twisted transport (`RequestFactory`, `HTTPFactory`, `HTTPServer.run`) is not part of this model. It is socket, TLS and reactor I/O.
- `Response._get_payload` and its encoders (gzip, `json.dumps`, `Serializable.dumpb`) are left out. `dispatch` is modelled up to the response it returns; payload rendering is foreign code.
- The regular-expression engine is not modelled. Literal pattern parts are matched as literal text, so regex metacharacters inside a literal part are not interpreted.
- `os.path.abspath` in `path_join_safe` is left out. It depends on the process's working directory. `PathJoinSafe` and `PathJoinSafeAsWritten` stop at `os.path.join`.
- `urlparse`, `unquote` and the UTF-8 decoder in `parse_url` are left out (the decoder and `unquote` are parameters). Only the query loop is modelled.
- `time.time()` is replaced by the integer millisecond parameter `ms`. Float truncation is not modelled.
- The metaclass `OrderedClass.__prepare__`/`__new__` is left out. `Resource()` receives the ordered member list that `OrderedPropertyMap` records.
- `CaseInsensitiveDict.__in__` is left out. Python never calls it.
- Concurrency, locking and logging (`mplogger`) are left out.
- The per-route `Route.ratelimit` and the `RateLimiter.blocked` cache are left out. They are stored but never consulted.
- `int()` accepts ASCII digits and whitespace only. Unicode digits and whitespace are not modelled.
- `bytes.upper()` and `str.lower()` map ASCII letters only.
- Python's `bool` is not modelled as a subclass of `int` in `_coerce_dict`.
- `TestClient.__init__` and `_call` are left out. They are attribute plumbing around `_build_request` and `request_response`.
- Client.BuildRequest: `template.format(**kwargs)` is modelled for templates without field syntax only. Token names holding `{`, `}`, `[`, `]`, `.`, `!` or `:` (attribute and index lookups, conversions, format specs) and literal parts holding braces (escapes, stray fields) are formatted as plain substitution, where Python may raise KeyError, ValueError or AttributeError or produce other text. Positional names (empty or ASCII digits) are modelled; names of non-ASCII decimal digits are not.
- Client.BuiltPath: requires a template without field syntax (`PlainTemplate`), the domain where `BuildRequest` is faithful. `Client.BuiltPathDistinct` also requires distinct token names, where each token's value is its own argument.
- Client.BuiltRequestMatches: requires a template without field syntax and distinct keyword token names. Keyword names are where `_build_request` returns a request; with a repeated name every field gets the last argument, so the captures need not equal the arguments.
- The `params`, `fragment` and `body` arguments of `_build_request` are left out. They pass through to the request unchanged.
- `Routing.Router.RegisterRoutes`: does not accept a `Resource` instance. The caller passes `Resources.CollectRoutes`'s list, as `registerRoutes` does after `routes.routes()`.
- `Routing.Router.RegisterRoutes`: states the route table's invariant and not the limiter's validity. The method does not touch the limiter.
- `Counters.RollingCounter.constructor`: requires `interval_ms >= bins`. Otherwise `interval_ms // bins` is 0 and `increment` divides by zero.
- `Counters.RollingCounter.value` is left out. It returns the `_count` field, which `State()` exposes.

## Findings

| source | as written | input that shows it | evidently intended | confidence | as-written member | corrected member |
|---|---|---|---|---|---|---|
| mpgameserver/http_server.py:41-50 | only `.` and `..` components are refused, so an absolute filename passes the check and `os.path.join` drops the root | `path_join_safe("/srv/www", "/etc/passwd")` returns `/etc/passwd` | the docstring's promise that the result has the root directory as prefix; refuse a filename starting with `/` | not executed | PathSafety.PathJoinSafeAsWritten (shown by PathSafety.AbsoluteFilenameEscapes) | PathSafety.PathJoinSafe |
