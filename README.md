# httpie-akamai in Dafny

A model of the two plugins in `httpie_akamai.py`.

- The **Akamai formatter** re-highlights response headers. When the header text mentions
  `x-akamai-request-id` (in any case), it removes the ANSI colour escapes the default colour
  formatter wrote. It then highlights the text again with a lexer that puts five Akamai
  rules in front of the HTTP lexer's own and strips the result. Other header text is left
  as it is. Bodies are left as they are.
- The **Akamai transport adapter** serves the `ak-`, `akp-` and `aks-` URL schemes.
  - `get_connection` maps each of the six schemes onto `http` or `https`. For the
    production (`akp`) and staging (`aks`) networks it also appends the Akamai
    edge-hostname suffix. It records the host before and after the rewrite in two fields
    and raises `Invalid Akamai schema <scheme>` for any other scheme.
  - `add_headers` writes `Host` and `X-httpie-host` when the two recorded hosts differ. It
    then appends the ten Akamai debug header names to `Pragma`, or sets `Pragma` to them.

The project has five modules:

- `Text` (`text.dfy`): the `str` operations used: `lower()`, `find()`, `strip()`.
- `Ansi` (`ansi.dfy`): removal of `ESC [ [0-9;]* m`. `StripSgr` is the single pass that
  `re.sub` makes. `StripSgrFully` repeats that pass until nothing changes.
- `AkamaiLexer` (`lexer.dfy`): the five Akamai rules of `AkamaiHTTPLexer`.
  - Each rule is a predicate on the groups of a match (`Shape`, `Matches`, `Admits`) and
    a matcher that computes the match the regular-expression engine picks.
  - Each matcher succeeds exactly when the pattern matches.
  - The table is tried in order; the first rule that matches claims the line.
- `AkamaiFormatter` (`formatter.dfy`): `format_headers` and `format_body`. The highlighter
  (`pygments.highlight` with the Akamai lexer and the configured output formatter) is a
  function parameter.
- `AkamaiAdapter` (`adapter.dfy`): `AkamaiHTTPAdapter` as the class `HttpAdapter`.
  - It has fields `originalHostname` and `modifiedHostname` (`None` until set).
    `GetConnection` and `AddHeaders` change them and the request.
  - Both methods are proved against a six-entry scheme table (`Edges`) and a
    header-map function (`WithAkamaiHeaders`).
  - The request's headers are a map from the lower-cased name to the name as last
    written and the value, as requests' `CaseInsensitiveDict` keeps them.

Character classes are ASCII (`\d` is `[0-9]`, `\w` is `[A-Za-z0-9_]`, `.` is any character
but a newline), and so is `lower()`. `strip()` removes the characters `str.isspace()`
accepts.

Points about the code that the model keeps as they are:

- The code accepts exactly six schemes: `ak-`, `akp-` and `aks-` each followed by `http`
  or `https` (`AkamaiAdapter.AcceptedSchemes`).
- The rules are matched with `re.match`, a match at the start of the line, not a match of
  the whole line. So `X-Check-Cacheable: NOPE` is claimed by the cacheability rule, which
  colours `NO` (`AkamaiLexer.CacheabilityPrefixExample`).
- An empty host is not rejected: `ak-http` with an empty host keeps it empty.
- The two hostnames live in two fields of the adapter, not in the request. A rejected
  scheme has already overwritten `originalHostname` and leaves `modifiedHostname` as it
  was (`AkamaiAdapter.HttpAdapter.GetConnection`).

## Model

| member | source | states |
|---|---|---|
| Text.Lower | httpie_akamai.py:35 | `lower()` keeps the length and lower-cases every character |
| Text.Find | httpie_akamai.py:35 | `find()` is non-negative exactly when the pattern occurs; it is then the first occurrence |
| Text.StripSpace | httpie_akamai.py:37 | `strip()` leaves no whitespace at either end and returns a piece of the text with only whitespace around it |
| Text.StripSpaceIdempotent | httpie_akamai.py:37 | stripping twice is stripping once |
| Ansi.StripSgr | httpie_akamai.py:36 | the single `re.sub` pass, which never lengthens the text |
| Ansi.MatchSgr | httpie_akamai.py:36 | the length of the escape at the scan position, the only prefix that is one |
| Ansi.StripSgrUnchangedIff | httpie_akamai.py:36 | the substitution changes the text exactly when the text contains an escape |
| Ansi.StripSgrShrinks | httpie_akamai.py:36 | the substitution shortens any text that contains an escape |
| Ansi.NoEscUnchanged | httpie_akamai.py:36 | text without ESC passes the substitution unchanged |
| Ansi.StripSgrNoEscPrefix | httpie_akamai.py:36 | text without ESC ahead of the scan is kept as it is |
| Ansi.EscapeRemoved | httpie_akamai.py:36 | an escape at the scan position is dropped whole and the scan resumes right after it, so every escape the scan meets is replaced |
| Ansi.StripSgrNotIdempotent | httpie_akamai.py:36 | one pass over `ESC ESC [ m [ m` leaves the escape `ESC [ m`, so the pass is not idempotent |
| Ansi.StripSgrFully | httpie_akamai.py:36 | repeated removal leaves no escape and never lengthens the text |
| Ansi.StripSgrFullyIdempotent | httpie_akamai.py:36 | repeated removal is idempotent |
| Ansi.StripSgrFullyNoEsc | httpie_akamai.py:36 | text without ESC is unchanged by repeated removal |
| Ansi.StripSgrFullyAgrees | httpie_akamai.py:36 | repeated removal equals one pass whenever one pass leaves no escape |
| AkamaiLexer.Roles | httpie_akamai.py:57-103 | the token types of a rule's groups: every rule starts with the header name as `String.Escape`, whitespace, the colon as `Operator` and whitespace |
| AkamaiLexer.Shape | httpie_akamai.py:57-103 | what the groups of a match of each rule's pattern may be, group by group |
| AkamaiLexer.Matches | httpie_akamai.py:57-103 | a match of a rule: ordered cut positions from the start of the line whose groups have the rule's shape |
| AkamaiLexer.Admits | httpie_akamai.py:57-103 | the rule's pattern matches at the start of the line |
| AkamaiLexer.MatchCacheKey | httpie_akamai.py:57-65 | any match it returns is a match of the cache-key pattern |
| AkamaiLexer.LastKeyEndLargest | httpie_akamai.py:57 | the greedy `[L/\d]+` ends at the last `/` that lets the rest match, and finds one whenever there is one |
| AkamaiLexer.CacheKeyComplete | httpie_akamai.py:57 | the cache-key matcher succeeds whenever the pattern matches |
| AkamaiLexer.MatchCacheability | httpie_akamai.py:67-73 | any match it returns is a match of the cacheability pattern |
| AkamaiLexer.CacheabilityComplete | httpie_akamai.py:67 | the cacheability matcher succeeds whenever the pattern matches |
| AkamaiLexer.MatchCacheStatus | httpie_akamai.py:75-82 | any match it returns is a match of the HIT/MISS pattern |
| AkamaiLexer.CacheStatusComplete | httpie_akamai.py:75 | the HIT/MISS matcher succeeds whenever the pattern matches |
| AkamaiLexer.MatchSessionInfo | httpie_akamai.py:84-95 | any match it returns is a match of the session-info pattern |
| AkamaiLexer.SessionInfoComplete | httpie_akamai.py:84 | the session-info matcher succeeds whenever the pattern matches |
| AkamaiLexer.LazyNameShortest | httpie_akamai.py:97 | the lazy `.*?` name ends at the first place where the rest of the pattern matches |
| AkamaiLexer.MatchAkamaiHeader | httpie_akamai.py:97-103 | any match it returns is a match of the five-prefix catch-all pattern |
| AkamaiLexer.AkamaiHeaderComplete | httpie_akamai.py:97 | the catch-all matcher succeeds whenever the pattern matches, with a name no longer than in any match |
| AkamaiLexer.PrefixesExclusive | httpie_akamai.py:97 | a line starts with at most one of the five name prefixes |
| AkamaiLexer.Apply | httpie_akamai.py:55-103 | each rule's matcher returns only matches of its pattern |
| AkamaiLexer.ApplyComplete | httpie_akamai.py:55-103 | each rule's matcher succeeds exactly when its pattern matches at the start of the line |
| AkamaiLexer.RolesCoverGroups | httpie_akamai.py:57-103 | every match has one group per token type its rule lists |
| AkamaiLexer.RankOfTable | httpie_akamai.py:55-104 | the table lists the five rules in the order the token list gives them |
| AkamaiLexer.ClassifyFrom | httpie_akamai.py:54-104 | the rules from a position on claim a line only with a match of a rule at or after that position |
| AkamaiLexer.Classify | httpie_akamai.py:54-104 | a claimed line is matched by the claiming rule |
| AkamaiLexer.ClassifyFirstMatch | httpie_akamai.py:54-104 | first match wins: no rule earlier in the table matches a claimed line, and an unclaimed line matches no rule |
| AkamaiLexer.SpecificAlsoGeneric | httpie_akamai.py:56-103 | every line one of the four specific rules matches is matched by the catch-all rule too |
| AkamaiLexer.SpecificBeforeGeneric | httpie_akamai.py:56-103 | a line a specific rule matches is claimed by that rule or an earlier one, never by the catch-all rule |
| AkamaiLexer.ClaimedIff | httpie_akamai.py:97-104 | the Akamai rules claim a line exactly when the catch-all pattern matches it |
| AkamaiLexer.CacheabilityPrefixExample | httpie_akamai.py:67 | `X-Check-Cacheable: NOPE` is claimed by the cacheability rule, which ends its match after `NO` |
| AkamaiFormatter.HasRequestId | httpie_akamai.py:35 | the guard: `x-akamai-request-id` is found in the lower-cased text |
| AkamaiFormatter.HasRequestIdIff | httpie_akamai.py:35 | the guard holds exactly when `x-akamai-request-id` occurs somewhere, ignoring case |
| AkamaiFormatter.HasRequestIdCaseBlind | httpie_akamai.py:35 | lower-casing the text never changes the guard |
| AkamaiFormatter.FormatHeadersAsWritten | httpie_akamai.py:34-39 | with a single substitution pass: text without the marker comes back unchanged; otherwise the highlighted text comes back with no whitespace at either end |
| AkamaiFormatter.FormatHeaders | httpie_akamai.py:34-39 | text without the marker comes back unchanged; otherwise the highlighted text comes back with no whitespace at either end |
| AkamaiFormatter.HighlighterInputClean | httpie_akamai.py:36-37 | with the marker, the highlighter is given text that holds no escape and is no longer than the input |
| AkamaiFormatter.FormatHeadersNoEsc | httpie_akamai.py:36-37 | text without ESC is highlighted as it is, and both versions agree on it |
| AkamaiFormatter.FormatHeadersAgrees | httpie_akamai.py:36 | the two versions agree whenever one pass leaves no escape |
| AkamaiFormatter.FormatHeadersAsWrittenLeaks | httpie_akamai.py:35-37 | headers that carry the marker and `ESC ESC [ m [ m` reach the highlighter as text that still holds an escape |
| AkamaiFormatter.FormatBody | httpie_akamai.py:41-45 | the body is returned unchanged |
| AkamaiAdapter.FindEdge | httpie_akamai.py:122-139 | the `if`/`elif` chain from a position on: an entry with the given scheme, or none when no later entry has it |
| AkamaiAdapter.InvalidSchemeMessage | httpie_akamai.py:139 | the message `Invalid Akamai schema <scheme>`, which ends with the rejected scheme |
| AkamaiAdapter.EdgeFor | httpie_akamai.py:122-139 | the table entry of an accepted scheme, or none when no entry has that scheme |
| AkamaiAdapter.AcceptedSchemes | httpie_akamai.py:122-139 | exactly the six schemes `aks-http`, `akp-http`, `aks-https`, `akp-https`, `ak-http`, `ak-https` are accepted |
| AkamaiAdapter.TargetSchemes | httpie_akamai.py:122-137 | every accepted scheme becomes `http` or `https`, the scheme it names after its `ak-`, `akp-` or `aks-` prefix |
| AkamaiAdapter.SuffixIff | httpie_akamai.py:122-137 | the host gets a suffix exactly for the four production and staging schemes |
| AkamaiAdapter.RecordedHosts | httpie_akamai.py:121-140 | the original host is a prefix of the rewritten one, and the two differ exactly for the production and staging schemes |
| AkamaiAdapter.HttpAdapter.constructor | httpie_akamai.py:116-117 | a fresh adapter has neither hostname |
| AkamaiAdapter.HttpAdapter.GetConnection | httpie_akamai.py:119-141 | records the original host; for an accepted scheme, hands on the URL with the table's scheme and suffixed host and records that host; otherwise raises `Invalid Akamai schema <scheme>` and leaves the rewritten host as it was |
| AkamaiAdapter.SetHeader | httpie_akamai.py:148-153 | writing a header keeps the map keyed by lower-cased names and adds only that header's key |
| AkamaiAdapter.Request.Set | httpie_akamai.py:148-153 | `request.headers[name] = value` replaces the entry under the name's key and keeps the map keyed by lower-cased names |
| AkamaiAdapter.HttpAdapter.AddHeaders | httpie_akamai.py:144-153 | the request's headers become `WithAkamaiHeaders` of the old headers and the two recorded hostnames, still keyed by lower-cased names |
| AkamaiAdapter.WithAkamaiHeaders | httpie_akamai.py:144-153 | the headers after `add_headers`: `Host` and `X-httpie-host` set when the two hostnames differ, then the debug list appended to `Pragma` or set as it |
| AkamaiAdapter.RewrittenHostExample | httpie_akamai.py:144-153 | `Pragma: foo` with a rewritten host becomes `Pragma: foo,` and the debug list, plus `Host` and `X-httpie-host` |
| AkamaiAdapter.HeaderKeys | httpie_akamai.py:148-153 | `Host`, `X-httpie-host` and `Pragma` are stored under `host`, `x-httpie-host` and `pragma` |
| AkamaiAdapter.HostHeadersIff | httpie_akamai.py:147-149 | `Host` and `X-httpie-host` name the original and rewritten hosts when the two differ; otherwise both entries stay as they were |
| AkamaiAdapter.PragmaAppended | httpie_akamai.py:145-153 | `Pragma` keeps its old value and gains `,` and the debug list, or is the debug list when there was none |
| AkamaiAdapter.OtherHeadersUnchanged | httpie_akamai.py:144-153 | only `Host`, `X-httpie-host` and `Pragma` can be added or changed; every other header stays as it was |
| AkamaiAdapter.WithAkamaiHeadersWellKeyed | httpie_akamai.py:148-153 | the headers stay keyed by lower-cased names |
| AkamaiAdapter.Send | httpie_akamai.py:109-153 | on a fresh adapter, a rejected scheme leaves the request as it was; an accepted scheme hands on the rewritten URL and adds the headers for the original and rewritten hosts |

## Left out

- `setup.py` holds packaging metadata only.
- The `exec` of httpie's `colors.py` (lines 19-22) loads foreign code at run time, so the
  model does not capture it.
- `pygments.highlight`, the token types and the output formatter (line 37) are a rendering
  library. The highlighter is a parameter of `FormatHeaders`. The lexer model decides which
  rule claims a line and where its groups are. It does not model the tokens pygments then
  emits (empty groups are dropped there).
- The inherited `HTTPLexer.tokens['root']` rules (line 104) are not modelled. A line no
  Akamai rule claims is reported as unclaimed. Lexing continues after a match, on the
  rest of the line and on later lines. The model covers one match at the start of a line.
- `urlsplit` and `urlunsplit` (lines 120 and 141) are library parsing. The URL is given as
  its five parts.
- `super().get_connection(url, proxies)` (line 142) opens the real connection.
  `GetConnection` returns the URL it would hand on. The `proxies` argument is only passed
  along, so it is not modelled.
- `AkamaiTransportPlugin.get_adapter` (lines 155-161) only registers the plugin.
- Concurrent use of one adapter is out of scope: the model runs the two steps one after
  the other on one instance. `Send` stands for the order in which requests' adapter calls
  the two hooks.
- Python 3 strings give `\w`, `\d` and `lower()` their Unicode meaning. The model uses
  ASCII classes.
- AkamaiAdapter.HttpAdapter.AddHeaders requires any existing `Pragma` value to be a
  string. On a `None` value the `+=` raises a `TypeError`, which the model does not
  reproduce.
- AkamaiLexer.ApplyComplete proves that each matcher succeeds exactly when its pattern
  matches. It does not prove that the matcher's groups are exactly the ones Python's
  backtracking engine picks. That choice is proved only for the greedy key of the
  cache-key rule (`LastKeyEndLargest`) and the lazy name of the catch-all rule
  (`LazyNameShortest`, `AkamaiHeaderComplete`). For the other groups the proofs follow
  the engine's choice but do not state it.

## Findings

| source | as written | input that shows it | evidently intended | confidence | as-written member | corrected member |
|---|---|---|---|---|---|---|
| httpie_akamai.py:36 | one `re.sub` pass removes the escapes it finds. Characters on both sides of a removed escape can join into a new escape, which is then handed to the highlighter (`Ansi.StripSgrNotIdempotent`, `AkamaiFormatter.FormatHeadersAsWrittenLeaks`) | `x-akamai-request-id` followed by `ESC ESC [ m [ m`: the pass leaves `x-akamai-request-id ESC [ m` | the highlighter gets the header text with no colour escape left, so styling is derived from scratch (`AkamaiFormatter.HighlighterInputClean`, `Ansi.StripSgrFullyIdempotent`) | low: such text needs a raw ESC in a header; not executed | AkamaiFormatter.FormatHeadersAsWritten | AkamaiFormatter.FormatHeaders |
