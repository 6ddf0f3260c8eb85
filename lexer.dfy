/** The Akamai rules that AkamaiHTTPLexer puts in front of the inherited
    HTTP lexer rules. Each rule is a regular expression matched at the start
    of a header line (a prefix match: the rest of the line is left to the
    lexer); the first rule of the table that matches claims the line, and a
    line no rule claims is left to the inherited rules.

    A match is given by cut points 0 = c[0] <= c[1] <= ... <= c[n] <= |line|;
    group i is line[c[i]..c[i+1]]. The Shape predicates state what the
    groups of each pattern may be, the matchers compute the match the
    regular-expression engine selects, and each matcher is proved to succeed
    exactly when some cut points fit the shape. Character classes are ASCII:
    \d is [0-9], \w is [A-Za-z0-9_] and . is any character but a newline. */
module AkamaiLexer {
  import Text

  datatype Option<T> = None | Some(value: T)

  /** The token types the rules give their groups: String.Escape, Text,
      Operator, String, Keyword.Reserved and Name.Function. */
  datatype Role = Escape | Whitespace | Operator | Str | Reserved | Function

  datatype Rule = CacheKey | Cacheability | CacheStatus | SessionInfo | AkamaiHeader

  /** The rules in the order the lexer tries them. */
  const Table: seq<Rule> := [CacheKey, Cacheability, CacheStatus, SessionInfo, AkamaiHeader]

  /** The position of each rule in Table. */
  function Rank(rule: Rule): (n: nat)
    ensures n < |Table| && Table[n] == rule
  {
    match rule
    case CacheKey => 0
    case Cacheability => 1
    case CacheStatus => 2
    case SessionInfo => 3
    case AkamaiHeader => 4
  }

  const CacheKeyName := "X-Cache-Key"
  const CacheabilityName := "X-Check-Cacheable"
  const CacheStatusName := "X-Cache"
  const SessionInfoName := "X-Akamai-Session-Info"

  /** The five name prefixes of the catch-all rule, in alternation order. */
  const Prefixes: seq<string> := ["X-Akamai", "X-Cache", "X-Check", "X-Serial", "X-True-Cache"]

  /** The token type of each group of each rule. */
  function Roles(rule: Rule): (r: seq<Role>)
    ensures |r| >= 5 && r[0] == Escape && r[1] == Whitespace && r[2] == Operator && r[3] == Whitespace
  {
    match rule
    case CacheKey => [Escape, Whitespace, Operator, Whitespace, Str, Reserved, Str]
    case Cacheability => [Escape, Whitespace, Operator, Whitespace, Reserved]
    case CacheStatus => [Escape, Whitespace, Operator, Whitespace, Reserved, Str]
    case SessionInfo =>
      [Escape, Whitespace, Operator, Whitespace, Function, Str, Operator, Whitespace, Function, Str]
    case AkamaiHeader => [Escape, Whitespace, Operator, Whitespace, Str]
  }

  // Character classes.
  predicate IsBlank(c: char) { c == ' ' }
  predicate IsDigit(c: char) { '0' <= c <= '9' }
  predicate IsWord(c: char) { 'a' <= c <= 'z' || 'A' <= c <= 'Z' || '0' <= c <= '9' || c == '_' }
  predicate IsKeyChar(c: char) { c == 'L' || c == '/' || IsDigit(c) }
  predicate IsUnit(c: char) { c == 's' || c == 'm' || c == 'h' || c == 'd' }
  predicate NotNewline(c: char) { c != '\n' }

  predicate All(s: string, p: char -> bool) {
    forall k :: 0 <= k < |s| ==> p(s[k])
  }

  predicate IsPrefix(p: string, s: string) {
    |p| <= |s| && s[..|p|] == p
  }

  predicate HasAkamaiPrefix(s: string) {
    exists i :: 0 <= i < |Prefixes| && IsPrefix(Prefixes[i], s)
  }

  // ---------------------------------------------------------------------
  // Positions in a line

  /** Every character of line[i..j] satisfies p. */
  predicate Holds(line: string, i: nat, j: nat, p: char -> bool)
    requires j <= |line|
  {
    forall k :: i <= k < j ==> p(line[k])
  }

  /** The literal lit occurs in line at position i. */
  predicate LitAt(line: string, i: nat, lit: string) {
    i + |lit| <= |line| && line[i..i + |lit|] == lit
  }

  /** Where the longest run of characters satisfying p that starts at i ends. */
  function Span(line: string, i: nat, p: char -> bool): (n: nat)
    requires i <= |line|
    ensures i <= n <= |line| && Holds(line, i, n, p)
    ensures n < |line| ==> !p(line[n])
    decreases |line| - i
  {
    if i < |line| && p(line[i]) then Span(line, i + 1, p) else i
  }

  /** Span is the only end with its two properties. */
  lemma {:induction false} SpanIs(line: string, i: nat, j: nat, p: char -> bool)
    requires i <= j <= |line| && Holds(line, i, j, p)
    requires j < |line| ==> !p(line[j])
    ensures Span(line, i, p) == j
    decreases j - i
  {
    if i < j {
      SpanIs(line, i + 1, j, p);
    }
  }

  /** A span covers every run of characters satisfying p from its start. */
  lemma SpanAtLeast(line: string, i: nat, j: nat, p: char -> bool)
    requires i <= j <= |line| && Holds(line, i, j, p)
    ensures Span(line, i, p) >= j
  {
  }

  /** The characters of a literal found in line. */
  lemma LitChars(line: string, i: nat, lit: string)
    requires LitAt(line, i, lit)
    ensures forall k :: 0 <= k < |lit| ==> line[i + k] == lit[k]
  {
    forall k | 0 <= k < |lit| ensures line[i + k] == lit[k] {
      assert line[i..i + |lit|][k] == line[i + k];
    }
  }

  /** A slice whose characters all satisfy p. */
  lemma AllSlice(line: string, i: nat, j: nat, p: char -> bool)
    requires i <= j <= |line| && Holds(line, i, j, p)
    ensures All(line[i..j], p)
  {
    forall k | 0 <= k < j - i ensures p(line[i..j][k]) {
      assert line[i..j][k] == line[i + k];
    }
  }

  // ---------------------------------------------------------------------
  // Cut points and groups

  /** Cut points inside line. */
  predicate ValidCuts(line: string, c: seq<nat>) {
    && |c| >= 1 && c[0] == 0 && c[|c| - 1] <= |line|
    && forall i, j :: 0 <= i <= j < |c| ==> c[i] <= c[j]
  }

  /** The groups the cut points delimit. */
  function Groups(line: string, c: seq<nat>): (g: seq<string>)
    requires ValidCuts(line, c)
    ensures |g| == |c| - 1
  {
    seq(|c| - 1, i requires 0 <= i < |c| - 1 => line[c[i]..c[i + 1]])
  }

  /** What the groups of each pattern may be. */
  predicate Shape(rule: Rule, g: seq<string>) {
    match rule
    case CacheKey => CacheKeyShape(g)
    case Cacheability => CacheabilityShape(g)
    case CacheStatus => CacheStatusShape(g)
    case SessionInfo => SessionInfoShape(g)
    case AkamaiHeader => AkamaiHeaderShape(g)
  }

  /** "(name)( *)(:)( *)", the start of the four specific patterns. */
  predicate LeadShape(g: seq<string>, name: string) {
    |g| >= 4 && g[0] == name && All(g[1], IsBlank) && g[2] == ":" && All(g[3], IsBlank)
  }

  /** (X-Cache-Key)( *)(:)( *)([L/\d]+/)(\d+[smhd])(/.+) */
  predicate CacheKeyShape(g: seq<string>) {
    && |g| == 7 && LeadShape(g, CacheKeyName)
    && |g[4]| >= 2 && All(g[4], IsKeyChar) && g[4][|g[4]| - 1] == '/'
    && |g[5]| >= 2 && All(g[5][..|g[5]| - 1], IsDigit) && IsUnit(g[5][|g[5]| - 1])
    && |g[6]| >= 2 && g[6][0] == '/' && All(g[6], NotNewline)
  }

  /** (X-Check-Cacheable)( *)(:)( *)(YES|NO) */
  predicate CacheabilityShape(g: seq<string>) {
    |g| == 5 && LeadShape(g, CacheabilityName) && (g[4] == "YES" || g[4] == "NO")
  }

  /** (X-Cache)( *)(:)( *)(\w*HIT\w*|\w*MISS\w*)( ?.*) */
  predicate CacheStatusShape(g: seq<string>) {
    && |g| == 6 && LeadShape(g, CacheStatusName)
    && All(g[4], IsWord) && (Text.Occurs(g[4], "HIT") || Text.Occurs(g[4], "MISS"))
    && All(g[5], NotNewline)
  }

  /** (X-Akamai-Session-Info)( *)(:)( *)(name=)(\w*)(;)( *)(value=)(.*) */
  predicate SessionInfoShape(g: seq<string>) {
    && |g| == 10 && LeadShape(g, SessionInfoName)
    && g[4] == "name=" && All(g[5], IsWord) && g[6] == ";" && All(g[7], IsBlank)
    && g[8] == "value=" && All(g[9], NotNewline)
  }

  /** ((?:X-Akamai|X-Cache|X-Check|X-Serial|X-True-Cache).*?)( *)(:)( *)(.+) */
  predicate AkamaiHeaderShape(g: seq<string>) {
    && |g| == 5 && HasAkamaiPrefix(g[0]) && All(g[0], NotNewline)
    && All(g[1], IsBlank) && g[2] == ":" && All(g[3], IsBlank)
    && |g[4]| >= 1 && All(g[4], NotNewline)
  }

  /** The cut points c are a match of rule's pattern at the start of line. */
  ghost predicate Matches(rule: Rule, line: string, c: seq<nat>) {
    ValidCuts(line, c) && Shape(rule, Groups(line, c))
  }

  /** rule's pattern matches at the start of line. */
  ghost predicate Admits(rule: Rule, line: string) {
    exists c :: Matches(rule, line, c)
  }

  /** The characters of a group whose characters all satisfy p. */
  lemma GroupChars(line: string, c: seq<nat>, i: nat, p: char -> bool)
    requires ValidCuts(line, c) && i < |c| - 1 && All(Groups(line, c)[i], p)
    ensures Holds(line, c[i], c[i + 1], p)
  {
    var g := Groups(line, c)[i];
    forall k | c[i] <= k < c[i + 1] ensures p(line[k]) {
      assert line[k] == g[k - c[i]];
    }
  }

  /** A group whose characters all satisfy p. */
  lemma GroupAll(line: string, c: seq<nat>, i: nat, p: char -> bool)
    requires ValidCuts(line, c) && i < |c| - 1 && Holds(line, c[i], c[i + 1], p)
    ensures All(Groups(line, c)[i], p)
  {
    AllSlice(line, c[i], c[i + 1], p);
  }

  /** A group that is a literal found in line. */
  lemma GroupIs(line: string, c: seq<nat>, i: nat, lit: string)
    requires ValidCuts(line, c) && i < |c| - 1 && c[i + 1] == c[i] + |lit| && LitAt(line, c[i], lit)
    ensures Groups(line, c)[i] == lit
  {
  }

  /** A group that is a literal. */
  lemma GroupLiteral(line: string, c: seq<nat>, i: nat, lit: string)
    requires ValidCuts(line, c) && i < |c| - 1 && Groups(line, c)[i] == lit
    ensures c[i + 1] == c[i] + |lit| && LitAt(line, c[i], lit)
  {
  }

  // ---------------------------------------------------------------------
  // "(name)( *)(:)( *)"

  /** Where the colon is and where the value starts. */
  datatype Head = Head(colon: nat, value: nat)

  /** The start of the four specific rules: both space runs are taken
      whole, as no rule lets its fifth group start with a space. */
  function Lead(line: string, name: string): (r: Option<Head>)
    ensures r.Some? ==> LeadAt(line, name, r.value.colon, r.value.value)
  {
    if IsPrefix(name, line) then
      var b := Span(line, |name|, IsBlank);
      if b < |line| && line[b] == ':' then Some(Head(b, Span(line, b + 1, IsBlank)))
      else None
    else None
  }

  /** "(name)( *)(:)( *)" spans line[..d] with its colon at b, the spaces taken whole. */
  predicate LeadAt(line: string, name: string, b: nat, d: nat) {
    && |name| <= b < |line| && b + 1 <= d <= |line|
    && line[..|name|] == name && line[b] == ':'
    && Holds(line, |name|, b, IsBlank) && Holds(line, b + 1, d, IsBlank)
    && (d < |line| ==> !IsBlank(line[d]))
  }

  /** Lead finds "(name)( *)(:)( *)" wherever it is there. */
  lemma LeadComplete(line: string, name: string, b: nat, d: nat)
    requires LeadAt(line, name, b, d)
    ensures Lead(line, name) == Some(Head(b, d))
  {
    SpanIs(line, |name|, b, IsBlank);
    SpanIs(line, b + 1, d, IsBlank);
  }

  /** The first four groups of cut points that start with those of Lead. */
  lemma LeadGroups(line: string, name: string, b: nat, d: nat, c: seq<nat>)
    requires LeadAt(line, name, b, d)
    requires ValidCuts(line, c) && |c| >= 6
    requires c[1] == |name| && c[2] == b && c[3] == b + 1 && c[4] == d
    ensures LeadShape(Groups(line, c), name)
  {
    var g := Groups(line, c);
    assert g[0] == line[..|name|];
    AllSlice(line, |name|, b, IsBlank);
    assert g[2] == [line[b]];
    AllSlice(line, b + 1, d, IsBlank);
  }

  /** A match whose first four groups are "(name)( *)(:)( *)" and whose
      fifth group starts with a non-space starts where Lead says. */
  lemma LeadOfMatch(line: string, name: string, c: seq<nat>)
    requires ValidCuts(line, c) && |c| >= 6 && LeadShape(Groups(line, c), name)
    requires c[4] < c[5] && !IsBlank(line[c[4]])
    ensures LeadAt(line, name, c[2], c[4])
  {
    var g := Groups(line, c);
    assert g[0] == line[..c[1]];
    GroupChars(line, c, 1, IsBlank);
    assert line[c[2]] == g[2][0];
    GroupChars(line, c, 3, IsBlank);
  }

  // ---------------------------------------------------------------------
  // (X-Cache-Key)( *)(:)( *)([L/\d]+/)(\d+[smhd])(/.+)

  /** "(\d+[smhd])(/.+)" matches at position t: the digits are taken whole,
      as the unit letter is not a digit. */
  predicate TtlAt(line: string, t: nat)
    requires t <= |line|
  {
    var u := Span(line, t, IsDigit);
    u > t && u + 2 < |line| && IsUnit(line[u]) && line[u + 1] == '/' && line[u + 2] != '\n'
  }

  /** The key group may end with the '/' at position k. */
  predicate KeyEndsAt(line: string, k: nat) {
    k < |line| && line[k] == '/' && TtlAt(line, k + 1)
  }

  /** The greedy [L/\d]+ gives characters back one at a time: the largest
      k with lo <= k < hi at which the key group may end. */
  function LastKeyEnd(line: string, lo: nat, hi: nat): (r: Option<nat>)
    ensures r.Some? ==> lo <= r.value < hi && KeyEndsAt(line, r.value)
    decreases hi
  {
    if hi <= lo then None
    else if KeyEndsAt(line, hi - 1) then Some(hi - 1)
    else LastKeyEnd(line, lo, hi - 1)
  }

  /** LastKeyEnd finds the largest end, and finds one whenever there is one. */
  lemma {:induction false} LastKeyEndLargest(line: string, lo: nat, hi: nat)
    ensures LastKeyEnd(line, lo, hi).Some? ==> forall k :: LastKeyEnd(line, lo, hi).value < k < hi ==> !KeyEndsAt(line, k)
    ensures LastKeyEnd(line, lo, hi).None? ==> forall k :: lo <= k < hi ==> !KeyEndsAt(line, k)
    decreases hi
  {
    if lo < hi && !KeyEndsAt(line, hi - 1) {
      LastKeyEndLargest(line, lo, hi - 1);
    }
  }

  function MatchCacheKey(line: string): (r: Option<seq<nat>>)
    ensures r.None? || Matches(CacheKey, line, r.value)
  {
    match Lead(line, CacheKeyName)
    case None => None
    case Some(Head(b, d)) => CacheKeyAfter(line, b, d)
  }

  /** The cache-key pattern after a lead with its colon at b and its value at d. */
  function CacheKeyAfter(line: string, b: nat, d: nat): (r: Option<seq<nat>>)
    requires LeadAt(line, CacheKeyName, b, d)
    ensures r.None? || Matches(CacheKey, line, r.value)
  {
    var m := Span(line, d, IsKeyChar);
    match LastKeyEnd(line, d + 1, m)
    case None => None
    case Some(k) =>
      var u := Span(line, k + 1, IsDigit);
      var e := Span(line, u + 1, NotNewline);
      CacheKeySound(line, b, d, m, k, u, e);
      Some(CacheKeyCuts(line, b, d, k + 1, u, e))
  }

  /** The cache-key pattern with its colon at b, its key on line[d..t],
      its unit letter at u and its end at e. */
  predicate CacheKeyAt(line: string, b: nat, d: nat, t: nat, u: nat, e: nat) {
    && LeadAt(line, CacheKeyName, b, d)
    && d + 2 <= t < u && u + 3 <= e <= |line|
    && line[t - 1] == '/' && Holds(line, d, t, IsKeyChar)
    && Holds(line, t, u, IsDigit) && IsUnit(line[u])
    && line[u + 1] == '/' && Holds(line, u + 1, e, NotNewline)
  }

  function CacheKeyCuts(line: string, b: nat, d: nat, t: nat, u: nat, e: nat): (c: seq<nat>)
    requires CacheKeyAt(line, b, d, t, u, e)
    ensures Matches(CacheKey, line, c)
  {
    var c := [0, |CacheKeyName|, b, b + 1, d, t, u + 1, e];
    assert |c| == 8 && c[0] == 0 && c[1] == 11 && c[2] == b && c[3] == b + 1;
    assert c[4] == d && c[5] == t && c[6] == u + 1 && c[7] == e;
    assert ValidCuts(line, c);
    CacheKeyGroups(line, c);
    c
  }


  /** Cut points that delimit the groups of the cache-key pattern. */
  lemma CacheKeyGroups(line: string, c: seq<nat>)
    requires ValidCuts(line, c) && |c| == 8 && c[4] + 2 <= c[5] && c[5] + 2 <= c[6] && c[6] + 2 <= c[7]
    requires c[1] == |CacheKeyName| && c[3] == c[2] + 1 && LeadAt(line, CacheKeyName, c[2], c[4])
    requires Holds(line, c[4], c[5], IsKeyChar) && line[c[5] - 1] == '/'
    requires Holds(line, c[5], c[6] - 1, IsDigit) && IsUnit(line[c[6] - 1])
    requires line[c[6]] == '/' && Holds(line, c[6], c[7], NotNewline)
    ensures Matches(CacheKey, line, c)
  {
    LeadGroups(line, CacheKeyName, c[2], c[4], c);
    GroupAll(line, c, 4, IsKeyChar);
    AllSlice(line, c[5], c[6] - 1, IsDigit);
    assert Groups(line, c)[5][..c[6] - 1 - c[5]] == line[c[5]..c[6] - 1];
    GroupAll(line, c, 6, NotNewline);
  }

  /** The positions the matcher computes fit the cache-key pattern. */
  lemma CacheKeySound(line: string, b: nat, d: nat, m: nat, k: nat, u: nat, e: nat)
    requires LeadAt(line, CacheKeyName, b, d)
    requires m == Span(line, d, IsKeyChar)
    requires d + 1 <= k < m && KeyEndsAt(line, k)
    requires u == Span(line, k + 1, IsDigit)
    requires e == Span(line, u + 1, NotNewline)
    ensures CacheKeyAt(line, b, d, k + 1, u, e)
  {
    SpanAtLeast(line, u + 1, u + 3, NotNewline);
  }

  /** The positions of any cache-key match. */
  lemma CacheKeyFacts(line: string, c: seq<nat>)
    requires Matches(CacheKey, line, c)
    ensures |c| == 8 && CacheKeyAt(line, c[2], c[4], c[5], c[6] - 1, c[7])
  {
    var g := Groups(line, c);
    assert line[c[4]] == g[4][0];
    LeadOfMatch(line, CacheKeyName, c);
    GroupChars(line, c, 4, IsKeyChar);
    assert line[c[5] - 1] == g[4][|g[4]| - 1];
    forall k | c[5] <= k < c[6] - 1 ensures IsDigit(line[k]) {
      assert line[k] == g[5][..|g[5]| - 1][k - c[5]];
    }
    assert line[c[6] - 1] == g[5][|g[5]| - 1];
    assert line[c[6]] == g[6][0];
    GroupChars(line, c, 6, NotNewline);
  }

  /** The matcher finds a match wherever the positions fit. */
  lemma CacheKeyFound(line: string, b: nat, d: nat, t: nat, u: nat, e: nat)
    requires CacheKeyAt(line, b, d, t, u, e)
    ensures MatchCacheKey(line).Some?
  {
    LeadComplete(line, CacheKeyName, b, d);
    SpanAtLeast(line, d, t, IsKeyChar);
    SpanIs(line, t, u, IsDigit);
    assert KeyEndsAt(line, t - 1);
    LastKeyEndLargest(line, d + 1, Span(line, d, IsKeyChar));
  }

  lemma CacheKeyComplete(line: string, c: seq<nat>)
    requires Matches(CacheKey, line, c)
    ensures MatchCacheKey(line).Some?
  {
    CacheKeyFacts(line, c);
    CacheKeyFound(line, c[2], c[4], c[5], c[6] - 1, c[7]);
  }

  // ---------------------------------------------------------------------
  // (X-Check-Cacheable)( *)(:)( *)(YES|NO)

  function MatchCacheability(line: string): (r: Option<seq<nat>>)
    ensures r.None? || Matches(Cacheability, line, r.value)
  {
    match Lead(line, CacheabilityName)
    case None => None
    case Some(Head(b, d)) =>
      var n := if LitAt(line, d, "YES") then 3 else if LitAt(line, d, "NO") then 2 else 0;
      if n == 0 then None
      else
        Some(CacheabilityCuts(line, b, d, n))
  }

  /** The cacheability pattern with its colon at b and a value of length n at d. */
  predicate CacheabilityAt(line: string, b: nat, d: nat, n: nat) {
    && LeadAt(line, CacheabilityName, b, d)
    && ((n == 3 && LitAt(line, d, "YES")) || (n == 2 && LitAt(line, d, "NO")))
  }

  function CacheabilityCuts(line: string, b: nat, d: nat, n: nat): (c: seq<nat>)
    requires CacheabilityAt(line, b, d, n)
    ensures Matches(Cacheability, line, c)
  {
    var c := [0, |CacheabilityName|, b, b + 1, d, d + n];
    assert ValidCuts(line, c);
    LeadGroups(line, CacheabilityName, b, d, c);
    var g := Groups(line, c);
    assert g[4] == line[d..d + n];
    assert CacheabilityShape(g);
    c
  }


  /** The positions of any cacheability match. */
  lemma CacheabilityFacts(line: string, c: seq<nat>)
    requires Matches(Cacheability, line, c)
    ensures |c| == 6 && CacheabilityAt(line, c[2], c[4], c[5] - c[4])
  {
    var g := Groups(line, c);
    assert line[c[4]] == g[4][0];
    LeadOfMatch(line, CacheabilityName, c);
  }

  /** The matcher finds a match wherever the positions fit. */
  lemma CacheabilityFound(line: string, b: nat, d: nat, n: nat)
    requires CacheabilityAt(line, b, d, n)
    ensures MatchCacheability(line).Some?
  {
    LeadComplete(line, CacheabilityName, b, d);
  }

  lemma CacheabilityComplete(line: string, c: seq<nat>)
    requires Matches(Cacheability, line, c)
    ensures MatchCacheability(line).Some?
  {
    CacheabilityFacts(line, c);
    CacheabilityFound(line, c[2], c[4], c[5] - c[4]);
  }

  // ---------------------------------------------------------------------
  // (X-Cache)( *)(:)( *)(\w*HIT\w*|\w*MISS\w*)( ?.*)

  /** Both alternatives make the fifth group the whole run of word
      characters, provided HIT (or MISS) occurs in it. */
  function MatchCacheStatus(line: string): (r: Option<seq<nat>>)
    ensures r.None? || Matches(CacheStatus, line, r.value)
  {
    match Lead(line, CacheStatusName)
    case None => None
    case Some(Head(b, d)) =>
      var w := Span(line, d, IsWord);
      if Text.Occurs(line[d..w], "HIT") || Text.Occurs(line[d..w], "MISS") then
        var e := Span(line, w, NotNewline);
        Some(CacheStatusCuts(line, b, d, w, e))
      else None
  }

  /** The cache-status pattern with its colon at b, its status word on
      line[d..w] and its end at e. */
  predicate CacheStatusAt(line: string, b: nat, d: nat, w: nat, e: nat) {
    && LeadAt(line, CacheStatusName, b, d)
    && d <= w <= e <= |line| && Holds(line, d, w, IsWord)
    && (Text.Occurs(line[d..w], "HIT") || Text.Occurs(line[d..w], "MISS"))
    && Holds(line, w, e, NotNewline)
  }

  function CacheStatusCuts(line: string, b: nat, d: nat, w: nat, e: nat): (c: seq<nat>)
    requires CacheStatusAt(line, b, d, w, e)
    ensures Matches(CacheStatus, line, c)
  {
    var c := [0, |CacheStatusName|, b, b + 1, d, w, e];
    assert ValidCuts(line, c);
    LeadGroups(line, CacheStatusName, b, d, c);
    var g := Groups(line, c);
    AllSlice(line, d, w, IsWord);
    assert g[4] == line[d..w];
    AllSlice(line, w, e, NotNewline);
    assert g[5] == line[w..e];
    assert CacheStatusShape(g);
    c
  }


  /** An occurrence in a prefix of t is an occurrence in t. */
  lemma OccursInLonger(s: string, t: string, pat: string)
    requires Text.Occurs(s, pat) && |s| <= |t| && t[..|s|] == s
    ensures Text.Occurs(t, pat)
  {
    var i: nat :| i <= |s| && Text.OccursAt(s, pat, i);
    assert t[i..i + |pat|] == s[i..i + |pat|];
    assert Text.OccursAt(t, pat, i);
  }

  /** HIT or MISS occurs only in a non-empty word. */
  lemma OccursNonEmpty(s: string)
    requires Text.Occurs(s, "HIT") || Text.Occurs(s, "MISS")
    ensures |s| > 0
  {
    if Text.Occurs(s, "HIT") {
      var i: nat :| i <= |s| && Text.OccursAt(s, "HIT", i);
    } else {
      var i: nat :| i <= |s| && Text.OccursAt(s, "MISS", i);
    }
  }

  /** The positions of any cache-status match. */
  lemma CacheStatusFacts(line: string, c: seq<nat>)
    requires Matches(CacheStatus, line, c)
    ensures |c| == 7 && c[4] < c[5] && CacheStatusAt(line, c[2], c[4], c[5], c[6])
  {
    var g := Groups(line, c);
    OccursNonEmpty(g[4]);
    assert line[c[4]] == g[4][0];
    LeadOfMatch(line, CacheStatusName, c);
    GroupChars(line, c, 4, IsWord);
    GroupChars(line, c, 5, NotNewline);
    assert g[4] == line[c[4]..c[5]];
  }

  /** The matcher finds a match wherever the positions fit. */
  lemma CacheStatusFound(line: string, b: nat, d: nat, w: nat, e: nat)
    requires CacheStatusAt(line, b, d, w, e) && d < w
    ensures MatchCacheStatus(line).Some?
  {
    LeadComplete(line, CacheStatusName, b, d);
    SpanAtLeast(line, d, w, IsWord);
    var x := Span(line, d, IsWord);
    assert line[d..x][..w - d] == line[d..w];
    if Text.Occurs(line[d..w], "HIT") {
      OccursInLonger(line[d..w], line[d..x], "HIT");
    } else {
      OccursInLonger(line[d..w], line[d..x], "MISS");
    }
  }

  lemma CacheStatusComplete(line: string, c: seq<nat>)
    requires Matches(CacheStatus, line, c)
    ensures MatchCacheStatus(line).Some?
  {
    CacheStatusFacts(line, c);
    CacheStatusFound(line, c[2], c[4], c[5], c[6]);
  }

  // ---------------------------------------------------------------------
  // (X-Akamai-Session-Info)( *)(:)( *)(name=)(\w*)(;)( *)(value=)(.*)

  function MatchSessionInfo(line: string): (r: Option<seq<nat>>)
    ensures r.None? || Matches(SessionInfo, line, r.value)
  {
    match Lead(line, SessionInfoName)
    case None => None
    case Some(Head(b, d)) =>
      if !LitAt(line, d, "name=") then None
      else
        var w := Span(line, d + 5, IsWord);
        if w < |line| && line[w] == ';' then
          var v := Span(line, w + 1, IsBlank);
          if LitAt(line, v, "value=") then
            var e := Span(line, v + 6, NotNewline);
            SessionInfoSound(line, b, d, w, v, e);
            Some(SessionInfoCuts(line, b, d, w, v, e))
          else None
        else None
  }

  /** The session-info pattern with its colon at b, "name=" at d, the
      semicolon at w, "value=" at v and its end at e. */
  predicate SessionInfoAt(line: string, b: nat, d: nat, w: nat, v: nat, e: nat) {
    && LeadAt(line, SessionInfoName, b, d)
    && d + 5 <= w < v && v + 6 <= e <= |line|
    && LitAt(line, d, "name=") && Holds(line, d + 5, w, IsWord) && line[w] == ';'
    && Holds(line, w + 1, v, IsBlank)
    && LitAt(line, v, "value=") && Holds(line, v + 6, e, NotNewline)
  }

  function SessionInfoCuts(line: string, b: nat, d: nat, w: nat, v: nat, e: nat): (c: seq<nat>)
    requires SessionInfoAt(line, b, d, w, v, e)
    ensures Matches(SessionInfo, line, c)
  {
    var c := [0, |SessionInfoName|, b, b + 1, d, d + 5, w, w + 1, v, v + 6, e];
    assert |c| == 11 && c[0] == 0 && c[1] == 21 && c[2] == b && c[3] == b + 1 && c[4] == d && c[5] == d + 5;
    assert c[6] == w && c[7] == w + 1 && c[8] == v && c[9] == v + 6 && c[10] == e;
    assert ValidCuts(line, c);
    SessionInfoGroups(line, c);
    c
  }


  /** Cut points that delimit the groups of the session-info pattern. */
  lemma SessionInfoGroups(line: string, c: seq<nat>)
    requires ValidCuts(line, c) && |c| == 11
    requires c[1] == |SessionInfoName| && c[3] == c[2] + 1 && LeadAt(line, SessionInfoName, c[2], c[4])
    requires c[5] == c[4] + 5 && c[7] == c[6] + 1 && c[9] == c[8] + 6
    requires LitAt(line, c[4], "name=") && Holds(line, c[5], c[6], IsWord) && line[c[6]] == ';'
    requires Holds(line, c[7], c[8], IsBlank) && LitAt(line, c[8], "value=") && Holds(line, c[9], c[10], NotNewline)
    ensures Matches(SessionInfo, line, c)
  {
    LeadGroups(line, SessionInfoName, c[2], c[4], c);
    GroupIs(line, c, 4, "name=");
    GroupAll(line, c, 5, IsWord);
    assert LitAt(line, c[6], ";");
    GroupIs(line, c, 6, ";");
    GroupAll(line, c, 7, IsBlank);
    GroupIs(line, c, 8, "value=");
    GroupAll(line, c, 9, NotNewline);
  }

  lemma SessionInfoSound(line: string, b: nat, d: nat, w: nat, v: nat, e: nat)
    requires Lead(line, SessionInfoName) == Some(Head(b, d)) && LitAt(line, d, "name=")
    requires w == Span(line, d + 5, IsWord) && w < |line| && line[w] == ';'
    requires v == Span(line, w + 1, IsBlank) && LitAt(line, v, "value=")
    requires e == Span(line, v + 6, NotNewline)
    ensures SessionInfoAt(line, b, d, w, v, e)
  {
  }

  /** The positions of any session-info match. */
  lemma SessionInfoFacts(line: string, c: seq<nat>)
    requires Matches(SessionInfo, line, c)
    ensures |c| == 11 && SessionInfoAt(line, c[2], c[4], c[6], c[8], c[10])
  {
    SessionInfoTailFacts(line, c);
    LitChars(line, c[4], "name=");
    LeadOfMatch(line, SessionInfoName, c);
  }

  /** The positions after the lead of a session-info match. */
  lemma SessionInfoTailFacts(line: string, c: seq<nat>)
    requires ValidCuts(line, c) && |c| == 11
    requires var g := Groups(line, c);
             && g[4] == "name=" && All(g[5], IsWord) && g[6] == ";" && All(g[7], IsBlank)
             && g[8] == "value=" && All(g[9], NotNewline)
    ensures c[5] == c[4] + 5 && c[7] == c[6] + 1 && c[9] == c[8] + 6
    ensures LitAt(line, c[4], "name=") && Holds(line, c[5], c[6], IsWord) && line[c[6]] == ';'
    ensures Holds(line, c[7], c[8], IsBlank) && LitAt(line, c[8], "value=") && Holds(line, c[9], c[10], NotNewline)
  {
    GroupLiteral(line, c, 4, "name=");
    GroupChars(line, c, 5, IsWord);
    GroupLiteral(line, c, 6, ";");
    GroupChars(line, c, 7, IsBlank);
    GroupLiteral(line, c, 8, "value=");
    GroupChars(line, c, 9, NotNewline);
  }

  /** The matcher finds a match wherever the positions fit. */
  lemma SessionInfoFound(line: string, b: nat, d: nat, w: nat, v: nat, e: nat)
    requires SessionInfoAt(line, b, d, w, v, e)
    ensures MatchSessionInfo(line).Some?
  {
    LitChars(line, d, "name=");
    LeadComplete(line, SessionInfoName, b, d);
    SpanIs(line, d + 5, w, IsWord);
    LitChars(line, v, "value=");
    SpanIs(line, w + 1, v, IsBlank);
  }

  lemma SessionInfoComplete(line: string, c: seq<nat>)
    requires Matches(SessionInfo, line, c)
    ensures MatchSessionInfo(line).Some?
  {
    SessionInfoFacts(line, c);
    SessionInfoFound(line, c[2], c[4], c[6], c[8], c[10]);
  }

  // ---------------------------------------------------------------------
  // ((?:X-Akamai|X-Cache|X-Check|X-Serial|X-True-Cache).*?)( *)(:)( *)(.+)

  /** No line starts with two of the five prefixes: they differ at index 2 or 3. */
  lemma PrefixesExclusive(s: string, i: nat, j: nat)
    requires i < |Prefixes| && j < |Prefixes|
    requires IsPrefix(Prefixes[i], s) && IsPrefix(Prefixes[j], s)
    ensures i == j
  {
    assert s[..|Prefixes[i]|][2] == s[2] && s[..|Prefixes[j]|][2] == s[2];
    assert s[..|Prefixes[i]|][3] == s[3] && s[..|Prefixes[j]|][3] == s[3];
  }

  /** A name that starts the line and holds no newline. */
  lemma NameChars(line: string, name: string)
    requires IsPrefix(name, line) && forall k :: 0 <= k < |name| ==> name[k] != '\n'
    ensures Holds(line, 0, |name|, NotNewline)
  {
    forall k | 0 <= k < |name| ensures line[k] != '\n' {
      assert line[k] == line[..|name|][k];
    }
  }

  /** The prefixes hold no newline. */
  lemma PrefixChars(line: string, i: nat)
    requires i < |Prefixes| && IsPrefix(Prefixes[i], line)
    ensures Holds(line, 0, |Prefixes[i]|, NotNewline)
  {
    NameChars(line, Prefixes[i]);
  }

  /** "( *)(:)( *)(.+)" matches at q: the spaces before the colon are taken
      whole, and the value needs a character other than a newline right
      after the colon (a space there may be given back to (.+)). */
  predicate TailAt(line: string, q: nat)
    requires q <= |line|
  {
    var b := Span(line, q, IsBlank);
    b + 1 < |line| && line[b] == ':' && line[b + 1] != '\n'
  }

  /** The lazy .*?: the first name end from q on at which the rest of the
      pattern matches, the name running over no newline. */
  function LazyName(line: string, q: nat): (r: Option<nat>)
    requires q <= |line| && Holds(line, 0, q, NotNewline)
    ensures r.Some? ==> q <= r.value < |line| && Holds(line, 0, r.value, NotNewline) && TailAt(line, r.value)
    decreases |line| - q
  {
    if TailAt(line, q) then Some(q)
    else if q < |line| && line[q] != '\n' then LazyName(line, q + 1)
    else None
  }

  /** LazyName succeeds whenever some end n at or after q fits, and ends the
      name no later than n. */
  lemma {:induction false} LazyNameShortest(line: string, q: nat, n: nat)
    requires q <= n <= |line| && Holds(line, 0, n, NotNewline) && TailAt(line, n)
    ensures LazyName(line, q).Some? && LazyName(line, q).value <= n
    decreases n - q
  {
    if !TailAt(line, q) {
      LazyNameShortest(line, q + 1, n);
    }
  }

  /** The catch-all pattern with prefix i, its name on line[..q], its colon
      at b and its value on line[d..e]. */
  predicate HeaderAt(line: string, i: nat, q: nat, b: nat, d: nat, e: nat) {
    && i < |Prefixes| && IsPrefix(Prefixes[i], line)
    && |Prefixes[i]| <= q <= b && b + 1 <= d < e <= |line|
    && Holds(line, 0, q, NotNewline) && Holds(line, q, b, IsBlank) && line[b] == ':'
    && Holds(line, b + 1, d, IsBlank) && Holds(line, d, e, NotNewline)
  }

  /** Cut points that delimit the groups of the catch-all pattern. */
  lemma HeaderGroups(line: string, c: seq<nat>, i: nat)
    requires ValidCuts(line, c) && |c| == 6 && c[3] == c[2] + 1
    requires HeaderAt(line, i, c[1], c[2], c[4], c[5])
    ensures Matches(AkamaiHeader, line, c)
  {
    var g := Groups(line, c);
    assert g[0][..|Prefixes[i]|] == line[..|Prefixes[i]|];
    assert IsPrefix(Prefixes[i], g[0]);
    GroupAll(line, c, 0, NotNewline);
    GroupAll(line, c, 1, IsBlank);
    assert LitAt(line, c[2], ":");
    GroupIs(line, c, 2, ":");
    GroupAll(line, c, 3, IsBlank);
    GroupAll(line, c, 4, NotNewline);
  }

  /** The cut points of the catch-all pattern at the given positions. */
  function HeaderCuts(line: string, i: nat, q: nat, b: nat, d: nat, e: nat): (c: seq<nat>)
    requires HeaderAt(line, i, q, b, d, e)
    ensures |c| == 6 && c[1] == q
    ensures Matches(AkamaiHeader, line, c)
  {
    var c := [0, q, b, b + 1, d, e];
    assert |c| == 6 && c[0] == 0 && c[1] == q && c[2] == b && c[3] == b + 1 && c[4] == d && c[5] == e;
    assert ValidCuts(line, c);
    HeaderGroups(line, c, i);
    c
  }

  /** The rest of the catch-all pattern after a name ending at q: the colon
      is where the spaces end, and (.+) takes the rest of the line, or the
      last space when nothing else follows the colon. */
  function HeaderAfter(line: string, i: nat, q: nat): (c: seq<nat>)
    requires i < |Prefixes| && IsPrefix(Prefixes[i], line) && |Prefixes[i]| <= q <= |line|
    requires Holds(line, 0, q, NotNewline) && TailAt(line, q)
    ensures |c| == 6 && c[1] == q
    ensures Matches(AkamaiHeader, line, c)
  {
    var b := Span(line, q, IsBlank);
    var v := Span(line, b + 1, IsBlank);
    if v < |line| && line[v] != '\n' then
      HeaderCuts(line, i, q, b, v, Span(line, v, NotNewline))
    else
      HeaderCuts(line, i, q, b, v - 1, v)
  }

  /** The alternation tries the prefixes in order: for each that starts the
      line, the lazy name and the rest of the pattern. */
  function Alternatives(line: string, i: nat): (r: Option<seq<nat>>)
    requires i <= |Prefixes|
    ensures r.None? || (|r.value| == 6 && Matches(AkamaiHeader, line, r.value))
    decreases |Prefixes| - i
  {
    if i == |Prefixes| then None
    else if IsPrefix(Prefixes[i], line) then
      PrefixChars(line, i);
      match LazyName(line, |Prefixes[i]|)
      case Some(q) => Some(HeaderAfter(line, i, q))
      case None => Alternatives(line, i + 1)
    else Alternatives(line, i + 1)
  }

  function MatchAkamaiHeader(line: string): (r: Option<seq<nat>>)
    ensures r.None? || Matches(AkamaiHeader, line, r.value)
  {
    Alternatives(line, 0)
  }

  /** The positions of any catch-all match, with the prefix it starts with. */
  lemma HeaderFacts(line: string, c: seq<nat>) returns (i: nat)
    requires Matches(AkamaiHeader, line, c)
    ensures |c| == 6 && c[3] == c[2] + 1 && HeaderAt(line, i, c[1], c[2], c[4], c[5])
  {
    var g := Groups(line, c);
    i :| 0 <= i < |Prefixes| && IsPrefix(Prefixes[i], g[0]);
    assert line[..|Prefixes[i]|] == g[0][..|Prefixes[i]|];
    GroupChars(line, c, 0, NotNewline);
    GroupChars(line, c, 1, IsBlank);
    GroupLiteral(line, c, 2, ":");
    LitChars(line, c[2], ":");
    GroupChars(line, c, 3, IsBlank);
    GroupChars(line, c, 4, NotNewline);
  }

  /** Where a catch-all match has its name end, the rest of the pattern matches. */
  lemma TailOfHeader(line: string, i: nat, q: nat, b: nat, d: nat, e: nat)
    requires HeaderAt(line, i, q, b, d, e)
    ensures TailAt(line, q)
  {
    SpanIs(line, q, b, IsBlank);
  }

  /** The alternation reaches the prefix the line starts with. */
  lemma {:induction false} AlternativesReach(line: string, j: nat, i: nat, q: nat)
    requires j <= i < |Prefixes| && IsPrefix(Prefixes[i], line) && |Prefixes[i]| <= q <= |line|
    requires Holds(line, 0, q, NotNewline) && TailAt(line, q)
    ensures Alternatives(line, j).Some? && Alternatives(line, j).value[1] <= q
    decreases i - j
  {
    if IsPrefix(Prefixes[j], line) {
      PrefixesExclusive(line, i, j);
      PrefixChars(line, j);
      LazyNameShortest(line, |Prefixes[j]|, q);
    } else {
      AlternativesReach(line, j + 1, i, q);
    }
  }

  /** The catch-all matcher finds a match whenever the pattern matches, and
      its name group is no longer than that of any match: .*? is lazy. */
  lemma AkamaiHeaderComplete(line: string, c: seq<nat>)
    requires Matches(AkamaiHeader, line, c)
    ensures MatchAkamaiHeader(line).Some? && MatchAkamaiHeader(line).value[1] <= c[1]
  {
    var i := HeaderFacts(line, c);
    TailOfHeader(line, i, c[1], c[2], c[4], c[5]);
    AlternativesReach(line, 0, i, c[1]);
  }

  // ---------------------------------------------------------------------
  // The rule table

  /** The matcher of each rule. */
  function Apply(rule: Rule, line: string): (r: Option<seq<nat>>)
    ensures r.None? || Matches(rule, line, r.value)
  {
    match rule
    case CacheKey => MatchCacheKey(line)
    case Cacheability => MatchCacheability(line)
    case CacheStatus => MatchCacheStatus(line)
    case SessionInfo => MatchSessionInfo(line)
    case AkamaiHeader => MatchAkamaiHeader(line)
  }

  /** Each matcher succeeds exactly when its pattern matches at the start of the line. */
  lemma ApplyComplete(rule: Rule, line: string)
    ensures Apply(rule, line).Some? <==> Admits(rule, line)
  {
    if Apply(rule, line).Some? {
      assert Matches(rule, line, Apply(rule, line).value);
    }
    if Admits(rule, line) {
      var c :| Matches(rule, line, c);
      match rule
      case CacheKey => CacheKeyComplete(line, c);
      case Cacheability => CacheabilityComplete(line, c);
      case CacheStatus => CacheStatusComplete(line, c);
      case SessionInfo => SessionInfoComplete(line, c);
      case AkamaiHeader => AkamaiHeaderComplete(line, c);
    }
  }

  /** Every match has as many groups as its rule gives token types. */
  lemma RolesCoverGroups(rule: Rule, line: string, c: seq<nat>)
    requires Matches(rule, line, c)
    ensures |Roles(rule)| == |c| - 1
  {
  }

  /** The rule that claims a line, with the cut points of its match. */
  datatype Claim = Claim(rule: Rule, cuts: seq<nat>)

  /** The rules of the table from position n on: the first that matches. */
  function ClassifyFrom(line: string, n: nat): (r: Option<Claim>)
    requires n <= |Table|
    ensures r.None? || (n <= Rank(r.value.rule) && Matches(r.value.rule, line, r.value.cuts))
    decreases |Table| - n
  {
    if n == |Table| then None
    else
      var rule := Table[n];
      RankOfTable(n);
      match Apply(rule, line)
      case Some(c) => Some(Claim(rule, c))
      case None => ClassifyFrom(line, n + 1)
  }

  /** Rank inverts Table. */
  lemma RankOfTable(n: nat)
    requires n < |Table|
    ensures Rank(Table[n]) == n
  {
  }

  /** The rule of the Akamai table that claims the line, if any. */
  function Classify(line: string): (r: Option<Claim>)
    ensures r.None? || Matches(r.value.rule, line, r.value.cuts)
  {
    ClassifyFrom(line, 0)
  }

  /** No rule from position n on before the claiming one matches; none
      from n on matches when nothing is claimed. */
  lemma {:induction false} ClassifyFromFirst(line: string, n: nat)
    requires n <= |Table|
    ensures ClassifyFrom(line, n).None? ||
              forall rule :: n <= Rank(rule) < Rank(ClassifyFrom(line, n).value.rule) ==> !Admits(rule, line)
    ensures ClassifyFrom(line, n).Some? || forall rule :: n <= Rank(rule) ==> !Admits(rule, line)
    decreases |Table| - n
  {
    if n < |Table| {
      RankOfTable(n);
      ApplyComplete(Table[n], line);
      if Apply(Table[n], line).None? {
        ClassifyFromFirst(line, n + 1);
      }
    }
  }

  /** First match wins: the claiming rule matches and no rule before it does;
      a line nothing claims matches no rule. */
  lemma ClassifyFirstMatch(line: string)
    ensures Classify(line).Some? ==> Matches(Classify(line).value.rule, line, Classify(line).value.cuts)
    ensures Classify(line).Some? ==>
              forall rule :: Rank(rule) < Rank(Classify(line).value.rule) ==> !Admits(rule, line)
    ensures Classify(line).None? ==> forall rule :: !Admits(rule, line)
  {
    ClassifyFromFirst(line, 0);
  }

  /** Every line a specific rule matches, the catch-all rule matches too,
      so the order of the table decides between them. */
  lemma SpecificAlsoGeneric(rule: Rule, line: string)
    requires rule != AkamaiHeader && Admits(rule, line)
    ensures Admits(AkamaiHeader, line)
  {
    var c :| Matches(rule, line, c);
    var g: seq<nat>;
    match rule
    case CacheKey => g := CacheKeyAsHeader(line, c);
    case Cacheability => g := CacheabilityAsHeader(line, c);
    case CacheStatus => g := CacheStatusAsHeader(line, c);
    case SessionInfo => g := SessionInfoAsHeader(line, c);
    assert Matches(AkamaiHeader, line, g);
  }

  lemma CacheKeyAsHeader(line: string, c: seq<nat>) returns (g: seq<nat>)
    requires Matches(CacheKey, line, c)
    ensures Matches(AkamaiHeader, line, g)
  {
    CacheKeyFacts(line, c);
    var b, d, t, u, e := c[2], c[4], c[5], c[6] - 1, c[7];
    assert line[..7] == line[..11][..7];
    NameChars(line, CacheKeyName);
    g := HeaderCuts(line, 1, 11, b, d, e);
  }

  lemma CacheabilityAsHeader(line: string, c: seq<nat>) returns (g: seq<nat>)
    requires Matches(Cacheability, line, c)
    ensures Matches(AkamaiHeader, line, g)
  {
    CacheabilityFacts(line, c);
    var b, d, n := c[2], c[4], c[5] - c[4];
    assert line[..7] == line[..17][..7];
    NameChars(line, CacheabilityName);
    if n == 3 { LitChars(line, d, "YES"); } else { LitChars(line, d, "NO"); }
    g := HeaderCuts(line, 2, 17, b, d, d + n);
  }

  lemma CacheStatusAsHeader(line: string, c: seq<nat>) returns (g: seq<nat>)
    requires Matches(CacheStatus, line, c)
    ensures Matches(AkamaiHeader, line, g)
  {
    CacheStatusFacts(line, c);
    NameChars(line, CacheStatusName);
    g := HeaderCuts(line, 1, 7, c[2], c[4], c[6]);
  }

  lemma SessionInfoAsHeader(line: string, c: seq<nat>) returns (g: seq<nat>)
    requires Matches(SessionInfo, line, c)
    ensures Matches(AkamaiHeader, line, g)
  {
    SessionInfoFacts(line, c);
    SessionInfoHeader(line, c[2], c[4], c[6], c[8], c[10]);
    g := HeaderCuts(line, 0, 21, c[2], c[4], c[10]);
  }

  /** A session-info match is a catch-all match with prefix "X-Akamai". */
  lemma SessionInfoHeader(line: string, b: nat, d: nat, w: nat, v: nat, e: nat)
    requires SessionInfoAt(line, b, d, w, v, e)
    ensures HeaderAt(line, 0, 21, b, d, e)
  {
    assert line[..8] == line[..21][..8];
    NameChars(line, SessionInfoName);
    LitChars(line, d, "name=");
    LitChars(line, v, "value=");
    forall k | d <= k < e ensures line[k] != '\n' {
      if k < d + 5 {
        assert line[d + (k - d)] == "name="[k - d];
      } else if v <= k < v + 6 {
        assert line[v + (k - v)] == "value="[k - v];
      }
    }
  }

  /** The Akamai rules claim a line exactly when the catch-all pattern matches it. */
  lemma ClaimedIff(line: string)
    ensures Classify(line).Some? <==> Admits(AkamaiHeader, line)
  {
    ClassifyFirstMatch(line);
    if Classify(line).Some? {
      var rule := Classify(line).value.rule;
      assert Admits(rule, line) by {
        assert Matches(rule, line, Classify(line).value.cuts);
      }
      if rule != AkamaiHeader {
        SpecificAlsoGeneric(rule, line);
      }
    }
  }

  /** A line an earlier, specific rule matches is never claimed by the
      catch-all rule: the specific rule, or one before it, claims it. */
  lemma SpecificBeforeGeneric(rule: Rule, line: string)
    requires rule != AkamaiHeader && Admits(rule, line)
    ensures Classify(line).Some?
    ensures Classify(line).value.rule != AkamaiHeader
    ensures Rank(Classify(line).value.rule) <= Rank(rule)
  {
    SpecificAlsoGeneric(rule, line);
    ClaimedIff(line);
    ClassifyFirstMatch(line);
  }

  const NopeLine := "X-Check-Cacheable: NOPE"

  /** re.match anchors only the start: a value that merely begins with NO
      is still claimed by the cacheability rule, which colours its first two
      letters. */
  lemma CacheabilityPrefixExample()
    ensures Classify(NopeLine) == Some(Claim(Cacheability, [0, 17, 17, 18, 19, 21]))
  {
    NopeNotCacheKey();
    NopeCacheability();
    assert ClassifyFrom(NopeLine, 1) == Some(Claim(Cacheability, [0, 17, 17, 18, 19, 21]));
  }

  lemma NopeNotCacheKey()
    ensures MatchCacheKey(NopeLine) == None
  {
    assert !IsPrefix(CacheKeyName, NopeLine) by { assert NopeLine[..11][3] != CacheKeyName[3]; }
  }

  lemma NopeCacheability()
    ensures MatchCacheability(NopeLine) == Some([0, 17, 17, 18, 19, 21])
  {
    var line := NopeLine;
    assert LeadAt(line, CacheabilityName, 17, 19) by { assert line[..17] == CacheabilityName; }
    LeadComplete(line, CacheabilityName, 17, 19);
    assert !LitAt(line, 19, "YES") by { assert line[19..22][1] != 'E'; }
    assert LitAt(line, 19, "NO") by { assert line[19..21] == "NO"; }
  }
}
