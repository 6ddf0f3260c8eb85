/** AkamaiFormatterPlugin: the header formatter that re-highlights responses
    carrying Akamai debug headers. The highlighter (pygments.highlight with
    the Akamai lexer and the configured output formatter) is a parameter. */
module AkamaiFormatter {
  import Text
  import Ansi

  /** The header whose presence switches the Akamai highlighting on. */
  const RequestIdMarker := "x-akamai-request-id"

  /** The guard as written: the lower-cased text contains the marker. */
  predicate HasRequestId(headers: string) {
    Text.Find(Text.Lower(headers), RequestIdMarker) >= 0
  }

  /** The marker occurs at i, whatever the case of its letters in headers. */
  predicate MarkerAt(headers: string, i: nat) {
    i + |RequestIdMarker| <= |headers|
    && forall k :: 0 <= k < |RequestIdMarker| ==> Text.LowerChar(headers[i + k]) == RequestIdMarker[k]
  }

  /** The guard holds exactly when the marker occurs somewhere, ignoring case. */
  lemma HasRequestIdIff(headers: string)
    ensures HasRequestId(headers) <==> exists i: nat :: i <= |headers| && MarkerAt(headers, i)
  {
    var low := Text.Lower(headers);
    forall i: nat | i <= |headers| ensures MarkerAt(headers, i) <==> Text.OccursAt(low, RequestIdMarker, i) {
      if i + |RequestIdMarker| <= |headers| {
        if MarkerAt(headers, i) {
          assert low[i..i + |RequestIdMarker|] == RequestIdMarker;
        }
        if Text.OccursAt(low, RequestIdMarker, i) {
          forall k | 0 <= k < |RequestIdMarker|
            ensures Text.LowerChar(headers[i + k]) == RequestIdMarker[k]
          {
            assert low[i..i + |RequestIdMarker|][k] == low[i + k];
          }
        }
      }
    }
    if HasRequestId(headers) {
      var i: nat :| i <= |low| && Text.OccursAt(low, RequestIdMarker, i);
      assert MarkerAt(headers, i);
    }
  }

  /** Changing the case of letters never changes the guard. */
  lemma HasRequestIdCaseBlind(headers: string)
    ensures HasRequestId(Text.Lower(headers)) == HasRequestId(headers)
  {
    Text.LowerIdempotent(headers);
  }

  /** format_headers as the source writes it: a single substitution pass.
      Text without the marker passes through unchanged; otherwise the
      highlighted text comes back with no whitespace at either end. */
  function FormatHeadersAsWritten(headers: string, highlight: string -> string): (r: string)
    ensures HasRequestId(headers) || r == headers
    ensures !HasRequestId(headers) || r == [] || (!Text.IsSpace(r[0]) && !Text.IsSpace(r[|r| - 1]))
  {
    if HasRequestId(headers) then Text.StripSpace(highlight(Ansi.StripSgr(headers)))
    else headers
  }

  /** format_headers with every escape removed before highlighting. Text
      without the marker passes through unchanged; otherwise the highlighted
      text comes back with no whitespace at either end. */
  function FormatHeaders(headers: string, highlight: string -> string): (r: string)
    ensures HasRequestId(headers) || r == headers
    ensures !HasRequestId(headers) || r == [] || (!Text.IsSpace(r[0]) && !Text.IsSpace(r[|r| - 1]))
  {
    if HasRequestId(headers) then Text.StripSpace(highlight(Ansi.StripSgrFully(headers)))
    else headers
  }

  /** With the marker, the highlighter is given text that holds no escape. */
  lemma HighlighterInputClean(headers: string, highlight: string -> string)
    requires HasRequestId(headers)
    ensures exists t :: !Ansi.ContainsSgr(t) && |t| <= |headers| && FormatHeaders(headers, highlight) == Text.StripSpace(highlight(t))
  {
    var t := Ansi.StripSgrFully(headers);
    assert FormatHeaders(headers, highlight) == Text.StripSpace(highlight(t));
  }

  /** Text without ESC characters is highlighted as it is, and both
      versions agree on it. */
  lemma FormatHeadersNoEsc(headers: string, highlight: string -> string)
    requires Ansi.NoEsc(headers) && HasRequestId(headers)
    ensures FormatHeaders(headers, highlight) == Text.StripSpace(highlight(headers))
    ensures FormatHeadersAsWritten(headers, highlight) == FormatHeaders(headers, highlight)
  {
    Ansi.NoEscUnchanged(headers);
    Ansi.StripSgrFullyNoEsc(headers);
  }

  /** The two versions differ only where one pass leaves an escape behind. */
  lemma FormatHeadersAgrees(headers: string, highlight: string -> string)
    requires !Ansi.ContainsSgr(Ansi.StripSgr(headers))
    ensures FormatHeadersAsWritten(headers, highlight) == FormatHeaders(headers, highlight)
  {
    Ansi.StripSgrFullyAgrees(headers);
  }

  const LeakExample := RequestIdMarker + [Ansi.ESC, Ansi.ESC, '[', 'm', '[', 'm']

  /** What one pass leaves of LeakExample. */
  const LeakPassed := RequestIdMarker + [Ansi.ESC, '[', 'm']

  /** The single pass hands the highlighter an escape for headers such as
      LeakExample, which carries the marker: removing ESC '[' 'm' joins the
      characters around it into a new escape. */
  lemma FormatHeadersAsWrittenLeaks(highlight: string -> string)
    ensures HasRequestId(LeakExample)
    ensures FormatHeadersAsWritten(LeakExample, highlight) == Text.StripSpace(highlight(LeakPassed))
    ensures Ansi.ContainsSgr(LeakPassed)
  {
    LeakHasMarker();
    LeakOnePass();
    assert Ansi.IsSgr(LeakPassed[19..22]);
  }

  lemma LeakHasMarker()
    ensures HasRequestId(LeakExample)
  {
    HasRequestIdIff(LeakExample);
    assert MarkerAt(LeakExample, 0);
  }

  lemma LeakOnePass()
    ensures Ansi.StripSgr(LeakExample) == LeakPassed
  {
    assert Ansi.NoEsc(RequestIdMarker);
    Ansi.StripSgrNoEscPrefix(RequestIdMarker, [Ansi.ESC, Ansi.ESC, '[', 'm', '[', 'm']);
    Ansi.StripSgrNotIdempotent();
  }

  /** format_body: the content is returned as it is. */
  function FormatBody(content: string, mime: string): (r: string)
    ensures r == content
  {
    content
  }
}
