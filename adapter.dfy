/** AkamaiHTTPAdapter: the transport adapter behind the "ak" URL schemes.
    get_connection maps an ak-, akp- or aks- scheme onto http or https,
    appending the Akamai edge-hostname suffix of the production (akp) or
    staging (aks) network, and remembers the host before and after; add_headers
    then names the original host in the request and asks Akamai for its debug
    response headers through Pragma.

    The URL arrives already split into its five parts; the connection the
    adapter then opens is outside the model, so GetConnection returns the URL
    it hands on, or the error it raises. */
module AkamaiAdapter {
  import Text

  datatype Option<T> = None | Some(value: T)

  /** The five parts urlsplit gives: scheme, netloc, path, query, fragment. */
  datatype Url = Url(scheme: string, netloc: string, path: string, query: string, fragment: string)

  /** What get_connection does with a URL: the URL it opens a connection to,
      or the exception it raises. */
  datatype Outcome = Connect(url: Url) | Invalid(message: string)

  // ---------------------------------------------------------------------
  // The scheme table

  /** One accepted scheme: the target scheme it stands for and the suffix
      appended to the host. */
  datatype Edge = Edge(scheme: string, target: string, suffix: string)

  /** The accepted schemes, in the order get_connection tests them. */
  const Edges: seq<Edge> := [
    Edge("aks-http", "http", ".edgesuite-staging.net"),
    Edge("akp-http", "http", ".edgesuite.net"),
    Edge("aks-https", "https", ".edgekey-staging.net"),
    Edge("akp-https", "https", ".edgekey.net"),
    Edge("ak-http", "http", ""),
    Edge("ak-https", "https", "")
  ]

  /** The entry of Edges from position i on whose scheme is scheme. */
  function FindEdge(scheme: string, i: nat): (r: Option<Edge>)
    requires i <= |Edges|
    ensures r.Some? ==> r.value.scheme == scheme && exists k :: i <= k < |Edges| && Edges[k] == r.value
    ensures r.None? ==> forall k :: i <= k < |Edges| ==> Edges[k].scheme != scheme
    decreases |Edges| - i
  {
    if i == |Edges| then None
    else if Edges[i].scheme == scheme then Some(Edges[i])
    else FindEdge(scheme, i + 1)
  }

  /** The table entry of a scheme, if it is accepted. */
  function EdgeFor(scheme: string): (r: Option<Edge>)
    ensures r.Some? ==> r.value in Edges && r.value.scheme == scheme
    ensures r.None? ==> forall e :: e in Edges ==> e.scheme != scheme
  {
    FindEdge(scheme, 0)
  }

  /** The message of the exception raised for any other scheme. */
  function InvalidSchemeMessage(scheme: string): (r: string)
    ensures |r| >= |scheme| && r[|r| - |scheme|..] == scheme
  {
    "Invalid Akamai schema " + scheme
  }

  /** Exactly the six ak schemes are accepted. */
  lemma AcceptedSchemes(scheme: string)
    ensures EdgeFor(scheme).Some? <==>
              scheme in {"aks-http", "akp-http", "aks-https", "akp-https", "ak-http", "ak-https"}
  {
    if scheme in {"aks-http", "akp-http", "aks-https", "akp-https", "ak-http", "ak-https"} {
      assert Edges[0].scheme == "aks-http" && Edges[1].scheme == "akp-http";
      assert Edges[2].scheme == "aks-https" && Edges[3].scheme == "akp-https";
      assert Edges[4].scheme == "ak-http" && Edges[5].scheme == "ak-https";
    }
  }

  /** The position of an accepted scheme's entry. */
  lemma EdgeIndex(scheme: string) returns (k: nat)
    requires EdgeFor(scheme).Some?
    ensures k < |Edges| && Edges[k] == EdgeFor(scheme).value
  {
    k :| 0 <= k < |Edges| && Edges[k] == EdgeFor(scheme).value;
  }

  /** Every accepted scheme is resolved to http or https, the scheme it
      names after its ak, akp or aks prefix. */
  lemma TargetSchemes(scheme: string)
    requires EdgeFor(scheme).Some?
    ensures EdgeFor(scheme).value.target in {"http", "https"}
    ensures var t := EdgeFor(scheme).value.target;
            scheme == "ak-" + t || scheme == "akp-" + t || scheme == "aks-" + t
  {
    var k := EdgeIndex(scheme);
    if k == 0 {
      assert scheme == "aks-" + "http";
    } else if k == 1 {
      assert scheme == "akp-" + "http";
    } else if k == 2 {
      assert scheme == "aks-" + "https";
    } else if k == 3 {
      assert scheme == "akp-" + "https";
    } else if k == 4 {
      assert scheme == "ak-" + "http";
    } else {
      assert scheme == "ak-" + "https";
    }
  }

  /** The host is rewritten exactly for the production and staging schemes. */
  lemma SuffixIff(scheme: string)
    requires EdgeFor(scheme).Some?
    ensures EdgeFor(scheme).value.suffix != "" <==> scheme in {"aks-http", "akp-http", "aks-https", "akp-https"}
  {
  }

  // ---------------------------------------------------------------------
  // Request headers

  /** A header as requests' CaseInsensitiveDict stores it: the name as last
      written and the value, which may be None. */
  datatype Header = Header(name: string, value: Option<string>)

  /** The Pragma list add_headers writes: ten Akamai debug header names,
      comma-joined. */
  const DebugPragma :=
    "akamai-x-cache-on,akamai-x-cache-remote-on,akamai-x-check-cacheable,akamai-x-get-cache-key,akamai-x-get-nonces,akamai-x-get-request-id,akamai-x-get-true-cache-key,akamai-x-serial-no,akamai-x-get-ssl-client-session-id,akamai-x-get-client-ip"

  /** The dictionary key of a header name. */
  function Key(name: string): string {
    Text.Lower(name)
  }

  /** Every entry is stored under the lower-cased form of its name. */
  predicate WellKeyed(headers: map<string, Header>) {
    forall k :: k in headers ==> k == Key(headers[k].name)
  }

  /** headers[name] = value: the entry under the key of name is replaced, its
      name now spelt as written here. */
  function SetHeader(headers: map<string, Header>, name: string, value: Option<string>): (r: map<string, Header>)
    ensures WellKeyed(headers) ==> WellKeyed(r)
    ensures r.Keys == headers.Keys + {Key(name)}
  {
    headers[Key(name) := Header(name, value)]
  }

  /** headers[name] += suffix on a header that is present with a string value
      (on None the addition raises a TypeError). */
  predicate CanAppend(headers: map<string, Header>, name: string) {
    Key(name) in headers ==> headers[Key(name)].value.Some?
  }

  /** The headers add_headers leaves behind, given the two hostnames the
      adapter recorded. */
  function WithAkamaiHeaders(headers: map<string, Header>, original: Option<string>, modified: Option<string>): (r: map<string, Header>)
    requires CanAppend(headers, "Pragma")
  {
    var h := if original != modified then SetHeader(SetHeader(headers, "Host", original), "X-httpie-host", modified)
             else headers;
    if Key("Pragma") in h then SetHeader(h, "Pragma", Some(h[Key("Pragma")].value.value + "," + DebugPragma))
    else SetHeader(h, "Pragma", Some(DebugPragma))
  }

  /** The keys the three header names are stored under. */
  lemma HeaderKeys()
    ensures Key("Host") == "host" && Key("X-httpie-host") == "x-httpie-host" && Key("Pragma") == "pragma"
  {
  }

  /** A request that carries "Pragma: foo" and whose host was rewritten for
      the production edgekey network. */
  lemma RewrittenHostExample()
    ensures var h := map["pragma" := Header("Pragma", Some("foo"))];
            WithAkamaiHeaders(h, Some("www.example.com"), Some("www.example.com.edgekey.net")) ==
              map["pragma" := Header("Pragma", Some("foo," + DebugPragma)),
                  "host" := Header("Host", Some("www.example.com")),
                  "x-httpie-host" := Header("X-httpie-host", Some("www.example.com.edgekey.net"))]
  {
    HeaderKeys();
    var h := map["pragma" := Header("Pragma", Some("foo"))];
    var h2 := SetHeader(SetHeader(h, "Host", Some("www.example.com")), "X-httpie-host", Some("www.example.com.edgekey.net"));
    assert h2["pragma"].value.value + "," == "foo,";
  }

  /** Host and X-httpie-host name the two hostnames exactly when they
      differ; otherwise the entries under those keys are left as they were. */
  lemma HostHeadersIff(headers: map<string, Header>, original: Option<string>, modified: Option<string>)
    requires CanAppend(headers, "Pragma")
    ensures var r := WithAkamaiHeaders(headers, original, modified);
            original != modified ==>
              r[Key("Host")] == Header("Host", original) && r[Key("X-httpie-host")] == Header("X-httpie-host", modified)
    ensures var r := WithAkamaiHeaders(headers, original, modified);
            original == modified ==>
              forall name :: name in {"Host", "X-httpie-host"} ==>
                (Key(name) in r <==> Key(name) in headers) && (Key(name) in r ==> r[Key(name)] == headers[Key(name)])
  {
  }

  /** Pragma keeps the value it had and gains the debug list after a comma,
      or is the debug list when the request had none. */
  lemma PragmaAppended(headers: map<string, Header>, original: Option<string>, modified: Option<string>)
    requires CanAppend(headers, "Pragma")
    ensures var r := WithAkamaiHeaders(headers, original, modified);
            Key("Pragma") in headers ==>
              r[Key("Pragma")] == Header("Pragma", Some(headers[Key("Pragma")].value.value + "," + DebugPragma))
    ensures var r := WithAkamaiHeaders(headers, original, modified);
            Key("Pragma") !in headers ==> r[Key("Pragma")] == Header("Pragma", Some(DebugPragma))
  {
  }

  /** No header but Host, X-httpie-host and Pragma changes, and only those
      keys can be added. */
  lemma OtherHeadersUnchanged(headers: map<string, Header>, original: Option<string>, modified: Option<string>)
    requires CanAppend(headers, "Pragma")
    ensures var r := WithAkamaiHeaders(headers, original, modified);
            && r.Keys == headers.Keys + {Key("Pragma")} + (if original != modified then {Key("Host"), Key("X-httpie-host")} else {})
            && forall k :: k in headers && k !in {Key("Host"), Key("X-httpie-host"), Key("Pragma")} ==> r[k] == headers[k]
  {
  }

  /** The dictionary stays keyed by lower-cased names. */
  lemma WithAkamaiHeadersWellKeyed(headers: map<string, Header>, original: Option<string>, modified: Option<string>)
    requires CanAppend(headers, "Pragma") && WellKeyed(headers)
    ensures WellKeyed(WithAkamaiHeaders(headers, original, modified))
  {
  }

  // ---------------------------------------------------------------------
  // The request and the adapter

  /** The outgoing request, whose headers add_headers changes in place. */
  class Request {
    var headers: map<string, Header>

    constructor(headers: map<string, Header>)
      requires WellKeyed(headers)
      ensures this.headers == headers && Valid()
    {
      this.headers := headers;
    }

    /** The headers are a CaseInsensitiveDict: keyed by lower-cased names. */
    predicate Valid()
      reads this
    {
      WellKeyed(headers)
    }

    /** request.headers[name] = value */
    method Set(name: string, value: Option<string>)
      requires Valid()
      modifies this
      ensures headers == SetHeader(old(headers), name, value) && Valid()
    {
      headers := headers[Key(name) := Header(name, value)];
    }

    /** name in request.headers */
    predicate Has(name: string)
      reads this
    {
      Key(name) in headers
    }
  }

  class HttpAdapter {
    /** The host of the last URL given to GetConnection, None before the first. */
    var originalHostname: Option<string>
    /** The host after the rewrite of the last URL that was accepted. */
    var modifiedHostname: Option<string>

    constructor()
      ensures originalHostname == None && modifiedHostname == None
    {
      originalHostname := None;
      modifiedHostname := None;
    }

    /** get_connection: records the host, rewrites scheme and host for the six
        ak schemes and hands the URL on; any other scheme raises, after the
        original host has already been recorded. */
    method GetConnection(url: Url) returns (outcome: Outcome)
      modifies this
      ensures originalHostname == Some(url.netloc)
      ensures EdgeFor(url.scheme).None? ==>
                outcome == Invalid(InvalidSchemeMessage(url.scheme)) && modifiedHostname == old(modifiedHostname)
      ensures EdgeFor(url.scheme).Some? ==>
                var e := EdgeFor(url.scheme).value;
                && outcome == Connect(Url(e.target, url.netloc + e.suffix, url.path, url.query, url.fragment))
                && modifiedHostname == Some(url.netloc + e.suffix)
    {
      var scheme := url.scheme;
      var netloc := url.netloc;
      originalHostname := Some(netloc);
      if scheme == "aks-http" {
        netloc := netloc + ".edgesuite-staging.net";
        scheme := "http";
      } else if scheme == "akp-http" {
        netloc := netloc + ".edgesuite.net";
        scheme := "http";
      } else if scheme == "aks-https" {
        netloc := netloc + ".edgekey-staging.net";
        scheme := "https";
      } else if scheme == "akp-https" {
        netloc := netloc + ".edgekey.net";
        scheme := "https";
      } else if scheme == "ak-http" {
        scheme := "http";
      } else if scheme == "ak-https" {
        scheme := "https";
      } else {
        AcceptedSchemes(scheme);
        return Invalid(InvalidSchemeMessage(scheme));
      }
      AcceptedSchemes(url.scheme);
      modifiedHostname := Some(netloc);
      outcome := Connect(Url(scheme, netloc, url.path, url.query, url.fragment));
    }

    /** add_headers: Host and X-httpie-host when the host was rewritten, then
        the debug list onto Pragma. */
    method AddHeaders(request: Request)
      requires request.Valid() && CanAppend(request.headers, "Pragma")
      modifies request
      ensures request.headers == WithAkamaiHeaders(old(request.headers), originalHostname, modifiedHostname)
      ensures request.Valid()
    {
      if originalHostname != modifiedHostname {
        request.Set("Host", originalHostname);
        request.Set("X-httpie-host", modifiedHostname);
      }
      if request.Has("Pragma") {
        request.Set("Pragma", Some(request.headers[Key("Pragma")].value.value + "," + DebugPragma));
      } else {
        request.Set("Pragma", Some(DebugPragma));
      }
    }
  }

  /** After an accepted URL the two recorded hosts differ exactly for the
      production and staging schemes, and the original is a prefix of the
      rewritten one. */
  lemma RecordedHosts(url: Url)
    requires EdgeFor(url.scheme).Some?
    ensures var m := url.netloc + EdgeFor(url.scheme).value.suffix;
            && m[..|url.netloc|] == url.netloc
            && (m != url.netloc <==> url.scheme in {"aks-http", "akp-http", "aks-https", "akp-https"})
  {
    SuffixIff(url.scheme);
    var e := EdgeFor(url.scheme).value;
    assert |url.netloc + e.suffix| == |url.netloc| + |e.suffix|;
  }

  /** The sequence requests runs on a fresh adapter: get_connection, then,
      when it raised nothing, add_headers on the request being sent. */
  method Send(url: Url, request: Request) returns (outcome: Outcome)
    requires request.Valid() && CanAppend(request.headers, "Pragma")
    modifies request
    ensures request.Valid()
    ensures EdgeFor(url.scheme).None? ==> outcome == Invalid(InvalidSchemeMessage(url.scheme)) && request.headers == old(request.headers)
    ensures EdgeFor(url.scheme).Some? ==>
              var e := EdgeFor(url.scheme).value;
              && outcome == Connect(Url(e.target, url.netloc + e.suffix, url.path, url.query, url.fragment))
              && request.headers == WithAkamaiHeaders(old(request.headers), Some(url.netloc), Some(url.netloc + e.suffix))
  {
    var adapter := new HttpAdapter();
    outcome := adapter.GetConnection(url);
    if outcome.Connect? {
      adapter.AddHeaders(request);
    }
  }
}
