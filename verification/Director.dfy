// server.go: what happens to the headers of a proxied request, from the Director
// through ReverseProxy to the transport, and to the headers of the response.
module Director {
  import opened GoStrings
  import opened HttpHeader
  import opened HeaderTemplate
  import opened HeaderRules
  import TrustedXff

  const XFF := "X-Forwarded-For"

  // The connection a request came in on. clientIP and clientPort are what
  // net.SplitHostPort makes of RemoteAddr, empty if it fails.
  datatype Conn = Conn(clientIP: string, clientPort: string, tls: bool, requestURI: string)

  class Request {
    var Host: string
    var Header: Header
    const conn: Conn

    constructor (host: string, header: Header, conn: Conn)
      ensures Host == host && Header == header && this.conn == conn
    {
      this.Host, this.Header, this.conn := host, header, conn;
    }
  }

  // Settings of the route and the server that the Director reads besides the
  // header rules.
  datatype Settings = Settings(trust: TrustedXff.Trust, auth: bool, unixUpstream: bool, glob: (string, string) -> bool)

  function SchemeOf(tls: bool): string {
    if tls then "https" else "http"
  }

  predicate TrustedPeer(trust: TrustedXff.Trust, clientIP: string)
    requires trust.Trust?
  {
    trust.trustClientHeaders || (trust.hasProxies && trust.Skips(clientIP))
  }

  // The X-Forwarded-* headers the upstream is to see, before user rules.
  function Forwarded(h: Header, host: string, conn: Conn, trust: TrustedXff.Trust): Header
    requires trust.Trust?
  {
    var trusted := TrustedPeer(trust, conn.clientIP);
    var h1 :=
      if conn.clientIP == "" then h
      else if trusted && XFF in h then h[XFF := [Join(h[XFF], ", ") + ", " + conn.clientIP]]
      else h[XFF := [conn.clientIP]];
    if trusted then h1
    else h1["X-Forwarded-Host" := [host]]["X-Forwarded-Proto" := [SchemeOf(conn.tls)]]
  }

  function Chain(h: Header): seq<string> {
    if XFF in h then h[XFF] else []
  }

  // Everything add rules may refer to, computed without looking at any flag.
  function FullContext(h: Header, host: string, conn: Conn, trust: TrustedXff.Trust): Context
    requires trust.Trust?
  {
    Context(host, conn.clientIP, conn.clientPort, SchemeOf(conn.tls), conn.requestURI,
            Chain(Forwarded(h, host, conn, trust)), trust, h["Host" := [host]])
  }

  predicate DeletesHost(rules: seq<string>) {
    exists name :: name in rules && EqualFold(name, "host")
  }

  // Header map and host after the delete rules, before the add rules.
  function BeforeAdds(h: Header, host: string, conn: Conn, rc: Route, s: Settings): Out
    requires s.trust.Trust?
  {
    var h1 := Forwarded(h, host, conn, s.trust);
    var h2 := if s.auth then h1 - {"Authorization"} else h1;
    Out(Deleted(h2, rc.deleteHeaders, rc.deleteHasWildcard, s.glob),
        if !DeletesHost(rc.deleteHeaders) then host else if s.unixUpstream then "localhost" else "",
        true)
  }

  // What the Director leaves if the add rules are applied in the given order and
  // nothing is skipped.
  ghost function Ungated(h: Header, host: string, conn: Conn, rc: Route, s: Settings, order: seq<string>): Out
    requires s.trust.Trust? && Usable(rc.addHeaders)
    requires forall i :: 0 <= i < |order| ==> order[i] in rc.addHeaders
  {
    SetAll(BeforeAdds(h, host, conn, rc, s), order, Values(rc.addHeaders, FullContext(h, host, conn, s.trust)))
  }

  // The X-Forwarded-* part of the Director.
  method Forward(req: Request, trust: TrustedXff.Trust)
    requires trust.Trust?
    modifies req`Header
    ensures req.Header == Forwarded(old(req.Header), req.Host, req.conn, trust)
  {
    CanonicalConstants();
    hide Canonical;
    var clientIP := req.conn.clientIP;
    var trusted := trust.trustClientHeaders || (trust.hasProxies && trust.valid(clientIP) && trust.trusted(clientIP));
    if clientIP != "" {
      if trusted {
        if XFF in req.Header {
          req.Header := Set(req.Header, XFF, Join(req.Header[XFF], ", ") + ", " + clientIP);
        } else {
          req.Header := Set(req.Header, XFF, clientIP);
        }
      } else {
        req.Header := Set(req.Header, XFF, clientIP);
      }
    }
    if !trusted {
      req.Header := Set(req.Header, "X-Forwarded-Host", req.Host);
      req.Header := Set(req.Header, "X-Forwarded-Proto", SchemeOf(req.conn.tls));
    }
  }

  method DeleteHost(rules: seq<string>) returns (hit: bool)
    ensures hit <==> DeletesHost(rules)
  {
    for i := 0 to |rules|
      invariant forall j | 0 <= j < i :: !EqualFold(rules[j], "host")
    {
      if EqualFold(rules[i], "host") {
        assert rules[i] in rules;
        return true;
      }
    }
    return false;
  }

  // Everything up to the add rules: X-Forwarded-*, the snapshots that the flags
  // ask for, and the deletions.
  method Prepare(req: Request, rc: Route, s: Settings) returns (xffCopy: seq<string>, original: Header)
    requires s.trust.Trust?
    modifies req
    ensures Out(req.Header, req.Host, true) == BeforeAdds(old(req.Header), old(req.Host), req.conn, rc, s)
    ensures xffCopy == if rc.needsTrustedXFF
                       then Chain(Forwarded(old(req.Header), old(req.Host), req.conn, s.trust)) else []
    ensures original == if rc.needsOriginal then old(req.Header)["Host" := [old(req.Host)]] else map[]
  {
    CanonicalConstants();
    hide Canonical, Forwarded, Deleted;
    original := map[];
    if rc.needsOriginal {
      original := Set(req.Header, "Host", req.Host);
    }
    Forward(req, s.trust);
    xffCopy := [];
    if rc.needsTrustedXFF {
      xffCopy := Chain(req.Header);
    }
    if s.auth {
      req.Header := Del(req.Header, "Authorization");
    }
    var hostGone := DeleteHost(rc.deleteHeaders);
    if hostGone {
      req.Host := if s.unixUpstream then "localhost" else "";
    }
    var h := ApplyDeleteHeaders(req.Header, rc.deleteHeaders, rc.deleteHasWildcard, s.glob);
    req.Header := h;
  }

  // The header part of the Director, with its shortcuts. The add rules are read in
  // any order; `stored` is what it leaves in the request context for ModifyResponse.
  method Direct(req: Request, rc: Route, s: Settings)
    returns (requestHost: string, stored: seq<string>, ghost order: seq<string>)
    requires s.trust.Trust? && FlagsMatch(rc) && Usable(rc.addHeaders)
    modifies req
    ensures Enumerates(order, rc.addHeaders.Keys)
    ensures Out(req.Header, req.Host, true) == Ungated(old(req.Header), old(req.Host), req.conn, rc, s, order)
    ensures requestHost == old(req.Host)
    ensures stored == if rc.clientNeedsTrustedXFF
                      then Chain(Forwarded(old(req.Header), old(req.Host), req.conn, s.trust)) else []
  {
    hide BeforeAdds, Forwarded, SetAll, Values, Enumerates;
    requestHost := req.Host;
    ghost var full := FullContext(req.Header, req.Host, req.conn, s.trust);
    var xffCopy, original := Prepare(req, rc, s);
    stored := [];
    if rc.needsTrustedXFF && rc.clientNeedsTrustedXFF {
      stored := xffCopy;
    }
    var scheme, requestURI := "", "";
    if rc.addHasVars {
      scheme := SchemeOf(req.conn.tls);
      requestURI := req.conn.requestURI;
    }
    var ctx := Context(requestHost, req.conn.clientIP, req.conn.clientPort, scheme, requestURI,
                       xffCopy, s.trust, original);
    assert ctx == Gated(full, rc.addHasVars, rc.needsTrustedXFF, rc.needsOriginal);
    GatesSound(rc.addHeaders, full, rc.addHasVars, rc.needsTrustedXFF, rc.needsOriginal);
    order := AddHeadersTo(req, rc.addHeaders, ctx);
    EnumeratesMembers(order, rc.addHeaders.Keys);
  }

  lemma EnumeratesMembers(order: seq<string>, names: set<string>)
    requires Enumerates(order, names)
    ensures forall i :: 0 <= i < |order| ==> order[i] in names
  {
  }

  // The add loop of the Director.
  method AddHeadersTo(req: Request, headers: AddHeaders, ctx: Context) returns (ghost order: seq<string>)
    requires Usable(headers)
    modifies req
    ensures Enumerates(order, headers.Keys)
    ensures Out(req.Header, req.Host, true) == SetAll(old(Out(req.Header, req.Host, true)), order, Values(headers, ctx))
  {
    hide Canonical, Value;
    order := [];
    var todo := headers.Keys;
    while todo != {}
      invariant todo <= headers.Keys && Enumerates(order, headers.Keys - todo)
      invariant Out(req.Header, req.Host, true)
             == SetAll(old(Out(req.Header, req.Host, true)), order, Values(headers, ctx))
      decreases todo
    {
      var name :| name in todo;
      var resolved := Eval(headers[name], ctx);
      assert resolved == Values(headers, ctx)[name] by { ValueIs(headers[name], ctx, resolved); }
      if EqualFold(name, "host") {
        req.Host := resolved;
      } else {
        req.Header := Set(req.Header, name, resolved);
      }
      ghost var next := order + [name];
      assert next[..|next| - 1] == order;
      order := next;
      todo := todo - {name};
    }
  }

  lemma ValueIs(ph: ParsedHeaderValue, ctx: Context, r: string)
    requires ph.isConst ==> |ph.segments| > 0 && ph.segments[0].Literal?
    requires r == if ph.isConst then ph.segments[0].text else Render(ph.segments, ctx)
    ensures r == Value(ph, ctx)
  {
  }

  // Responses

  // What the client sees: Via first, then the delete rules, then every add rule once
  // in some order, with these values.
  ghost predicate Responds(out: Header, resp: Header, rc: Route, glob: (string, string) -> bool,
                           values: map<string, string>)
  {
    exists order: seq<string> :: InOrder(out, BeforeClientAdds(resp, rc, glob), order, values)
  }

  ghost predicate InOrder(out: Header, before: Header, order: seq<string>, values: map<string, string>) {
    && Enumerates(order, values.Keys)
    && (forall i :: 0 <= i < |order| ==> order[i] in values)
    && Out(out, "", false) == SetAll(Out(before, "", false), order, values)
  }

  function BeforeClientAdds(resp: Header, rc: Route, glob: (string, string) -> bool): Header {
    Deleted(resp["Via" := ["RouteMUX"]], rc.clientDelHeaders, rc.clientDelHasWildcard, glob)
  }

  // manipulateClientHeaders
  method ManipulateClientHeaders(resp: Header, original: Header, host: string, conn: Conn, rc: Route,
                                 xffCopy: seq<string>, trust: TrustedXff.Trust, glob: (string, string) -> bool)
    returns (out: Header)
    requires Usable(rc.clientAddHeaders)
    ensures Responds(out, resp, rc, glob, Values(rc.clientAddHeaders,
      Context(host,
              if rc.clientAddHasVars then conn.clientIP else "",
              if rc.clientAddHasVars then conn.clientPort else "",
              if rc.clientAddHasVars then SchemeOf(conn.tls) else "",
              if rc.clientAddHasVars then conn.requestURI else "",
              xffCopy, trust, original)))
  {
    CanonicalConstants();
    hide Canonical, Value;
    out := Set(resp, "Via", "RouteMUX");
    if |rc.clientDelHeaders| > 0 {
      out := ApplyDeleteHeaders(out, rc.clientDelHeaders, rc.clientDelHasWildcard, glob);
    } else {
      assert out == Deleted(out, rc.clientDelHeaders, rc.clientDelHasWildcard, glob);
    }
    var clientIP, clientPort, scheme, requestURI := "", "", "", "";
    if rc.clientAddHasVars {
      clientIP, clientPort := conn.clientIP, conn.clientPort;
      scheme, requestURI := SchemeOf(conn.tls), conn.requestURI;
    }
    var ctx := Context(host, clientIP, clientPort, scheme, requestURI, xffCopy, trust, original);
    ghost var order;
    out, order := AddResponseHeaders(out, rc.clientAddHeaders, ctx);
    assert InOrder(out, BeforeClientAdds(resp, rc, glob), order, Values(rc.clientAddHeaders, ctx));
  }

  method AddResponseHeaders(h: Header, headers: AddHeaders, ctx: Context)
    returns (out: Header, ghost order: seq<string>)
    requires Usable(headers)
    ensures Enumerates(order, headers.Keys)
    ensures forall i :: 0 <= i < |order| ==> order[i] in headers
    ensures Out(out, "", false) == SetAll(Out(h, "", false), order, Values(headers, ctx))
  {
    hide Canonical, Value;
    out, order := h, [];
    var todo := headers.Keys;
    while todo != {}
      invariant todo <= headers.Keys && Enumerates(order, headers.Keys - todo)
      invariant Out(out, "", false) == SetAll(Out(h, "", false), order, Values(headers, ctx))
      decreases todo
    {
      var name :| name in todo;
      var resolved := Eval(headers[name], ctx);
      assert resolved == Values(headers, ctx)[name] by { ValueIs(headers[name], ctx, resolved); }
      out := Set(out, name, resolved);
      ghost var next := order + [name];
      assert next[..|next| - 1] == order;
      order := next;
      todo := todo - {name};
    }
  }

  // ModifyResponse, with its shortcuts: it reads the chain the Director stored and
  // snapshots the response headers only if some value needs them.
  method ModifyResponse(resp: Header, requestHost: string, conn: Conn, rc: Route, s: Settings,
                        stored: seq<string>, ghost chain: seq<string>)
    returns (out: Header)
    requires FlagsMatch(rc) && Usable(rc.clientAddHeaders)
    requires rc.clientNeedsTrustedXFF ==> stored == chain
    ensures Responds(out, resp, rc, s.glob, Values(rc.clientAddHeaders,
      Context(requestHost, conn.clientIP, conn.clientPort, SchemeOf(conn.tls), conn.requestURI, chain, s.trust, resp)))
  {
    hide SetAll, Values, Enumerates, Deleted, Responds;
    var xffCopy := [];
    if rc.clientNeedsTrustedXFF {
      xffCopy := stored;
    }
    var original: Header := map[];
    if rc.clientNeedsRespHeaders {
      original := resp;
    }
    ghost var full := Context(requestHost, conn.clientIP, conn.clientPort, SchemeOf(conn.tls), conn.requestURI,
                              chain, s.trust, resp);
    GatesSound(rc.clientAddHeaders, full, rc.clientAddHasVars, rc.clientNeedsTrustedXFF, rc.clientNeedsRespHeaders);
    out := ManipulateClientHeaders(resp, original, requestHost, conn, rc, xffCopy, s.trust, s.glob);
  }

  // The X-Forwarded-For value on its way through ReverseProxy

  // httputil.ReverseProxy appends the client address after the Director returned.
  function ProxyAppend(h: Header, clientIP: string): Header {
    if XFF in h && |h[XFF]| > 0 then h[XFF := [Join(h[XFF], ", ") + ", " + clientIP]]
    else h[XFF := [clientIP]]
  }

  function Stripped(h: Header): Header {
    if XFF in h && |h[XFF]| == 1 then
      var idx := LastIndex(h[XFF][0], ", ");
      if idx >= 0 then h[XFF := [h[XFF][0][..idx]]] else h - {XFF}
    else h
  }

  // xffRoundTripper.RoundTrip, up to the call of the wrapped transport.
  method RoundTrip(req: Request)
    modifies req`Header
    ensures req.Header == Stripped(old(req.Header))
  {
    CanonicalConstants();
    hide Canonical;
    if XFF in req.Header && |req.Header[XFF]| == 1 {
      var combined := req.Header[XFF][0];
      var idx := LastIndex(combined, ", ");
      if idx >= 0 {
        req.Header := Set(req.Header, XFF, combined[..idx]);
      } else {
        req.Header := Del(req.Header, XFF);
      }
    }
  }

  ghost predicate AtMostOneChain(h: Header) {
    XFF in h ==> |h[XFF]| == 1
  }

  lemma NoCommaNoSeparator(s: string, i: nat)
    requires i <= |s| && (i < |s| ==> s[i] != ',')
    ensures !OccursAt(s, ", ", i)
  {
    if i < |s| {
      assert s[i..][0] == s[i];
    }
  }

  lemma NoSeparator(clientIP: string)
    requires ',' !in clientIP
    ensures LastIndex(clientIP, ", ") == -1
  {
    forall i | 0 <= i <= |clientIP| ensures !OccursAt(clientIP, ", ", i) {
      NoCommaNoSeparator(clientIP, i);
    }
  }

  // Right of its first character the appended part holds no comma.
  lemma NoLaterComma(v: string, sep: string, clientIP: string, i: nat)
    requires |sep| == 2 && sep[1] != ',' && ',' !in clientIP
    requires |v| < i < |v| + 2 + |clientIP|
    ensures (v + sep + clientIP)[i] != ','
  {
    if i == |v| + 1 {
      assert (v + sep + clientIP)[i] == sep[1];
    } else {
      assert (v + sep + clientIP)[i] == clientIP[i - |v| - 2];
    }
  }

  lemma LastSeparator(v: string, clientIP: string)
    requires ',' !in clientIP
    ensures LastIndex(v + ", " + clientIP, ", ") == |v|
  {
    hide LastIndex, OccursAt;
    var s := v + ", " + clientIP;
    SeparatorOccurs(v, clientIP);
    forall i | |v| < i <= |s| ensures !OccursAt(s, ", ", i) {
      if i < |s| {
        NoLaterComma(v, ", ", clientIP, i);
      }
      NoCommaNoSeparator(s, i);
    }
    LastIndexIs(s, ", ", |v|);
  }

  lemma SeparatorOccurs(v: string, clientIP: string)
    ensures OccursAt(v + ", " + clientIP, ", ", |v|)
  {
    assert (v + ", " + clientIP)[|v|..] == ", " + clientIP;
  }

  // Append and strip cancel out exactly on the header states with at most one value.
  lemma PipelineIdentityIff(h: Header, clientIP: string)
    requires ',' !in clientIP
    ensures Stripped(ProxyAppend(h, clientIP)) == h <==> AtMostOneChain(h)
  {
    hide LastIndex, Join;
    var g := ProxyAppend(h, clientIP);
    if XFF in h && |h[XFF]| > 0 {
      var v := Join(h[XFF], ", ");
      LastSeparator(v, clientIP);
      assert g[XFF][0][..|v|] == v;
      JoinOne(h[XFF]);
      assert Stripped(g)[XFF] == [v];
      assert |h[XFF]| == 1 ==> h[XFF] == [v];
    } else {
      NoSeparator(clientIP);
    }
  }

  // What the wrapped transport takes away: behind the last separator of a single value
  // the address that was appended, or all of it if there is no separator. Several values,
  // and all other headers, pass unchanged.
  lemma StrippedIs(h: Header, v: string, ip: string, key: string)
    requires ',' !in ip
    ensures h == map[XFF := [v + ", " + ip]] ==> Stripped(h) == map[XFF := [v]]
    ensures h == map[XFF := [ip]] ==> Stripped(h) == map[]
    ensures AllOf(h, XFF) == [] || |AllOf(h, XFF)| >= 2 ==> Stripped(h) == h
    ensures key != XFF ==> (key in Stripped(h) <==> key in h) && (key in h ==> Stripped(h)[key] == h[key])
  {
    hide LastIndex;
    LastSeparator(v, ip);
    NoSeparator(ip);
    assert (v + ", " + ip)[..|v|] == v;
  }

  lemma JoinOne(parts: seq<string>)
    ensures |parts| == 1 ==> Join(parts, ", ") == parts[0]
  {
  }

  // Whatever the rules are, the Director leaves at most one chain.
  lemma DirectorLeavesOneChain(h: Header, host: string, rc: Route, conn: Conn, s: Settings, order: seq<string>)
    requires s.trust.Trust? && Usable(rc.addHeaders) && conn.clientIP != ""
    requires forall i :: 0 <= i < |order| ==> order[i] in rc.addHeaders
    ensures AtMostOneChain(Ungated(h, host, conn, rc, s, order).header)
  {
    var before := BeforeAdds(h, host, conn, rc, s);
    var values := Values(rc.addHeaders, FullContext(h, host, conn, s.trust));
    assert AtMostOneChain(before.header) by { assert AtMostOneChain(Forwarded(h, host, conn, s.trust)); }
    hide BeforeAdds, FullContext, Values, SetAll;
    LastRuleWins(before, order, values, Key(XFF));
  }

  // The headers without those that ReverseProxy removes as hop-by-hop: a fixed list
  // and whatever the Connection header names, which a client may choose.
  function WithoutHop(out: Out, hop: set<string>): Out {
    out.(header := out.header - hop)
  }

  // From the Director to the wire: but for hop-by-hop headers the upstream sees the
  // headers exactly as the Director and the rules left them; the address ReverseProxy
  // adds is gone. A client that names X-Forwarded-For in Connection removes the chain
  // altogether.
  method ProxyRequest(req: Request, rc: Route, s: Settings, hop: set<string>)
    returns (requestHost: string, stored: seq<string>, ghost order: seq<string>)
    requires s.trust.Trust? && FlagsMatch(rc) && Usable(rc.addHeaders)
    requires req.conn.clientIP != "" && ',' !in req.conn.clientIP
    modifies req
    ensures Enumerates(order, rc.addHeaders.Keys)
    ensures forall i :: 0 <= i < |order| ==> order[i] in rc.addHeaders
    ensures Out(req.Header, req.Host, true)
         == WithoutHop(Ungated(old(req.Header), old(req.Host), req.conn, rc, s, order), hop)
    ensures requestHost == old(req.Host)
    ensures rc.clientNeedsTrustedXFF ==>
      stored == Chain(Forwarded(old(req.Header), old(req.Host), req.conn, s.trust))
  {
    hide Ungated, Forwarded, Enumerates, ProxyAppend, Stripped;
    ghost var h0, host0 := req.Header, req.Host;
    requestHost, stored, order := Direct(req, rc, s);
    EnumeratesMembers(order, rc.addHeaders.Keys);
    DirectorLeavesOneChain(h0, host0, rc, req.conn, s, order);
    req.Header := req.Header - hop;
    PipelineIdentityIff(req.Header, req.conn.clientIP);
    req.Header := ProxyAppend(req.Header, req.conn.clientIP);
    RoundTrip(req);
  }

  // What the upstream and the client see, header by header

  // A peer that is not trusted determines none of the X-Forwarded headers by what it
  // sends; a trusted one finds its own address behind its chain and the rest untouched.
  // Every other header passes as sent.
  lemma ForwardedIs(h: Header, host: string, conn: Conn, trust: TrustedXff.Trust, key: string)
    requires trust.Trust?
    ensures var out := Forwarded(h, host, conn, trust);
      var trusted := trust.trustClientHeaders
        || (trust.hasProxies && trust.valid(conn.clientIP) && trust.trusted(conn.clientIP));
      var chain := AllOf(out, "X-Forwarded-For");
      var outHost, outProto := AllOf(out, "X-Forwarded-Host"), AllOf(out, "X-Forwarded-Proto");
      && (conn.clientIP == "" ==> chain == AllOf(h, "X-Forwarded-For"))
      && (conn.clientIP != "" && !trusted ==> chain == [conn.clientIP])
      && (conn.clientIP != "" && trusted && XFF !in h ==> chain == [conn.clientIP])
      && (conn.clientIP != "" && trusted && XFF in h ==> chain == [Join(h[XFF], ", ") + ", " + conn.clientIP])
      && (!trusted ==> outHost == [host] && outProto == [if conn.tls then "https" else "http"])
      && (trusted ==> outHost == AllOf(h, "X-Forwarded-Host") && outProto == AllOf(h, "X-Forwarded-Proto"))
    ensures key !in ["X-Forwarded-For", "X-Forwarded-Host", "X-Forwarded-Proto"] ==>
      var out := Forwarded(h, host, conn, trust); (key in out <==> key in h) && AllOf(out, key) == AllOf(h, key)
  {
    hide Join;
    DistinctForwardedNames();
  }

  // All values of a header, none if it is absent.
  function AllOf(h: Header, key: string): seq<string> {
    if key in h then h[key] else []
  }

  lemma DistinctForwardedNames()
    ensures "X-Forwarded-For" != "X-Forwarded-Host" && "X-Forwarded-For" != "X-Forwarded-Proto"
    ensures "X-Forwarded-Host" != "X-Forwarded-Proto"
  {
    assert |"X-Forwarded-For"| == 15 && |"X-Forwarded-Host"| == 16 && |"X-Forwarded-Proto"| == 17;
  }

  // What each variable of an add rule stands for in a request, told by what came in.
  lemma RequestVariables(h: Header, host: string, conn: Conn, trust: TrustedXff.Trust, name: string)
    requires trust.Trust? && '}' !in name
    ensures var ctx := FullContext(h, host, conn, trust);
      && Interpret("${host}", ctx) == host
      && Interpret("${remote_addr}", ctx) == conn.clientIP
      && Interpret("${remote_port}", ctx) == conn.clientPort
      && Interpret("${scheme}", ctx) == (if conn.tls then "https" else "http")
      && Interpret("${request_uri}", ctx) == conn.requestURI
      && Interpret("${trusted_xff}", ctx)
         == TrustedXff.Resolve(AllOf(Forwarded(h, host, conn, trust), XFF), trust, conn.clientIP)
      && Interpret("${" + ("header." + name) + "}", ctx)
         == (if Canonical(name) == "Host" then host
             else if Canonical(name) in h && h[Canonical(name)] != [] then h[Canonical(name)][0] else "")
  {
    var ctx := FullContext(h, host, conn, trust);
    assert ctx.scheme == if conn.tls then "https" else "http";
    assert Get(ctx.original, name) == (if Canonical(name) == "Host" then host
      else if Canonical(name) in h && h[Canonical(name)] != [] then h[Canonical(name)][0] else "");
    assert ctx.xff == AllOf(Forwarded(h, host, conn, trust), XFF);
    hide *;
    VariablesAlone(ctx, name);
  }

  lemma VariablesAlone(ctx: Context, name: string)
    requires '}' !in name
    ensures Interpret("${host}", ctx) == ctx.host && Interpret("${remote_addr}", ctx) == ctx.clientIP
    ensures Interpret("${remote_port}", ctx) == ctx.clientPort && Interpret("${scheme}", ctx) == ctx.scheme
    ensures Interpret("${request_uri}", ctx) == ctx.requestURI
    ensures Interpret("${trusted_xff}", ctx) == TrustedXff.Resolve(ctx.xff, ctx.trust, ctx.clientIP)
    ensures Interpret("${" + ("header." + name) + "}", ctx) == Get(ctx.original, name)
  {
    hide *;
    NamesResolve(ctx);
    NamesClose();
    VariableAlone("host", ctx);
    VariableAlone("remote_addr", ctx);
    VariableAlone("remote_port", ctx);
    VariableAlone("scheme", ctx);
    VariableAlone("request_uri", ctx);
    VariableAlone("trusted_xff", ctx);
    HeaderVariableAlone(ctx, name);
    assert "${" + "host" + "}" == "${host}" && "${" + "remote_addr" + "}" == "${remote_addr}";
    assert "${" + "remote_port" + "}" == "${remote_port}" && "${" + "scheme" + "}" == "${scheme}";
    assert "${" + "request_uri" + "}" == "${request_uri}" && "${" + "trusted_xff" + "}" == "${trusted_xff}";
  }

  lemma HeaderVariableAlone(ctx: Context, name: string)
    requires '}' !in name
    ensures Interpret("${" + ("header." + name) + "}", ctx) == Get(ctx.original, name)
  {
    assert SegmentValue(HeaderName(name), ctx) == Get(ctx.original, name);
    hide *;
    HeaderNameResolves(name);
    NoBraceInHeaderName(name);
    VariableAlone("header." + name, ctx);
  }

  lemma NoBraceInHeaderName(name: string)
    requires '}' !in name
    ensures '}' !in "header." + name
  {
  }

  lemma VariableAlone(name: string, ctx: Context)
    requires '}' !in name
    ensures Interpret("${" + name + "}", ctx) == SegmentValue(ResolveVarName(name), ctx)
  {
    hide *;
    TokenOfReference(name, "");
    assert "${" + name + "}" + "" == "${" + name + "}";
    InterpretStep("${" + name + "}", ctx);
    RenderNothing(ctx);
    assert SegmentValue(ResolveVarName(name), ctx) + "" == SegmentValue(ResolveVarName(name), ctx);
  }

  // A request header that no add rule names reaches the upstream if and only if the
  // Director had it, it is not the Authorization of a proxy login, and no delete rule
  // matches it; it keeps its values. One that add rules name carries the value of one
  // of them, whether it was deleted or not.
  lemma UpstreamHeader(h: Header, host: string, conn: Conn, rc: Route, s: Settings, order: seq<string>, key: string)
    requires s.trust.Trust? && Usable(rc.addHeaders) && Enumerates(order, rc.addHeaders.Keys)
    requires forall i :: 0 <= i < |order| ==> order[i] in rc.addHeaders
    requires rc.deleteHasWildcard == HasWildcard(rc.deleteHeaders)
    requires forall k :: k in Forwarded(h, host, conn, s.trust) ==> ValidName(k) && Canonical(k) == k
    ensures (forall name :: name in rc.addHeaders ==> EqualFold(name, "host") || Canonical(name) != key) ==>
      var out, h1 := Ungated(h, host, conn, rc, s, order).header, Forwarded(h, host, conn, s.trust);
      var deleted :=
        exists p :: p in rc.deleteHeaders && if '*' in p then s.glob(ToLower(p), ToLower(key)) else EqualFold(p, key);
      && (key in out <==> key in h1 && !(s.auth && key == "Authorization") && !deleted)
      && (key in out ==> out[key] == h1[key])
    ensures (exists name :: name in rc.addHeaders && !EqualFold(name, "host") && Canonical(name) == key) ==>
      var out, ctx := Ungated(h, host, conn, rc, s, order).header, FullContext(h, host, conn, s.trust);
      exists name :: name in rc.addHeaders && !EqualFold(name, "host") && Canonical(name) == key
        && key in out && out[key] == [Value(rc.addHeaders[name], ctx)]
  {
    hide Forwarded, FullContext, Deleted, SetAll, Value, EqualFold, ToLower, Canonical, ValidName, HasWildcard;
    var ctx, before := FullContext(h, host, conn, s.trust), BeforeAdds(h, host, conn, rc, s);
    var h1 := Forwarded(h, host, conn, s.trust);
    var h2 := if s.auth then h1 - {"Authorization"} else h1;
    assert before.header == Deleted(h2, rc.deleteHeaders, HasWildcard(rc.deleteHeaders), s.glob) && before.isRequest;
    assert forall name :: name in rc.addHeaders ==> Values(rc.addHeaders, ctx)[name] == Value(rc.addHeaders[name], ctx);
    assert Ungated(h, host, conn, rc, s, order) == SetAll(before, order, Values(rc.addHeaders, ctx));
    hide *;
    DeletedIff(h2, rc.deleteHeaders, s.glob, key);
    RulesForHeader(before, order, Values(rc.addHeaders, ctx), key);
  }

  // The host the upstream is asked for: a Host rule's value, else the host that came in
  // unless a delete rule names it.
  lemma UpstreamHost(h: Header, host: string, conn: Conn, rc: Route, s: Settings, order: seq<string>)
    requires s.trust.Trust? && Usable(rc.addHeaders) && Enumerates(order, rc.addHeaders.Keys)
    requires forall i :: 0 <= i < |order| ==> order[i] in rc.addHeaders
    ensures var out := Ungated(h, host, conn, rc, s, order).host;
      var ctx := FullContext(h, host, conn, s.trust);
      && ((forall name :: name in rc.addHeaders ==> !EqualFold(name, "host")) ==>
            out == if !exists p :: p in rc.deleteHeaders && EqualFold(p, "host") then host
                   else if s.unixUpstream then "localhost" else "")
      && ((exists name :: name in rc.addHeaders && EqualFold(name, "host")) ==>
            exists name :: name in rc.addHeaders && EqualFold(name, "host")
              && out == Value(rc.addHeaders[name], ctx))
  {
    var before := BeforeAdds(h, host, conn, rc, s);
    var values := Values(rc.addHeaders, FullContext(h, host, conn, s.trust));
    LastRuleWins(before, order, values, HostField);
    assert forall i :: 0 <= i < |order| ==> (PlaceOf(order[i], true) == HostField <==> EqualFold(order[i], "host"));
    hide Forwarded, Deleted, SetAll, Value, EqualFold, Canonical, FullContext;
    if name :| name in rc.addHeaders && EqualFold(name, "host") {
      assert name in order;
    }
  }

  // A response header that no add rule names reaches the client if and only if the
  // upstream sent it, or it is Via, and no delete rule matches it. One that add rules
  // name carries the value of one of them.
  lemma ClientHeader(out: Header, resp: Header, rc: Route, glob: (string, string) -> bool,
                     values: map<string, string>, key: string)
    requires Responds(out, resp, rc, glob, values) && rc.clientDelHasWildcard == HasWildcard(rc.clientDelHeaders)
    requires forall k :: k in resp["Via" := ["RouteMUX"]] ==> ValidName(k) && Canonical(k) == k
    ensures (forall name :: name in values ==> Canonical(name) != key) ==>
      var deleted :=
        exists p :: p in rc.clientDelHeaders && if '*' in p then glob(ToLower(p), ToLower(key)) else EqualFold(p, key);
      && (key in out <==> (key in resp || key == "Via") && !deleted)
      && (key in out ==> out[key] == if key == "Via" then ["RouteMUX"] else resp[key])
    ensures (exists name :: name in values && Canonical(name) == key) ==>
      exists name :: name in values && Canonical(name) == key && key in out && out[key] == [values[name]]
  {
    var before := BeforeClientAdds(resp, rc, glob);
    var order: seq<string> :| InOrder(out, before, order, values);
    assert before == Deleted(resp["Via" := ["RouteMUX"]], rc.clientDelHeaders, HasWildcard(rc.clientDelHeaders), glob);
    assert out == SetAll(Out(before, "", false), order, values).header && Enumerates(order, values.Keys);
    hide *;
    DeletedIff(resp["Via" := ["RouteMUX"]], rc.clientDelHeaders, glob, key);
    RulesForHeader(Out(before, "", false), order, values, key);
  }

  // From the configuration text to both messages

  // The raw values of the add rules, read directly.
  ghost function Interpreted(raw: map<string, string>, ctx: Context): map<string, string> {
    map name | name in raw :: Interpret(raw[name], ctx)
  }

  lemma ValuesInterpreted(raw: map<string, string>, headers: AddHeaders, ctx: Context)
    requires Compiles(raw, headers)
    ensures Usable(headers) && Values(headers, ctx) == Interpreted(raw, ctx)
  {
    CompiledUsable(raw, headers);
    hide Compiled, Interpret, Value;
    forall name | name in raw ensures Value(headers[name], ctx) == Interpret(raw[name], ctx) {
      CompilePreservesMeaning(raw[name], ctx);
    }
  }

  // A route as parsed from its raw rules, one request on its way to the upstream and
  // the upstream's response resp on its way back: compilation, flags, snapshots and
  // shortcuts leave both messages as reading the raw values directly would, with
  // everything at hand.
  method ServeParsedRoute(add: map<string, string>, del: seq<string>, clientAdd: map<string, string>,
                          clientDel: seq<string>, req: Request, s: Settings, hop: set<string>, resp: Header)
    returns (rc: Route, out: Header, ghost order: seq<string>)
    requires s.trust.Trust? && req.conn.clientIP != "" && ',' !in req.conn.clientIP
    modifies req
    ensures rc.deleteHeaders == del && rc.deleteHasWildcard == HasWildcard(del)
    ensures rc.clientDelHeaders == clientDel && rc.clientDelHasWildcard == HasWildcard(clientDel)
    ensures Enumerates(order, add.Keys)
    ensures forall i :: 0 <= i < |order| ==> order[i] in add
    ensures Out(req.Header, req.Host, true) ==
      WithoutHop(SetAll(BeforeAdds(old(req.Header), old(req.Host), req.conn, rc, s), order,
                        Interpreted(add, FullContext(old(req.Header), old(req.Host), req.conn, s.trust))), hop)
    ensures Responds(out, resp, rc, s.glob, Interpreted(clientAdd,
      Context(old(req.Host), req.conn.clientIP, req.conn.clientPort, SchemeOf(req.conn.tls), req.conn.requestURI,
              Chain(Forwarded(old(req.Header), old(req.Host), req.conn, s.trust)), s.trust, resp)))
  {
    hide BeforeAdds, Forwarded, Responds, FlagsMatch, Interpreted, Values, SetAll, Enumerates, Compiles;
    rc := ParseRoute(add, del, clientAdd, clientDel);
    ghost var full := FullContext(req.Header, req.Host, req.conn, s.trust);
    ghost var chain := Chain(Forwarded(req.Header, req.Host, req.conn, s.trust));
    ValuesInterpreted(add, rc.addHeaders, full);
    SameNames(add, rc.addHeaders);
    var requestHost, stored;
    requestHost, stored, order := ProxyRequest(req, rc, s, hop);
    ValuesInterpreted(clientAdd, rc.clientAddHeaders,
      Context(requestHost, req.conn.clientIP, req.conn.clientPort, SchemeOf(req.conn.tls), req.conn.requestURI,
              chain, s.trust, resp));
    out := ModifyResponse(resp, requestHost, req.conn, rc, s, stored, chain);
  }

  lemma SameNames(raw: map<string, string>, headers: AddHeaders)
    requires Compiles(raw, headers)
    ensures headers.Keys == raw.Keys
  {
  }

  // The Director together with ${trusted_xff}

  // A peer that is not a trusted proxy always yields its own address, whatever
  // X-Forwarded-For it sent.
  lemma UntrustedPeerYieldsItself(h: Header, host: string, conn: Conn, trust: TrustedXff.Trust)
    requires trust.Trust? && conn.clientIP != "" && !TrustedPeer(trust, conn.clientIP)
    requires ',' !in conn.clientIP && TrimSpace(conn.clientIP) == conn.clientIP
    ensures TrustedXff.Resolve(Chain(Forwarded(h, host, conn, trust)), trust, conn.clientIP) == conn.clientIP
  {
    var chain := Chain(Forwarded(h, host, conn, trust));
    assert chain == [conn.clientIP];
    SplitPrefix(conn.clientIP, "", ',');
    assert conn.clientIP + "" == conn.clientIP;
    assert TrustedXff.ValueEntries(conn.clientIP) == [conn.clientIP];
    assert TrustedXff.Entries(chain[1..]) == [];
    assert TrustedXff.Entries(chain) == [conn.clientIP];
  }

  // Behind a trusted proxy the address that proxy saw is the answer if it is not
  // itself trusted, whatever a client forged to the left of it.
  lemma ForgedChainIgnored(h: Header, host: string, conn: Conn, trust: TrustedXff.Trust,
                           forged: seq<string>, seen: string)
    requires trust.Trust? && !trust.trustClientHeaders && trust.hasProxies
    requires trust.Skips(conn.clientIP) && conn.clientIP != ""
    requires ',' !in conn.clientIP && TrimSpace(conn.clientIP) == conn.clientIP
    requires XFF in h && h[XFF] == forged + [seen]
    requires ',' !in seen && TrimSpace(seen) == seen && trust.valid(seen) && !trust.trusted(seen)
    ensures TrustedXff.Resolve(Chain(Forwarded(h, host, conn, trust)), trust, conn.clientIP) == seen
  {
    var ip := conn.clientIP;
    var value := Join(h[XFF], ", ") + ", " + ip;
    assert Chain(Forwarded(h, host, conn, trust)) == [value];
    JoinLast(h[XFF], ip);
    TrustedXff.FlattenIsPerValue(h[XFF] + [ip]);
    TrustedXff.FlattenIsPerValue([value]);
    assert h[XFF] + [ip] == forged + [seen, ip];
    TrustedXff.EntriesConcat(forged, [seen, ip]);
    OneEntry(seen);
    OneEntry(ip);
    assert [seen, ip][1..] == [ip];
    assert TrustedXff.Entries([seen, ip]) == [seen, ip];
    TrustedXff.StopDecides(TrustedXff.Entries(forged), [seen, ip], trust, ip);
    assert !trust.Skips([seen, ip][0]);
    assert TrustedXff.LastStop([seen, ip], trust) == 0;
  }

  lemma OneEntry(x: string)
    requires ',' !in x && TrimSpace(x) == x
    ensures TrustedXff.ValueEntries(x) == [x] && TrustedXff.Entries([x]) == [x]
  {
    SplitPrefix(x, "", ',');
    assert x + "" == x;
    assert TrustedXff.Entries([x][1..]) == [];
  }

  lemma {:induction false} JoinLast(parts: seq<string>, last: string)
    requires |parts| >= 1
    ensures Join([Join(parts, ", ") + ", " + last], ", ") == Join(parts + [last], ", ")
  {
    if |parts| == 1 {
      assert (parts + [last])[1..] == [last];
    } else {
      assert (parts + [last])[1..] == parts[1..] + [last];
      JoinLast(parts[1..], last);
      assert parts[0] + ", " + Join(parts[1..], ", ") + ", " + last
          == parts[0] + ", " + (Join(parts[1..], ", ") + ", " + last);
    }
  }
}
