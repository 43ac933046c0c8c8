/** gateway/flow_control/flow_control.go: which rules match a request, who its client is, and
    under which key each rule's limiter is charged. */
module Requests {
  import opened Texts

  datatype RateLimit = RateLimit(requests: int, window: string, unit: string, mode: string)

  datatype FlowRule = FlowRule(
    name: string, enabled: bool, priority: int, matchType: string, matchValue: string,
    headerKey: string, limits: seq<RateLimit>)

  datatype HttpRequest = HttpRequest(host: string, headers: map<string, string>, remoteAddr: string)

  // ----- the client -----

  function Header(req: HttpRequest, key: string): string {
    if key in req.headers then req.headers[key] else ""
  }

  function ClientIP(req: HttpRequest): string {
    var xff := Header(req, "X-Forwarded-For");
    var xri := Header(req, "X-Real-IP");
    if xff != "" then TrimSpace(Before(xff, ','))
    else if xri != "" then xri
    else BeforeLast(req.remoteAddr, ':')
  }

  /** The request carries the header with a value. */
  predicate Sends(req: HttpRequest, key: string) {
    key in req.headers && req.headers[key] != ""
  }

  /** A forwarded request's client is the first address of the list, whatever the blanks around it
      and whatever proxies follow. */
  lemma {:induction false} ForwardedClient(req: HttpRequest, left: string, address: string, right: string, rest: string)
    requires Sends(req, "X-Forwarded-For") && req.headers["X-Forwarded-For"] == left + address + right + rest
    requires Blank(left) && Blank(right) && Trimmed(address) && ',' !in address && (rest == "" || rest[0] == ',')
    ensures ClientIP(req) == address
  {
    var first := left + address + right;
    assert ',' !in first;
    BeforeIs(first, ',', rest);
    TrimSpaceIs(left, address, right);
  }

  /** Otherwise it is the one in X-Real-IP. */
  lemma {:induction false} RealClient(req: HttpRequest)
    requires !Sends(req, "X-Forwarded-For") && Sends(req, "X-Real-IP")
    ensures ClientIP(req) == req.headers["X-Real-IP"]
  {
  }

  /** Otherwise it is the peer's host, without the port. */
  lemma {:induction false} PeerClient(req: HttpRequest, host: string, port: string)
    requires !Sends(req, "X-Forwarded-For") && !Sends(req, "X-Real-IP")
    ensures req.remoteAddr == host + ":" + port && ':' !in port ==> ClientIP(req) == host
    ensures req.remoteAddr == host && ':' !in host ==> ClientIP(req) == host
  {
    if ':' !in port { BeforeLastIs(host, ':', port); }
  }

  // ----- matching -----

  predicate MatchRule(req: HttpRequest, rule: FlowRule) {
    if rule.matchType == "host" then req.host == rule.matchValue || Contains(req.host, rule.matchValue)
    else if rule.matchType == "header" then
      Header(req, rule.headerKey) == rule.matchValue || Contains(Header(req, rule.headerKey), rule.matchValue)
    else rule.matchType == "ip" && ClientIP(req) == rule.matchValue
  }

  /** A host or header rule matches when its value is a slice of that text, a missing header being
      empty; an ip rule when its value is the client; and a rule of any other type never. */
  lemma {:induction false} MatchesIff(req: HttpRequest, rule: FlowRule)
    ensures rule.matchType == "host" ==>
              (MatchRule(req, rule) <==> exists i :: SliceAt(req.host, rule.matchValue, i))
    ensures rule.matchType == "header" && rule.headerKey in req.headers ==>
              (MatchRule(req, rule) <==> exists i :: SliceAt(req.headers[rule.headerKey], rule.matchValue, i))
    ensures rule.matchType == "header" && rule.headerKey !in req.headers ==>
              (MatchRule(req, rule) <==> rule.matchValue == "")
    ensures rule.matchType == "ip" ==> (MatchRule(req, rule) <==> ClientIP(req) == rule.matchValue)
    ensures rule.matchType !in {"host", "header", "ip"} ==> !MatchRule(req, rule)
  {
    ContainsIff(req.host, rule.matchValue);
    ContainsIff(Header(req, rule.headerKey), rule.matchValue);
    if req.host == rule.matchValue { assert SliceAt(req.host, rule.matchValue, 0); }
    if Header(req, rule.headerKey) == rule.matchValue {
      assert SliceAt(Header(req, rule.headerKey), rule.matchValue, 0);
    }
  }

  // ----- keys -----

  function GenerateKey(req: HttpRequest, rule: FlowRule): string {
    if rule.matchType == "host" then "rule:" + rule.name + ":host:" + req.host
    else if rule.matchType == "header" then
      "rule:" + rule.name + ":header:" + rule.headerKey + ":" + Header(req, rule.headerKey)
    else if rule.matchType == "ip" then "rule:" + rule.name + ":ip:" + ClientIP(req)
    else "rule:" + rule.name + ":unknown"
  }

  function GenerateGlobalKey(req: HttpRequest): string {
    "global:ip:" + ClientIP(req)
  }

  /** What a rule of this type tells clients apart by. */
  function Identity(req: HttpRequest, rule: FlowRule): string {
    if rule.matchType == "host" then req.host
    else if rule.matchType == "header" then Header(req, rule.headerKey)
    else if rule.matchType == "ip" then ClientIP(req)
    else ""
  }

  /** Two requests share a rule's budget exactly when they agree in what it matches on. */
  lemma {:induction false} KeysSeparateClients(a: HttpRequest, b: HttpRequest, rule: FlowRule)
    ensures GenerateKey(a, rule) == GenerateKey(b, rule) <==> Identity(a, rule) == Identity(b, rule)
    ensures GenerateGlobalKey(a) == GenerateGlobalKey(b) <==> ClientIP(a) == ClientIP(b)
  {
    Cancel("rule:" + rule.name + ":host:", Identity(a, rule), Identity(b, rule));
    Cancel("rule:" + rule.name + ":header:" + rule.headerKey + ":", Identity(a, rule), Identity(b, rule));
    Cancel("rule:" + rule.name + ":ip:", Identity(a, rule), Identity(b, rule));
    Cancel("global:ip:", ClientIP(a), ClientIP(b));
  }

  /** The key after "rule:" and the name. */
  function Suffix(req: HttpRequest, rule: FlowRule): string {
    if rule.matchType == "host" then "host:" + req.host
    else if rule.matchType == "header" then "header:" + (rule.headerKey + ":" + Header(req, rule.headerKey))
    else if rule.matchType == "ip" then "ip:" + ClientIP(req)
    else "unknown"
  }

  lemma {:induction false} Regroup(a: string, b: string, c: string, d: string)
    ensures a + b + (":" + c) + d == a + (b + ":" + (c + d))
  {
  }

  lemma {:induction false} HeaderKey(req: HttpRequest, rule: FlowRule)
    requires rule.matchType == "header"
    ensures GenerateKey(req, rule) == "rule:" + (rule.name + ":" + Suffix(req, rule))
  {
    var k, v := rule.headerKey, Header(req, rule.headerKey);
    assert ":header:" == ":" + "header:";
    Regroup("rule:", rule.name, "header:", k + ":" + v);
    assert "rule:" + rule.name + ":header:" + k + ":" + v == "rule:" + rule.name + ":header:" + (k + ":" + v);
  }

  lemma {:induction false} KeyParts(req: HttpRequest, rule: FlowRule)
    ensures GenerateKey(req, rule) == "rule:" + (rule.name + ":" + Suffix(req, rule))
  {
    if rule.matchType == "host" {
      assert ":host:" == ":" + "host:";
      Regroup("rule:", rule.name, "host:", req.host);
    } else if rule.matchType == "header" {
      HeaderKey(req, rule);
    } else if rule.matchType == "ip" {
      assert ":ip:" == ":" + "ip:";
      Regroup("rule:", rule.name, "ip:", ClientIP(req));
    } else {
      assert ":unknown" == ":" + "unknown";
      Regroup("rule:", rule.name, "unknown", "");
    }
  }

  /** Rules of one type look at the same thing; unknown types are all one. */
  predicate SameKind(p: FlowRule, q: FlowRule) {
    p.matchType == q.matchType || (p.matchType !in {"host", "header", "ip"} && q.matchType !in {"host", "header", "ip"})
  }

  lemma {:induction false} SuffixStarts(req: HttpRequest, rule: FlowRule)
    ensures |Suffix(req, rule)| >= 2
    ensures Suffix(req, rule)[..2] == if rule.matchType == "host" then "ho" else if rule.matchType == "header" then "he"
                                      else if rule.matchType == "ip" then "ip" else "un"
  {
  }

  lemma {:induction false} SuffixKinds(a: HttpRequest, p: FlowRule, b: HttpRequest, q: FlowRule)
    ensures Suffix(a, p) == Suffix(b, q) ==> SameKind(p, q)
  {
    SuffixStarts(a, p);
    SuffixStarts(b, q);
    assert "ho"[1] != "he"[1] && "ip"[0] != "ho"[0] && "ip"[0] != "he"[0];
    assert "un"[0] != "ho"[0] && "un"[0] != "he"[0] && "un"[0] != "ip"[0];
  }

  lemma {:induction false} SameSuffix(a: HttpRequest, p: FlowRule, b: HttpRequest, q: FlowRule)
    requires SameKind(p, q) && ':' !in p.headerKey && ':' !in q.headerKey
    ensures Suffix(a, p) == Suffix(b, q) <==>
              (p.matchType == "header" ==> p.headerKey == q.headerKey) && Identity(a, p) == Identity(b, q)
  {
    Cancel("host:", Identity(a, p), Identity(b, q));
    Cancel("ip:", Identity(a, p), Identity(b, q));
    if p.matchType == "header" {
      var s, t := p.headerKey + ":" + Identity(a, p), q.headerKey + ":" + Identity(b, q);
      Cancel("header:", s, t);
      if s == t { SplitAt(':', p.headerKey, Identity(a, p), q.headerKey, Identity(b, q)); }
    }
  }

  /** Across rules: as long as names and header keys hold no colon, two rules' keys are equal exactly
      when the rules agree in name, type and header key and the requests in what they look at. */
  lemma {:induction false} KeysSeparateRules(a: HttpRequest, p: FlowRule, b: HttpRequest, q: FlowRule)
    requires ':' !in p.name && ':' !in q.name && ':' !in p.headerKey && ':' !in q.headerKey
    ensures GenerateKey(a, p) == GenerateKey(b, q) <==>
              && p.name == q.name && SameKind(p, q) && (p.matchType == "header" ==> p.headerKey == q.headerKey)
              && Identity(a, p) == Identity(b, q)
  {
    KeyParts(a, p);
    KeyParts(b, q);
    Cancel("rule:", p.name + ":" + Suffix(a, p), q.name + ":" + Suffix(b, q));
    if GenerateKey(a, p) == GenerateKey(b, q) {
      SplitAt(':', p.name, Suffix(a, p), q.name, Suffix(b, q));
      SuffixKinds(a, p, b, q);
    }
    if SameKind(p, q) {
      SameSuffix(a, p, b, q);
    }
  }
}
