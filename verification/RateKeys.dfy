/** Which rate limit a request is counted under (internal/middleware/ratelimit.go:20-163, extension.go:272-289). */
module RateKeys {
  import opened Extension
  import opened Options

  datatype ExtensionClass = ExtensionClass(name: string, userPerMin: int, ipPerMin: int, perIpOnly: bool)

  datatype Config = Config(ipAuth: int, ipPublic: int, ipApi: int, userApi: int, userExpensive: int, userReroute: int, userTiles: int)

  datatype Request = Request(path: string, m: string, ip: string, subject: Option<string>)

  /** The class of one of the gateway's own paths, and whether it is limited per user. */
  function EndpointClass(path: string): (string, bool) {
    if path in {"/api/v1/auth/login", "/api/v1/auth/register", "/api/v1/auth/request-password-reset",
                "/api/v1/auth/forgot-password", "/api/v1/auth/verify-email", "/api/v1/auth/mfa/reset/request",
                "/api/v1/auth/mfa/verify"} then ("auth", false)
    else if path == "/health" || path == "/api/v1/auth/public-keys" then ("public", false)
    else if "/v1/tiles/" <= path then ("tiles", true)
    else if path == "/api/v1/route/reroute" then ("reroute", true)
    else if "/api/v1/route" <= path || "/api/v1/search" <= path then ("expensive", true)
    else ("api", true)
  }

  datatype Kind = User | Ip

  function KindName(kind: Kind): string { if kind == User then "user" else "ip" }

  /** What a request is counted as, and how much of it is allowed in a minute. */
  datatype Charge = Charge(class_: string, kind: Kind, principal: string, limit: int)

  function Tail(class_: string, kind: Kind, principal: string): string {
    class_ + ":" + (KindName(kind) + ":" + principal)
  }

  function Key(class_: string, kind: Kind, principal: string): string {
    "rl:" + Tail(class_, kind, principal)
  }

  function KeyOf(c: Charge): string {
    Key(c.class_, c.kind, c.principal)
  }

  function ClassOf(r: Route): ExtensionClass {
    ExtensionClass(r.name, r.userPerMin, r.ipPerMin, r.auth == "none")
  }

  method RateClass(routes: seq<Route>, path: string, m: string) returns (class_: Option<ExtensionClass>)
    ensures Classified(routes, path, m, class_)
  {
    var found := Match(routes, path, m);
    class_ := if found.Some? then Some(ClassOf(found.value)) else None;
  }

  /** The charge of a request, given the class of the extension route that serves it, if one does. */
  function ChargeOf(cfg: Config, ext: Option<ExtensionClass>, r: Request): Charge {
    var authed := r.subject.Some?;
    match ext
    case Some(e) =>
      if authed && !e.perIpOnly then Charge("ext:" + e.name, User, r.subject.value, e.userPerMin)
      else Charge("ext:" + e.name, Ip, r.ip, e.ipPerMin)
    case None =>
      var (class_, perUser) := EndpointClass(r.path);
      if class_ == "auth" then Charge("auth", Ip, r.ip, cfg.ipAuth)
      else if class_ == "public" then Charge("pub", Ip, r.ip, cfg.ipPublic)
      else if authed then Charge(class_, User, r.subject.value, UserLimit(cfg, class_))
      else Charge(class_, Ip, r.ip, cfg.ipApi)
  }

  function UserLimit(cfg: Config, class_: string): int {
    if class_ == "expensive" then cfg.userExpensive
    else if class_ == "reroute" then cfg.userReroute
    else if class_ == "tiles" then cfg.userTiles
    else cfg.userApi
  }

  datatype Decision = Asked(key: string, limit: int) | Refused

  /** The middleware: one question to the limiter, and on with the request only if it answers yes without error. */
  method RateLimit(cfg: Config, ext: Option<ExtensionClass>, r: Request, limiter: (string, int) -> Option<bool>)
    returns (served: bool, asked: Decision)
    ensures var c := ChargeOf(cfg, ext, r); asked == Asked(KeyOf(c), c.limit)
    ensures served <==> limiter(asked.key, asked.limit) == Some(true)
  {
    hide Key, EndpointClass;
    OwnClasses(r.path);
    var (class_, perUser) := EndpointClass(r.path);
    var authed := r.subject.Some?;
    asked := Refused;
    if ext.Some? {
      class_ := "ext:" + ext.value.name;
      if authed && !ext.value.perIpOnly {
        asked := Asked(Key(class_, User, r.subject.value), ext.value.userPerMin);
      } else {
        asked := Asked(Key(class_, Ip, r.ip), ext.value.ipPerMin);
      }
    } else if class_ == "auth" {
      asked := Asked(Key("auth", Ip, r.ip), cfg.ipAuth);
    } else if class_ == "public" {
      asked := Asked(Key("pub", Ip, r.ip), cfg.ipPublic);
    } else if perUser && authed {
      var limit := cfg.userApi;
      match class_ {
        case "expensive" => limit := cfg.userExpensive;
        case "reroute" => limit := cfg.userReroute;
        case "tiles" => limit := cfg.userTiles;
        case _ =>
      }
      asked := Asked(Key(class_, User, r.subject.value), limit);
    } else if perUser {
      asked := Asked(Key(class_, Ip, r.ip), cfg.ipApi);
    }
    served := asked.Asked? && limiter(asked.key, asked.limit) == Some(true);
  }

  /** What is asked for a request that no extension route serves. */
  lemma OwnBudgets(cfg: Config, r: Request)
    ensures var c := ChargeOf(cfg, None, r);
            var asked := Asked(KeyOf(c), c.limit);
            if r.path == "/health" || r.path == "/api/v1/auth/public-keys" then asked == Asked("rl:pub:ip:" + r.ip, cfg.ipPublic)
            else if r.path == "/api/v1/auth/login" || r.path == "/api/v1/auth/register"
                    || r.path == "/api/v1/auth/request-password-reset" || r.path == "/api/v1/auth/forgot-password"
                    || r.path == "/api/v1/auth/verify-email" || r.path == "/api/v1/auth/mfa/reset/request"
                    || r.path == "/api/v1/auth/mfa/verify" then asked == Asked("rl:auth:ip:" + r.ip, cfg.ipAuth)
            else if r.path == "/api/v1/route/reroute" then
              asked == match r.subject
                       case Some(user) => Asked("rl:reroute:user:" + user, cfg.userReroute)
                       case None => Asked("rl:reroute:ip:" + r.ip, cfg.ipApi)
            else if "/v1/tiles/" <= r.path then
              asked == match r.subject
                       case Some(user) => Asked("rl:tiles:user:" + user, cfg.userTiles)
                       case None => Asked("rl:tiles:ip:" + r.ip, cfg.ipApi)
            else if "/api/v1/search" <= r.path || "/api/v1/route" <= r.path then
              asked == match r.subject
                       case Some(user) => Asked("rl:expensive:user:" + user, cfg.userExpensive)
                       case None => Asked("rl:expensive:ip:" + r.ip, cfg.ipApi)
            else
              asked == match r.subject
                       case Some(user) => Asked("rl:api:user:" + user, cfg.userApi)
                       case None => Asked("rl:api:ip:" + r.ip, cfg.ipApi)
  {
    OwnClasses(r.path);
    IpKeys(r.ip);
    if r.subject.Some? { UserKeys(r.subject.value); }
    hide Key;
    PathClass(r.path);
  }

  lemma PathClass(path: string)
    ensures path == "/health" || path == "/api/v1/auth/public-keys" ==> EndpointClass(path).0 == "public"
    ensures path == "/api/v1/route/reroute" ==> EndpointClass(path).0 == "reroute"
    ensures "/v1/tiles/" <= path ==> EndpointClass(path).0 == "tiles"
  {
    if "/v1/tiles/" <= path { assert path[1] == 'v'; }
    if path == "/api/v1/route/reroute" { assert path[1] == 'a' && path[8] == 'r'; }
    assert "/api/v1/auth/login"[8] == 'a' && "/api/v1/auth/register"[8] == 'a';
  }

  lemma UserKeys(user: string)
    ensures Key("reroute", User, user) == "rl:reroute:user:" + user && Key("tiles", User, user) == "rl:tiles:user:" + user
    ensures Key("expensive", User, user) == "rl:expensive:user:" + user && Key("api", User, user) == "rl:api:user:" + user
  {
    KeyText("reroute", User, user);
    KeyText("tiles", User, user);
    KeyText("expensive", User, user);
    KeyText("api", User, user);
    hide Key;
  }

  lemma IpKeys(ip: string)
    ensures Key("reroute", Ip, ip) == "rl:reroute:ip:" + ip && Key("tiles", Ip, ip) == "rl:tiles:ip:" + ip
    ensures Key("expensive", Ip, ip) == "rl:expensive:ip:" + ip && Key("api", Ip, ip) == "rl:api:ip:" + ip
    ensures Key("auth", Ip, ip) == "rl:auth:ip:" + ip && Key("pub", Ip, ip) == "rl:pub:ip:" + ip
  {
    KeyText("reroute", Ip, ip);
    KeyText("tiles", Ip, ip);
    KeyText("expensive", Ip, ip);
    KeyText("api", Ip, ip);
    KeyText("auth", Ip, ip);
    KeyText("pub", Ip, ip);
    hide Key;
  }

  lemma KeyText(class_: string, kind: Kind, principal: string)
    ensures Key(class_, kind, principal) == "rl:" + class_ + ":" + (if kind == User then "user" else "ip") + ":" + principal
  {
  }

  /** What is asked for a request that an extension route serves. */
  lemma RouteBudgets(cfg: Config, route: Route, r: Request)
    ensures var c := ChargeOf(cfg, Some(ClassOf(route)), r);
            Asked(KeyOf(c), c.limit)
            == if r.subject.Some? && route.auth != "none" then Asked("rl:ext:" + route.name + ":user:" + r.subject.value, route.userPerMin)
               else Asked("rl:ext:" + route.name + ":ip:" + r.ip, route.ipPerMin)
  {
    var c := ChargeOf(cfg, Some(ClassOf(route)), r);
    KeyText(c.class_, c.kind, c.principal);
    hide Key;
  }

  /** A text ends where its first colon stands, so equal texts agree up to it and after it. */
  lemma SplitAtColon(a: string, x: string, b: string, y: string)
    requires ':' !in a && ':' !in b && a + ":" + x == b + ":" + y
    ensures a == b && x == y
  {
    var s := a + ":" + x;
    assert s[|a|] == ':' && s[|b|] == ':';
    assert |a| == |b|;
    assert a == s[..|a|] && b == s[..|b|] && x == s[|a| + 1..] && y == s[|b| + 1..];
  }

  lemma SplitTail(class_: string, kind: Kind, principal: string, other: string, kind2: Kind, principal2: string)
    requires ':' !in class_ && ':' !in other && Tail(class_, kind, principal) == Tail(other, kind2, principal2)
    ensures class_ == other && kind == kind2 && principal == principal2
  {
    SplitAtColon(class_, KindName(kind) + ":" + principal, other, KindName(kind2) + ":" + principal2);
    SplitAtColon(KindName(kind), principal, KindName(kind2), principal2);
    assert |KindName(kind)| == |KindName(kind2)|;
  }

  lemma ExtTail(name: string, kind: Kind, principal: string)
    ensures Tail("ext:" + name, kind, principal) == "ext" + ":" + Tail(name, kind, principal)
  {
    assert "ext:" + name == "ext" + (":" + name);
  }

  lemma KeyTail(class_: string, kind: Kind, principal: string)
    ensures Key(class_, kind, principal)[3..] == Tail(class_, kind, principal)
  {
  }

  /** A rate-limit class: one of the gateway's own, or an extension route's. */
  datatype Class = Own(name: string) | Ext(name: string)

  function Label(c: Class): string { if c.Own? then c.name else "ext:" + c.name }

  predicate Readable(c: Class) { ':' !in c.name && (c.Own? ==> c.name != "ext") }

  /** Class, kind and principal can be read back from a key whose class name holds no colon. */
  lemma KeyReadsBack(c: Class, kind: Kind, principal: string, d: Class, kind2: Kind, principal2: string)
    requires Readable(c) && Readable(d) && Key(Label(c), kind, principal) == Key(Label(d), kind2, principal2)
    ensures c == d && kind == kind2 && principal == principal2
  {
    KeyTail(Label(c), kind, principal);
    KeyTail(Label(d), kind2, principal2);
    hide Key;
    if c.Ext? { ExtTail(c.name, kind, principal); }
    if d.Ext? { ExtTail(d.name, kind2, principal2); }
    if c.Own? && d.Own? {
      SplitTail(c.name, kind, principal, d.name, kind2, principal2);
    } else if c.Ext? && d.Ext? {
      SplitAtColon("ext", Tail(c.name, kind, principal), "ext", Tail(d.name, kind2, principal2));
      SplitTail(c.name, kind, principal, d.name, kind2, principal2);
    } else if c.Own? {
      SplitAtColon(c.name, KindName(kind) + ":" + principal, "ext", Tail(d.name, kind2, principal2));
    } else {
      SplitAtColon(d.name, KindName(kind2) + ":" + principal2, "ext", Tail(c.name, kind, principal));
    }
  }

  /** The extension class of a request: that of the route serving it. */
  ghost predicate Classified(routes: seq<Route>, path: string, m: string, ext: Option<ExtensionClass>) {
    exists found :: IsMatch(routes, path, m, found) && ext == if found.Some? then Some(ClassOf(found.value)) else None
  }

  function ClassFor(ext: Option<ExtensionClass>, r: Request): Class {
    match ext
    case Some(e) => Ext(e.name)
    case None => Own(if EndpointClass(r.path).0 == "public" then "pub" else EndpointClass(r.path).0)
  }

  /** The limit of a class of the gateway's own. */
  function LimitOf(cfg: Config, class_: string, kind: Kind): int {
    if class_ == "auth" then cfg.ipAuth
    else if class_ == "pub" then cfg.ipPublic
    else if kind == User then UserLimit(cfg, class_)
    else cfg.ipApi
  }

  /** The gateway's own classes, and which of them are limited per user. */
  lemma OwnClasses(path: string)
    ensures var (class_, perUser) := EndpointClass(path);
            && (perUser <==> class_ == "tiles" || class_ == "reroute" || class_ == "expensive" || class_ == "api")
            && (!perUser <==> class_ == "auth" || class_ == "public")
  {
  }

  lemma ChargeReads(cfg: Config, ext: Option<ExtensionClass>, r: Request)
    ensures var c := ChargeOf(cfg, ext, r);
            && c.class_ == Label(ClassFor(ext, r))
            && (ext.None? ==> Readable(ClassFor(ext, r)) && c.limit == LimitOf(cfg, c.class_, c.kind))
            && (ext.Some? ==> c.limit == if c.kind == User then ext.value.userPerMin else ext.value.ipPerMin)
  {
    hide UserLimit, EndpointClass;
    OwnClasses(r.path);
  }

  /** One budget per key: requests that share a key share class, kind, principal and limit. */
  lemma KeyDecidesCharge(cfg: Config, routes: seq<Route>, r: Request, ext: Option<ExtensionClass>,
                         q: Request, ext2: Option<ExtensionClass>)
    requires Distinct(routes) && forall i :: 0 <= i < |routes| ==> ':' !in routes[i].name
    requires Classified(routes, r.path, r.m, ext) && Classified(routes, q.path, q.m, ext2)
    requires KeyOf(ChargeOf(cfg, ext, r)) == KeyOf(ChargeOf(cfg, ext2, q))
    ensures ChargeOf(cfg, ext, r) == ChargeOf(cfg, ext2, q)
  {
    hide Key, EndpointClass, LimitOf, UserLimit, Serves;
    ChargeReads(cfg, ext, r);
    ChargeReads(cfg, ext2, q);
    var c, d := ChargeOf(cfg, ext, r), ChargeOf(cfg, ext2, q);
    hide ChargeOf;
    KeyReadsBack(ClassFor(ext, r), c.kind, c.principal, ClassFor(ext2, q), d.kind, d.principal);
  }

  // ---- names with a colon

  /** The name continues as a key of the other's class would. */
  predicate Continues(name: string, other: string) {
    name + ":user:" <= other + ":" || name + ":ip:" <= other + ":"
  }

  ghost predicate Clash(name: string, other: string) {
    exists kind, principal, kind2, principal2 ::
      Key("ext:" + name, kind, principal) == Key("ext:" + other, kind2, principal2)
  }

  /** Two extension routes can come to share a budget exactly when one's name continues as the other's keys do. */
  lemma ClashExactly(name: string, other: string)
    requires name != other
    ensures Clash(name, other) <==> Continues(name, other) || Continues(other, name)
  {
    if Clash(name, other) {
      var kind, principal, kind2, principal2 :| Key("ext:" + name, kind, principal) == Key("ext:" + other, kind2, principal2);
      ClashContinues(name, kind, principal, other, kind2, principal2);
    }
    if Continues(name, other) { ContinuesClash(name, other); }
    if Continues(other, name) { ContinuesClash(other, name); }
  }

  lemma ContinuesClash(name: string, other: string)
    requires Continues(name, other)
    ensures Clash(name, other) && Clash(other, name)
  {
    var kind := if name + ":user:" <= other + ":" then User else Ip;
    var head := name + ":" + KindName(kind) + ":";
    assert head <= other + ":";
    var principal := (other + ":" + (KindName(Ip) + ":" + ""))[|head|..];
    assert Tail(other, Ip, "") == head + principal == Tail(name, kind, principal);
    ExtTail(name, kind, principal);
    ExtTail(other, Ip, "");
    assert Key("ext:" + name, kind, principal) == Key("ext:" + other, Ip, "");
  }

  lemma ClashContinues(name: string, kind: Kind, principal: string, other: string, kind2: Kind, principal2: string)
    requires name != other && Key("ext:" + name, kind, principal) == Key("ext:" + other, kind2, principal2)
    ensures Continues(name, other) || Continues(other, name)
  {
    KeyTail("ext:" + name, kind, principal);
    KeyTail("ext:" + other, kind2, principal2);
    ExtTail(name, kind, principal);
    ExtTail(other, kind2, principal2);
    var s := Tail(name, kind, principal);
    SplitAtColon("ext", s, "ext", Tail(other, kind2, principal2));
    assert name == s[..|name|] && other == s[..|other|];
    if |name| < |other| {
      ShorterContinues(s, name, kind, principal, other, kind2, principal2);
    } else if |other| < |name| {
      ShorterContinues(s, other, kind2, principal2, name, kind, principal);
    }
  }

  /** The longer name's end is a colon past the shorter name's own; the kind between them holds none. */
  lemma ShorterContinues(s: string, name: string, kind: Kind, principal: string, other: string, kind2: Kind, principal2: string)
    requires s == Tail(name, kind, principal) == Tail(other, kind2, principal2) && |name| < |other|
    ensures Continues(name, other)
  {
    var head := name + ":" + KindName(kind) + ":";
    assert s == head + principal;
    assert s == (other + ":") + (KindName(kind2) + ":" + principal2);
    assert s[|other|] == ':';
    assert forall p :: |name| < p < |head| - 1 ==> s[p] == KindName(kind)[p - |name| - 1];
    assert head == s[..|head|] && other + ":" == s[..|other| + 1];
  }
}
