/** Extension routes: which sets of them are accepted, and which route serves a request
    (internal/extension/extension.go:43-59, 118-188, 199-289). */
module Extension {
  import opened Options

  datatype Route = Route(name: string, path: string, methods: seq<string>, upstream: string, auth: string,
                         forwardAuthorization: bool, maxBodyBytes: int, timeout: int, userPerMin: int, ipPerMin: int)

  const BASE := "/api/v1/"

  const RESERVED := ["/api/v1/auth", "/api/v1/route", "/api/v1/search", "/api/v1/region",
                     "/v1/tiles", "/web", "/health", "/api/openapi.yaml"]

  const ALLOWED := {"GET", "POST", "PUT", "DELETE"}

  predicate Contains(s: string, part: string) {
    exists i :: 0 <= i <= |s| && part <= s[i..]
  }

  /** Equal to the prefix or below it. */
  predicate Under(path: string, prefix: string) {
    path == prefix || prefix + "/" <= path
  }

  predicate ValidPath(path: string) {
    && BASE < path
    && (forall i :: 0 <= i < |path| ==> path[i] !in " ?#{}*")
    && !Contains(path, "..") && !Contains(path, "//")
    && forall i :: 0 <= i < |RESERVED| ==> !Under(path, RESERVED[i])
  }

  /** Everything a route must meet by itself. */
  predicate ValidRoute(r: Route, upstreamOk: string -> bool) {
    && r.name != "" && ValidPath(r.path)
    && r.methods != [] && (forall m :: 0 <= m < |r.methods| ==> r.methods[m] in ALLOWED)
    && upstreamOk(r.upstream)
    && (r.auth == "none" || r.auth == "user" || r.auth == "admin")
    && (r.forwardAuthorization ==> r.auth != "none")
    && r.maxBodyBytes > 0 && r.timeout > 0 && r.ipPerMin > 0
    && (r.auth != "none" ==> r.userPerMin > 0)
  }

  /** Both routes take one method of one path. */
  predicate Collide(r: Route, other: Route) {
    r.path == other.path && exists m :: m in r.methods && m in other.methods
  }

  /** No two routes share a name, and no method and path is given twice, in one route or in two. */
  predicate Distinct(routes: seq<Route>) {
    && (forall i, j :: 0 <= i < j < |routes| ==> routes[i].name != routes[j].name)
    && (forall i, j :: 0 <= i < j < |routes| ==> !Collide(routes[i], routes[j]))
    && (forall i :: 0 <= i < |routes| ==> NoRepeat(routes[i].methods))
  }

  predicate NoRepeat(s: seq<string>) {
    forall m, n :: 0 <= m < n < |s| ==> s[m] != s[n]
  }

  predicate ValidSet(routes: seq<Route>, upstreamOk: string -> bool) {
    (forall i :: 0 <= i < |routes| ==> ValidRoute(routes[i], upstreamOk)) && Distinct(routes)
  }

  predicate MatchesPath(pattern: string, path: string) {
    if pattern != "" && pattern[|pattern| - 1] == '/' then pattern <= path else path == pattern
  }

  predicate Serves(r: Route, path: string, m: string) {
    MatchesPath(r.path, path) && m in r.methods
  }

  method HasMethod(methods: seq<string>, m: string) returns (has: bool)
    ensures has == (m in methods)
  {
    for i := 0 to |methods|
      invariant m !in methods[..i]
    {
      if methods[i] == m { return true; }
    }
    return false;
  }

  /** A route that serves the request and whose path is the longest such, the first of them in the list. */
  predicate Best(routes: seq<Route>, path: string, m: string, i: nat) {
    && i < |routes| && Serves(routes[i], path, m)
    && (forall j :: 0 <= j < |routes| && Serves(routes[j], path, m) ==> |routes[j].path| <= |routes[i].path|)
    && (forall j :: 0 <= j < i && Serves(routes[j], path, m) ==> |routes[j].path| < |routes[i].path|)
  }

  /** The best route, or none when none serves the request. */
  ghost predicate IsMatch(routes: seq<Route>, path: string, m: string, found: Option<Route>) {
    match found
    case None => forall i :: 0 <= i < |routes| ==> !Serves(routes[i], path, m)
    case Some(r) => exists i: nat :: Best(routes, path, m, i) && routes[i] == r
  }

  method Match(routes: seq<Route>, path: string, m: string) returns (found: Option<Route>)
    ensures IsMatch(routes, path, m, found)
  {
    hide MatchesPath;
    found := None;
    ghost var at: nat := 0;
    for k := 0 to |routes|
      invariant found.None? ==> forall i :: 0 <= i < k ==> !Serves(routes[i], path, m)
      invariant found.Some? ==> at < k && Best(routes[..k], path, m, at) && routes[at] == found.value
    {
      var route := routes[k];
      var has := HasMethod(route.methods, m);
      if !MatchesPath(route.path, path) || !has { continue; }
      if found.None? || |route.path| > |found.value.path| {
        found, at := Some(route), k;
      }
    }
    assert routes[..|routes|] == routes;
  }

  /** What a set of routes serves: a path ending in "/" every path that continues it, however deep. */
  lemma PrefixServes(routes: seq<Route>, i: nat, p: string, rest: string, m: string, found: Option<Route>)
    requires i < |routes| && routes[i].path == p + "/" && m in routes[i].methods
    requires IsMatch(routes, p + "/" + rest, m, found)
    ensures found.Some? && |found.value.path| >= |p| + 1
  {
    assert Serves(routes[i], p + "/" + rest, m);
    hide MatchesPath;
  }

  /** Any other path itself, and nothing that a longer one could serve. */
  lemma ExactServes(routes: seq<Route>, i: nat, m: string, found: Option<Route>)
    requires i < |routes| && m in routes[i].methods
    requires routes[i].path == "" || routes[i].path[|routes[i].path| - 1] != '/'
    requires IsMatch(routes, routes[i].path, m, found)
    ensures found.Some? && found.value.path == routes[i].path
  {
    var path := routes[i].path;
    assert Serves(routes[i], path, m);
    if found.Some? {
      var j: nat :| Best(routes, path, m, j) && routes[j] == found.value;
      assert |path| <= |routes[j].path| && found.value.path <= path;
    }
  }

  /** And nothing else: the route found takes the method, and its path is the request's or a prefix of it ending in "/". */
  lemma ServedByMeans(routes: seq<Route>, path: string, m: string, found: Option<Route>)
    requires IsMatch(routes, path, m, found) && found.Some?
    ensures found.value in routes && m in found.value.methods
    ensures var pattern := found.value.path;
            path == pattern || (pattern != "" && pattern[|pattern| - 1] == '/' && pattern <= path)
  {
  }

  /** Patterns of one length that match one path are the same pattern. */
  lemma SameLengthSamePattern(p: string, q: string, path: string)
    requires MatchesPath(p, path) && MatchesPath(q, path) && |p| == |q|
    ensures p == q
  {
    assert p == path[..|p|] && q == path[..|q|];
  }

  /** In a valid set the best route is the one strictly longest of those that serve the request. */
  lemma BestIsLongest(routes: seq<Route>, path: string, m: string, i: nat, j: nat)
    requires Distinct(routes) && Best(routes, path, m, i)
    requires j < |routes| && j != i && Serves(routes[j], path, m)
    ensures |routes[j].path| < |routes[i].path|
  {
    if |routes[j].path| == |routes[i].path| {
      SameLengthSamePattern(routes[i].path, routes[j].path, path);
      assert false;
    }
  }

  /** The order of the routes in the file does not matter. */
  lemma MatchIgnoresOrder(routes: seq<Route>, others: seq<Route>, path: string, m: string,
                          found: Option<Route>, other: Option<Route>)
    requires Distinct(routes) && multiset(routes) == multiset(others)
    requires IsMatch(routes, path, m, found) && IsMatch(others, path, m, other)
    ensures found == other
  {
    hide MatchesPath;
    if found.Some? {
      var i: nat :| Best(routes, path, m, i) && routes[i] == found.value;
      var l := Elsewhere(routes, others, i);
      if other.Some? {
        var j: nat :| Best(others, path, m, j) && others[j] == other.value;
        var k := Elsewhere(others, routes, j);
        if k != i { BestIsLongest(routes, path, m, i, k); }
      }
    } else if other.Some? {
      var j: nat :| Best(others, path, m, j) && others[j] == other.value;
      var k := Elsewhere(others, routes, j);
    }
  }

  lemma Elsewhere(routes: seq<Route>, others: seq<Route>, i: nat) returns (k: nat)
    requires multiset(routes) == multiset(others) && i < |routes|
    ensures k < |others| && others[k] == routes[i]
  {
    assert routes[i] in multiset(others);
    k :| k < |others| && others[k] == routes[i];
  }

  /** No accepted route, exact or prefix, serves a path of the gateway's own endpoints: a prefix pattern as long as
      a reserved prefix would lie under it, and a shorter one would end inside its last segment. */
  lemma ReservedNeverMatched(pattern: string, path: string, i: nat)
    requires ValidPath(pattern) && i < |RESERVED| && Under(path, RESERVED[i])
    ensures !MatchesPath(pattern, path)
  {
  }

  // ---- validation

  /** The text up to the first "/". */
  function FirstSegment(s: string): string {
    if s == "" || s[0] == '/' then "" else [s[0]] + FirstSegment(s[1..])
  }

  lemma {:induction false} SegmentIs(s: string, name: string)
    requires '/' !in name
    ensures FirstSegment(s) == name <==> Under(s, name)
  {
    if name != "" && s != "" {
      SegmentIs(s[1..], name[1..]);
      assert name == [name[0]] + name[1..] && s == [s[0]] + s[1..];
      assert name + "/" == [name[0]] + (name[1..] + "/");
    }
  }

  /** Two equal characters next to each other. */
  predicate Doubled(s: string, c: char) { exists i :: 0 <= i < |s| - 1 && s[i] == c && s[i + 1] == c }

  lemma ContainsPair(s: string, c: char)
    ensures Contains(s, [c, c]) <==> Doubled(s, c)
  {
    if Contains(s, [c, c]) {
      var i :| 0 <= i <= |s| && [c, c] <= s[i..];
      assert s[i] == [c, c][0] && s[i..][1] == [c, c][1] && s[i + 1] == s[i..][1];
    }
    if Doubled(s, c) {
      var i :| 0 <= i < |s| - 1 && s[i] == c && s[i + 1] == c;
      assert s[i..][0] == c && s[i..][1] == c;
      assert [c, c] <= s[i..];
    }
  }

  lemma DoubledBehind(base: string, s: string, c: char)
    requires base != "" && !Doubled(base, c)
    ensures Doubled(base + s, c) <==> Doubled(s, c) || (s != "" && base[|base| - 1] == c && s[0] == c)
  {
    var all := base + s;
    if Doubled(s, c) {
      var i :| 0 <= i < |s| - 1 && s[i] == c && s[i + 1] == c;
      assert all[|base| + i] == c && all[|base| + i + 1] == c;
    }
    if Doubled(all, c) {
      var i :| 0 <= i < |all| - 1 && all[i] == c && all[i + 1] == c;
      if i >= |base| {
        assert s[i - |base|] == c && s[i - |base| + 1] == c;
      } else if i < |base| - 1 {
        assert false;
      }
    }
    if s != "" && base[|base| - 1] == c && s[0] == c {
      assert all[|base| - 1] == c && all[|base|] == c;
    }
  }

  lemma UnderBase(s: string, name: string)
    ensures Under("/api/v1/" + s, "/api/v1/" + name) <==> Under(s, name)
  {
    var p, q := "/api/v1/" + s, "/api/v1/" + name;
    assert s == p[8..] && name == q[8..];
    assert q + "/" == "/api/v1/" + (name + "/");
    if q + "/" <= p { assert name + "/" == (q + "/")[8..] && name + "/" <= p[8..]; }
    if name + "/" <= s { assert p == q + "/" + s[|name| + 1..]; }
  }

  predicate Reserved(path: string) { exists i :: 0 <= i < |RESERVED| && Under(path, RESERVED[i]) }

  predicate Plain(path: string) { forall i :: 0 <= i < |path| ==> path[i] !in " ?#{}*" }

  lemma ReservedMeans(s: string)
    ensures Reserved(BASE + s) <==>
              FirstSegment(s) == "auth" || FirstSegment(s) == "route" || FirstSegment(s) == "search" || FirstSegment(s) == "region"
  {
    hide Under, FirstSegment;
    OwnSegment(s, 0, "auth");
    OwnSegment(s, 1, "route");
    OwnSegment(s, 2, "search");
    OwnSegment(s, 3, "region");
    if Reserved(BASE + s) {
      var i :| 0 <= i < |RESERVED| && Under(BASE + s, RESERVED[i]);
      if i >= 4 {
        NotBelowBase(s, i);
        assert false;
      }
      assert i == 0 || i == 1 || i == 2 || i == 3;
    }
  }

  /** The other reserved prefixes do not lie below the base. */
  lemma NotBelowBase(s: string, i: nat)
    requires 4 <= i < |RESERVED|
    ensures !Under(BASE + s, RESERVED[i])
  {
    var p := BASE + s;
    assert p[1] == 'a' && p[5] == 'v';
    assert RESERVED[i][1] != 'a' || RESERVED[i][5] != 'v';
  }

  lemma OwnSegment(s: string, i: nat, name: string)
    requires i < |RESERVED| && RESERVED[i] == "/api/v1/" + name && '/' !in name
    ensures Under(BASE + s, RESERVED[i]) <==> FirstSegment(s) == name
  {
    UnderBase(s, name);
    SegmentIs(s, name);
    hide Under, FirstSegment;
  }

  lemma CharsBehind(s: string)
    ensures Plain(BASE + s) <==>
              ' ' !in s && '?' !in s && '#' !in s && '{' !in s && '}' !in s && '*' !in s
  {
    var p := BASE + s;
    assert forall i :: 0 <= i < |s| ==> s[i] == p[|BASE| + i];
    assert forall i :: 0 <= i < |BASE| ==> p[i] == BASE[i];
  }

  lemma ValidPathParts(path: string)
    ensures ValidPath(path) <==> BASE < path && Plain(path) && !Contains(path, "..") && !Contains(path, "//") && !Reserved(path)
  {
    hide Contains, Under;
  }

  /** Which paths an extension route may have below the base: their first segment is none of the gateway's own. */
  lemma ValidPathMeans(s: string)
    ensures ValidPath("/api/v1/" + s) <==>
              && s != "" && s[0] != '/' && !Doubled(s, '.') && !Doubled(s, '/')
              && ' ' !in s && '?' !in s && '#' !in s && '{' !in s && '}' !in s && '*' !in s
              && FirstSegment(s) != "auth" && FirstSegment(s) != "route"
              && FirstSegment(s) != "search" && FirstSegment(s) != "region"
  {
    assert !Doubled(BASE, '.') && !Doubled(BASE, '/') && BASE[7] == '/' && (BASE < BASE + s <==> s != "");
    hide *;
    ValidPathParts(BASE + s);
    CharsBehind(s);
    ContainsPair(BASE + s, '.');
    ContainsPair(BASE + s, '/');
    DoubledBehind(BASE, s, '.');
    DoubledBehind(BASE, s, '/');
    ReservedMeans(s);
  }

  datatype Problem =
    | NameMissing | DuplicateName | BadPath | NoMethods | MethodNotAllowed(m: string) | PatternTaken(m: string, holder: string)
    | BadUpstream | BadAuth | ForwardWithoutAuth | NoBodyLimit | BadTimeout | NoIpLimit | NoUserLimit

  datatype Report = Report(route: nat, problem: Problem)

  function Key(m: string, path: string): string { m + " " + path }

  function KeysOf(methods: seq<string>, path: string): set<string> {
    set m | m in methods :: Key(m, path)
  }

  /** Every method and path taken by the routes. */
  function Keys(routes: seq<Route>): set<string> {
    if routes == [] then {}
    else Keys(routes[..|routes| - 1]) + KeysOf(routes[|routes| - 1].methods, routes[|routes| - 1].path)
  }

  function Names(routes: seq<Route>): set<string> {
    set i | 0 <= i < |routes| :: routes[i].name
  }

  /** What a problem says of route i, given the routes before it. */
  ghost predicate Faulty(routes: seq<Route>, i: nat, problem: Problem, upstreamOk: string -> bool)
    requires i < |routes|
  {
    var r := routes[i];
    match problem
    case NameMissing => r.name == ""
    case DuplicateName => exists j :: 0 <= j < i && routes[j].name == r.name
    case BadPath => !ValidPath(r.path)
    case NoMethods => r.methods == []
    case MethodNotAllowed(m) => m in r.methods && m !in ALLOWED
    case PatternTaken(m, holder) =>
      && m in r.methods
      && if holder == r.name then !NoRepeat(r.methods)
         else exists j :: 0 <= j < i && routes[j].name == holder && routes[j].path == r.path && m in routes[j].methods
    case BadUpstream => !upstreamOk(r.upstream)
    case BadAuth => r.auth != "none" && r.auth != "user" && r.auth != "admin"
    case ForwardWithoutAuth => r.forwardAuthorization && r.auth == "none"
    case NoBodyLimit => r.maxBodyBytes <= 0
    case BadTimeout => r.timeout <= 0
    case NoIpLimit => r.ipPerMin <= 0
    case NoUserLimit => r.auth != "none" && r.userPerMin <= 0
  }

  lemma FaultyIsInvalid(routes: seq<Route>, i: nat, problem: Problem, upstreamOk: string -> bool)
    requires i < |routes| && Faulty(routes, i, problem, upstreamOk)
    ensures !ValidSet(routes, upstreamOk)
  {
    hide ValidPath, NoRepeat;
    if problem.PatternTaken? && problem.holder != routes[i].name {
      var j :| 0 <= j < i && routes[j].name == problem.holder && routes[j].path == routes[i].path && problem.m in routes[j].methods;
      assert Collide(routes[j], routes[i]);
    }
  }

  method ValidatePath(p: string) returns (ok: bool)
    ensures ok == ValidPath(p)
    ensures ok ==> "/api/v1/" <= p
  {
    hide Contains;
    if !(BASE <= p) || |p| == |BASE| { return false; }
    if (exists i :: 0 <= i < |p| && p[i] in " ?#{}*") || Contains(p, "..") || Contains(p, "//") { return false; }
    for i := 0 to |RESERVED|
      invariant forall j :: 0 <= j < i ==> !Under(p, RESERVED[j])
    {
      if p == RESERVED[i] || RESERVED[i] + "/" <= p { return false; }
    }
    return true;
  }

  /** A method in the allowed set holds no blank, so the map's keys tell methods and paths apart. */
  lemma KeyInjective(m: string, path: string, n: string, other: string)
    requires m in ALLOWED && n in ALLOWED && Key(m, path) == Key(n, other)
    ensures m == n && path == other
  {
    var key := Key(m, path);
    assert key[|m|] == ' ' && key[|n|] == ' ';
    assert |m| == |n|;
    assert m == key[..|m|] && n == key[..|n|] && path == key[|m| + 1..] && other == key[|n| + 1..];
  }

  lemma {:induction false} InKeys(routes: seq<Route>, key: string) returns (j: nat, m: string)
    requires key in Keys(routes)
    ensures j < |routes| && m in routes[j].methods && key == Key(m, routes[j].path)
  {
    var last := |routes| - 1;
    if key in KeysOf(routes[last].methods, routes[last].path) {
      j := last;
      m :| m in routes[last].methods && key == Key(m, routes[last].path);
    } else {
      j, m := InKeys(routes[..last], key);
    }
  }

  lemma {:induction false} KeysHold(routes: seq<Route>, j: nat, m: string)
    requires j < |routes| && m in routes[j].methods
    ensures Key(m, routes[j].path) in Keys(routes)
  {
    if j < |routes| - 1 { KeysHold(routes[..|routes| - 1], j, m); }
  }

  /** A route that passes every check joins the set. */
  lemma ValidExtend(routes: seq<Route>, i: nat, upstreamOk: string -> bool)
    requires i < |routes| && ValidSet(routes[..i], upstreamOk)
    requires ValidRoute(routes[i], upstreamOk) && NoRepeat(routes[i].methods)
    requires routes[i].name !in Names(routes[..i])
    requires forall m :: m in routes[i].methods ==> Key(m, routes[i].path) !in Keys(routes[..i])
    ensures ValidSet(routes[..i + 1], upstreamOk)
  {
    hide ValidRoute, NoRepeat, Keys;
    forall j | 0 <= j < i ensures !Collide(routes[j], routes[i]) && routes[j].name != routes[i].name {
      assert routes[..i][j] == routes[j];
      if Collide(routes[j], routes[i]) {
        var m :| m in routes[j].methods && m in routes[i].methods;
        KeysHold(routes[..i], j, m);
        assert false;
      }
    }
  }

  /** The key was entered under that name for one of the routes. */
  ghost predicate Owned(routes: seq<Route>, key: string, name: string) {
    exists j, m :: 0 <= j < |routes| && m in routes[j].methods && m in ALLOWED
                   && key == Key(m, routes[j].path) && name == routes[j].name
  }

  /** The patterns entered so far: those of the earlier routes, and of this route's first methods. */
  ghost predicate Entered(patterns: map<string, string>, before: seq<Route>, r: Route, k: nat)
    requires k <= |r.methods|
  {
    && patterns.Keys == Keys(before) + KeysOf(r.methods[..k], r.path)
    && forall key :: key in patterns ==>
                       if key in KeysOf(r.methods[..k], r.path) then patterns[key] == r.name else Owned(before, key, patterns[key])
  }

  lemma EnterNone(patterns: map<string, string>, before: seq<Route>, r: Route)
    requires patterns.Keys == Keys(before) && forall key :: key in patterns ==> Owned(before, key, patterns[key])
    ensures Entered(patterns, before, r, 0)
  {
    hide Keys, Owned;
    assert KeysOf(r.methods[..0], r.path) == {};
  }

  lemma NoKeys()
    ensures Keys([]) == {}
  {
  }

  lemma EnterOne(patterns: map<string, string>, before: seq<Route>, r: Route, k: nat)
    requires k < |r.methods| && Entered(patterns, before, r, k)
    ensures Entered(patterns[Key(r.methods[k], r.path) := r.name], before, r, k + 1)
  {
    hide Key, Keys, Owned;
    assert r.methods[..k + 1] == r.methods[..k] + [r.methods[k]];
    assert KeysOf(r.methods[..k + 1], r.path) == KeysOf(r.methods[..k], r.path) + {Key(r.methods[k], r.path)};
  }

  /** A key already entered was taken by the route it is entered under, or by an earlier method of this one. */
  lemma TakenBy(patterns: map<string, string>, routes: seq<Route>, i: nat, k: nat, upstreamOk: string -> bool)
    requires i < |routes| && k < |routes[i].methods| && Entered(patterns, routes[..i], routes[i], k)
    requires routes[i].name !in Names(routes[..i]) && (forall m :: 0 <= m <= k ==> routes[i].methods[m] in ALLOWED)
    requires Key(routes[i].methods[k], routes[i].path) in patterns
    ensures var m := routes[i].methods[k];
            Faulty(routes, i, PatternTaken(m, patterns[Key(m, routes[i].path)]), upstreamOk)
  {
    hide ValidPath, Keys;
    var r, m := routes[i], routes[i].methods[k];
    var key := Key(m, r.path);
    if key in KeysOf(r.methods[..k], r.path) {
      var n :| n in r.methods[..k] && key == Key(n, r.path);
      KeyInjective(m, r.path, n, r.path);
      assert !NoRepeat(r.methods);
    } else {
      var j, n :| 0 <= j < i && n in routes[..i][j].methods && n in ALLOWED
                  && key == Key(n, routes[..i][j].path) && patterns[key] == routes[..i][j].name;
      KeyInjective(m, r.path, n, routes[j].path);
      assert routes[..i][j].name in Names(routes[..i]);
    }
  }

  /** The methods of route i: each must be allowed, and taken neither before nor twice. */
  method CheckMethods(routes: seq<Route>, i: nat, patterns: map<string, string>, ghost upstreamOk: string -> bool)
    returns (problem: Option<Problem>, entered: map<string, string>)
    requires i < |routes| && routes[i].name !in Names(routes[..i]) && Entered(patterns, routes[..i], routes[i], 0)
    ensures problem.Some? ==> Faulty(routes, i, problem.value, upstreamOk)
    ensures problem.None? ==> Entered(entered, routes[..i], routes[i], |routes[i].methods|) && NoRepeat(routes[i].methods)
    ensures problem.None? ==> forall m :: m in routes[i].methods ==>
                                            m in ALLOWED && Key(m, routes[i].path) !in Keys(routes[..i])
    ensures problem.None? ==> forall m :: m in routes[i].methods ==> m == "GET" || m == "POST" || m == "PUT" || m == "DELETE"
    ensures problem.Some? && problem.value.MethodNotAllowed? ==> problem.value.m !in ["GET", "POST", "PUT", "DELETE"]
  {
    hide Entered, Keys, Key, ValidPath;
    var r := routes[i];
    entered := patterns;
    for k := 0 to |r.methods|
      invariant Entered(entered, routes[..i], r, k) && NoRepeat(r.methods[..k])
      invariant forall n :: 0 <= n < k ==> r.methods[n] in ALLOWED && Key(r.methods[n], r.path) !in Keys(routes[..i])
    {
      var m := r.methods[k];
      if m !in ALLOWED { return Some(MethodNotAllowed(m)), entered; }
      var key := Key(m, r.path);
      if key in entered {
        TakenBy(entered, routes, i, k, upstreamOk);
        return Some(PatternTaken(m, entered[key])), entered;
      }
      NotTaken(entered, routes[..i], r, k);
      EnterOne(entered, routes[..i], r, k);
      entered := entered[key := r.name];
    }
    assert r.methods[..|r.methods|] == r.methods;
    return None, entered;
  }

  lemma NotTaken(patterns: map<string, string>, before: seq<Route>, r: Route, k: nat)
    requires k < |r.methods| && Entered(patterns, before, r, k)
    requires Key(r.methods[k], r.path) !in patterns && NoRepeat(r.methods[..k])
    ensures NoRepeat(r.methods[..k + 1]) && Key(r.methods[k], r.path) !in Keys(before)
  {
    hide Keys, Key, Owned;
    assert forall n :: 0 <= n < k ==> Key(r.methods[..k][n], r.path) in KeysOf(r.methods[..k], r.path);
  }

  lemma NextRoute(patterns: map<string, string>, routes: seq<Route>, i: nat)
    requires i < |routes| && Entered(patterns, routes[..i], routes[i], |routes[i].methods|)
    requires forall m :: m in routes[i].methods ==> m in ALLOWED
    ensures patterns.Keys == Keys(routes[..i + 1])
    ensures forall key :: key in patterns ==> Owned(routes[..i + 1], key, patterns[key])
  {
    assert routes[..i + 1][..i] == routes[..i];
    assert routes[i].methods[..|routes[i].methods|] == routes[i].methods;
    forall key | key in patterns ensures Owned(routes[..i + 1], key, patterns[key]) {
      if key in KeysOf(routes[i].methods, routes[i].path) {
        assert routes[..i + 1][i] == routes[i];
      } else {
        var j, m :| 0 <= j < i && m in routes[..i][j].methods && m in ALLOWED
                    && key == Key(m, routes[..i][j].path) && patterns[key] == routes[..i][j].name;
        assert routes[..i + 1][j] == routes[..i][j];
      }
    }
  }

  method Validate(routes: seq<Route>, upstreamOk: string -> bool) returns (report: Option<Report>)
    ensures report.None? <==> ValidSet(routes, upstreamOk)
    ensures report.Some? ==> report.value.route < |routes| && ValidSet(routes[..report.value.route], upstreamOk)
                             && Faulty(routes, report.value.route, report.value.problem, upstreamOk)
  {
    hide Keys, Owned, ValidPath, NoRepeat, Entered;
    var names: set<string> := {};
    var patterns: map<string, string> := map[];
    NoKeys();
    for i := 0 to |routes|
      invariant ValidSet(routes[..i], upstreamOk) && names == Names(routes[..i])
      invariant patterns.Keys == Keys(routes[..i])
      invariant forall key :: key in patterns ==> Owned(routes[..i], key, patterns[key])
    {
      var r := routes[i];
      var problem: Option<Problem>;
      var pathOk := ValidatePath(r.path);
      if r.name == "" { problem := Some(NameMissing); }
      else if r.name in names { problem := Some(DuplicateName); }
      else if !pathOk { problem := Some(BadPath); }
      else if |r.methods| == 0 { problem := Some(NoMethods); }
      else {
        EnterNone(patterns, routes[..i], r);
        problem, patterns := CheckMethods(routes, i, patterns, upstreamOk);
        if problem.None? {
          problem := CheckRest(routes, i, upstreamOk);
        }
      }
      if problem.Some? {
        FaultyIsInvalid(routes, i, problem.value, upstreamOk);
        return Some(Report(i, problem.value));
      }
      ValidExtend(routes, i, upstreamOk);
      NextRoute(patterns, routes, i);
      names := names + {r.name};
    }
    assert routes[..|routes|] == routes;
    return None;
  }

  /** The checks of one route by itself that follow those of its methods. */
  method CheckRest(routes: seq<Route>, i: nat, upstreamOk: string -> bool) returns (problem: Option<Problem>)
    requires i < |routes| && routes[i].name != "" && ValidPath(routes[i].path) && routes[i].methods != []
    requires forall m :: m in routes[i].methods ==> m in ALLOWED
    ensures problem.Some? ==> Faulty(routes, i, problem.value, upstreamOk)
    ensures problem.None? ==> ValidRoute(routes[i], upstreamOk)
  {
    hide ValidPath, NoRepeat;
    var r := routes[i];
    if !upstreamOk(r.upstream) { return Some(BadUpstream); }
    if r.auth != "none" && r.auth != "user" && r.auth != "admin" { return Some(BadAuth); }
    if r.forwardAuthorization && r.auth == "none" { return Some(ForwardWithoutAuth); }
    if r.maxBodyBytes <= 0 { return Some(NoBodyLimit); }
    if r.timeout <= 0 { return Some(BadTimeout); }
    if r.ipPerMin <= 0 { return Some(NoIpLimit); }
    if r.auth != "none" && r.userPerMin <= 0 { return Some(NoUserLimit); }
    return None;
  }
}
