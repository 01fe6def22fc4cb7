/** The registry of allowed methods: a map of static routes and a list of dynamic ones. */
module AllowMethods {
  import opened Wrappers
  import opened Strings
  import opened RoutePatterns

  datatype HttpMethod = GET | HEAD | POST | PUT | PATCH | DELETE | OPTIONS

  datatype DynamicRoute = DynamicRoute(pattern: string, methods: seq<HttpMethod>)

  datatype Registry = Registry(statics: map<string, seq<HttpMethod>>, dynamics: seq<DynamicRoute>)

  // ---- Paths ------------------------------------------------------------------

  /** Trimmed, with a leading slash and without trailing ones; only the bare root keeps its slash. */
  function Normalize(path: string): string {
    Unslashed(Led(Trim(path)))
  }

  function Led(path: string): string {
    if StartsWith(path, "/") then path else "/" + path
  }

  function Unslashed(path: string): string {
    if path == "/" then "/" else StripEnd(path, '/')
  }

  /** What a lookup uses: the path before its query and fragment, normalized. */
  function Clean(path: string): string {
    Normalize(Split(Split(path, '?')[0], '#')[0])
  }

  predicate IsDynamic(path: string) {
    ':' in path || ('{' in path && '}' in path)
  }

  lemma LedStarts(path: string)
    ensures Led(path) != "" && Led(path)[0] == '/'
  {
  }

  lemma UnslashedShape(path: string)
    requires path != "" && path[0] == '/'
    ensures var p := Unslashed(path); p <= path && (p == "/" || p == "" || (p[0] == '/' && p[|p| - 1] != '/'))
  {
    StripEndEnds(path, '/');
  }

  lemma NormalizedShape(path: string)
    ensures var p := Normalize(path);
      p == "/" || p == "" || (p[0] == '/' && p[|p| - 1] != '/')
  {
    LedStarts(Trim(path));
    UnslashedShape(Led(Trim(path)));
  }

  /** A path of slashes only, at least two, becomes the empty string; the empty string becomes a slash. */
  lemma SlashesVanish(path: string)
    requires |Trim(path)| >= 2 && forall c :: c in Trim(path) ==> c == '/'
    ensures Normalize(path) == "" && Normalize(Normalize(path)) == "/"
  {
    assert Trim(path)[0] in Trim(path);
    assert "" + Trim(path) == Trim(path);
    StripsRun("", Trim(path), '/');
  }

  /** What is left of a path: its trimmed text without trailing slashes, behind a slash. */
  lemma NormalizedText(path: string)
    requires StripEnd(Trim(path), '/') != ""
    ensures Normalize(path) == Led(StripEnd(Trim(path), '/'))
  {
    var text := Trim(path);
    StripEndEnds(text, '/');
    assert text != "/" && StripEnd("/", '/') == "";
    if !StartsWith(text, "/") {
      StripBehind("/", text, '/');
    }
  }

  /**
    Normalizing again changes nothing exactly when the trimmed path, without its trailing
    slashes, does not end in white space, or is a single slash or empty to begin with.
   */
  lemma NormalizeTwice(path: string)
    ensures var text := StripEnd(Trim(path), '/');
      Normalize(Normalize(path)) == Normalize(path) <==>
        if text == "" then |Trim(path)| <= 1 else !IsSpace(text[|text| - 1])
  {
    if StripEnd(Trim(path), '/') != "" {
      TextNormalizesTwice(path);
    } else {
      SlashesNormalizeTwice(path);
    }
  }

  lemma TextNormalizesTwice(path: string)
    requires StripEnd(Trim(path), '/') != ""
    ensures var text := StripEnd(Trim(path), '/');
      Normalize(Normalize(path)) == Normalize(path) <==> !IsSpace(text[|text| - 1])
  {
    var text := StripEnd(Trim(path), '/');
    NormalizedText(path);
    NormalizedShape(path);
    LedTrimsAtEnd(Normalize(path));
    assert Led(text)[|Led(text)| - 1] == text[|text| - 1];
  }

  lemma SlashesNormalizeTwice(path: string)
    requires StripEnd(Trim(path), '/') == ""
    ensures Normalize(Normalize(path)) == Normalize(path) <==> |Trim(path)| <= 1
  {
    StripsToNothing(Trim(path), '/');
    if |Trim(path)| >= 2 {
      SlashesVanish(path);
    } else {
      assert Trim(path) == "/" || Trim(path) == "";
      LedTrimsAtEnd("/");
    }
  }

  /** A path with its leading slash is only trimmed at its end. */
  lemma LedTrimsAtEnd(p: string)
    requires p == "/" || (p != "" && p[0] == '/' && p[|p| - 1] != '/')
    ensures Normalize(p) == p <==> !IsSpace(p[|p| - 1])
  {
    assert !IsSpace(p[0]);
    assert TrimStart(p) == p;
    if IsSpace(p[|p| - 1]) {
      TrimEndEnds(p[..|p| - 1]);
      TrimEndKeepsHead(p);
      assert |Trim(p)| < |p|;
      UnslashedShape(Led(Trim(p)));
    }
  }

  /** Spaces around a path, a missing leading slash and trailing slashes make no difference. */
  lemma NormalizeIgnoresDecoration(lead: string, slash: bool, body: string, slashes: string, trail: string)
    requires body != "" && body[0] != '/' && body[|body| - 1] != '/' && Unspaced(body)
    requires forall c :: c in slashes ==> c == '/'
    requires (forall c :: c in lead ==> IsSpace(c)) && forall c :: c in trail ==> IsSpace(c)
    ensures Normalize(lead + (((if slash then "/" else "") + body + slashes) + trail)) == "/" + body
  {
    var path := (if slash then "/" else "") + body + slashes;
    assert path[|path| - 1] == if slashes == "" then body[|body| - 1] else slashes[|slashes| - 1];
    assert slashes != "" ==> slashes[|slashes| - 1] in slashes;
    TrimsPadding(lead, path, trail);
    assert Led(path) == ("/" + body) + slashes;
    StripsRun("/" + body, slashes, '/');
  }

  /** A lookup ignores everything from the first question mark or number sign on. */
  lemma CleanIgnoresQueryAndFragment(path: string, c: char, rest: string)
    requires '?' !in path && '#' !in path && (c == '?' || c == '#')
    ensures Clean(path + ([c] + rest)) == Normalize(path) == Clean(path)
  {
    SplitWhole(path, '?');
    SplitWhole(path, '#');
    SplitFirst(path, rest, c);
    if c == '#' {
      if '?' in rest {
        CutInside(path, rest);
      } else {
        SplitWhole(path + ([c] + rest), '?');
      }
    }
  }

  /** A question mark behind the number sign cuts nothing before it. */
  lemma {:induction false} CutInside(path: string, rest: string)
    requires '?' !in path && '#' !in path
    ensures Split(Split(path + (['#'] + rest), '?')[0], '#')[0] == path
  {
    SplitPrefix(path + ['#'], rest, '?');
    Regroup(path, ['#'], rest);
    var first := Split(rest, '?')[0];
    Regroup(path, ['#'], first);
    SplitFirst(path, first, '#');
  }

  lemma {:induction false} SplitKeepsCharacter(s: string, c: char, x: char)
    requires x in s && x != c
    ensures exists p :: p in Split(s, c) && x in p
    decreases |s|
  {
    var rest := Split(s[1..], c);
    if s[0] == c {
      assert x in s[1..];
      SplitKeepsCharacter(s[1..], c, x);
      var p :| p in rest && x in p;
      assert p in Split(s, c);
    } else if s[0] == x {
      assert x in Split(s, c)[0];
    } else {
      assert x in s[1..];
      SplitKeepsCharacter(s[1..], c, x);
      var p :| p in rest && x in p;
      if p == rest[0] {
        assert x in Split(s, c)[0];
      } else {
        assert p in rest[1..];
      }
    }
  }

  lemma DynamicHasSegments(path: string)
    requires IsDynamic(path)
    ensures Segments(path) != []
  {
    var x := if ':' in path then ':' else '{';
    SplitKeepsCharacter(path, '/', x);
    var p :| p in Split(path, '/') && x in p;
    assert p in Segments(path);
  }

  // ---- Registering and looking up ---------------------------------------------------

  function Add(reg: Registry, path: string, methods: seq<HttpMethod>): Registry {
    var p := Normalize(path);
    if IsDynamic(p) then reg.(dynamics := reg.dynamics + [DynamicRoute(CreateRoutePattern(p), methods)])
    else reg.(statics := reg.statics[p := methods])
  }

  function FirstMatch(routes: seq<DynamicRoute>, path: string): Option<seq<HttpMethod>>
    decreases |routes|
  {
    if routes == [] then None
    else if Test(routes[0].pattern, path) then Some(routes[0].methods)
    else FirstMatch(routes[1..], path)
  }

  /** The methods of a cleaned path: its static route's, or those of the first pattern that accepts it. */
  function Find(reg: Registry, path: string): Option<seq<HttpMethod>> {
    if path in reg.statics then Some(reg.statics[path]) else FirstMatch(reg.dynamics, path)
  }

  datatype Route = Route(path: string, methods: seq<HttpMethod>)

  /** The registry after these routes were added in order. */
  function After(routes: seq<Route>): Registry {
    if routes == [] then Registry(map[], [])
    else Add(After(routes[..|routes| - 1]), routes[|routes| - 1].path, routes[|routes| - 1].methods)
  }

  /** Route and path are the same text. */
  predicate StaticFor(route: Route, path: string) {
    !IsDynamic(Normalize(route.path)) && Normalize(route.path) == path
  }

  /** The route's segments and the path's agree one by one. */
  predicate DynamicFor(route: Route, path: string) {
    && IsDynamic(Normalize(route.path)) && path != "" && path[0] == '/'
    && Fits(Segments(Normalize(route.path)), Split(path[1..], '/'))
  }

  /** What adding a route writes into the map of static routes. */
  datatype Assignment = Assignment(key: Option<string>, methods: seq<HttpMethod>)

  function AssignmentOf(route: Route): Assignment {
    var p := Normalize(route.path);
    Assignment(if IsDynamic(p) then None else Some(p), route.methods)
  }

  function Assigned(writes: seq<Assignment>): map<string, seq<HttpMethod>> {
    if writes == [] then map[]
    else
      var before := Assigned(writes[..|writes| - 1]);
      var last := writes[|writes| - 1];
      if last.key.Some? then before[last.key.value := last.methods] else before
  }

  function Assignments(routes: seq<Route>): (r: seq<Assignment>)
    ensures |r| == |routes|
    ensures forall i :: 0 <= i < |r| ==> r[i] == AssignmentOf(routes[i])
  {
    seq(|routes|, i requires 0 <= i < |routes| => AssignmentOf(routes[i]))
  }

  lemma {:induction false} StaticsAreAssigned(routes: seq<Route>)
    ensures After(routes).statics == Assigned(Assignments(routes))
    decreases |routes|
  {
    if routes != [] {
      var n := |routes| - 1;
      StaticsAreAssigned(routes[..n]);
      assert Assignments(routes)[..n] == Assignments(routes[..n]);
    }
  }

  lemma {:induction false} LastWriteStays(writes: seq<Assignment>, key: string, i: nat)
    requires i < |writes| && writes[i].key == Some(key)
    requires forall j :: i < j < |writes| ==> writes[j].key != Some(key)
    ensures key in Assigned(writes) && Assigned(writes)[key] == writes[i].methods
    decreases |writes|
  {
    if i < |writes| - 1 {
      LastWriteStays(writes[..|writes| - 1], key, i);
    }
  }

  lemma {:induction false} NoWriteNoEntry(writes: seq<Assignment>, key: string)
    requires forall j :: 0 <= j < |writes| ==> writes[j].key != Some(key)
    ensures key !in Assigned(writes)
    decreases |writes|
  {
    if writes != [] {
      NoWriteNoEntry(writes[..|writes| - 1], key);
    }
  }

  lemma StaticIsAssignment(route: Route, path: string)
    ensures StaticFor(route, path) <==> AssignmentOf(route).key == Some(path)
  {
  }

  lemma {:induction false} NoStaticIs(routes: seq<Route>, path: string)
    requires forall j :: 0 <= j < |routes| ==> !StaticFor(routes[j], path)
    ensures path !in After(routes).statics
  {
    var writes := Assignments(routes);
    forall j | 0 <= j < |writes|
      ensures writes[j].key != Some(path)
    {
      StaticIsAssignment(routes[j], path);
    }
    NoWriteNoEntry(writes, path);
    StaticsAreAssigned(routes);
  }

  lemma {:induction false} LastStaticIs(routes: seq<Route>, path: string, i: nat)
    requires i < |routes| && StaticFor(routes[i], path)
    requires forall j :: i < j < |routes| ==> !StaticFor(routes[j], path)
    ensures Find(After(routes), path) == Some(routes[i].methods)
  {
    var writes := Assignments(routes);
    forall j | i <= j < |writes|
      ensures writes[j].key == Some(path) <==> StaticFor(routes[j], path)
    {
      StaticIsAssignment(routes[j], path);
    }
    LastWriteStays(writes, path, i);
    StaticsAreAssigned(routes);
  }

  lemma {:induction false} FirstMatchOver(a: seq<DynamicRoute>, b: seq<DynamicRoute>, path: string)
    ensures FirstMatch(a + b, path) == if FirstMatch(a, path).Some? then FirstMatch(a, path) else FirstMatch(b, path)
    decreases |a|
  {
    if a == [] {
      assert a + b == b;
    } else {
      assert (a + b)[1..] == a[1..] + b;
      FirstMatchOver(a[1..], b, path);
    }
  }

  predicate Settled(path: string) {
    path == "" || path == "/" || path[|path| - 1] != '/'
  }

  /** Adding one more route appends to what the patterns accept exactly if its segments fit. */
  lemma {:induction false} OneMore(routes: seq<Route>, path: string)
    requires routes != [] && Settled(path)
    ensures var before := FirstMatch(After(routes[..|routes| - 1]).dynamics, path);
      var last := routes[|routes| - 1];
      FirstMatch(After(routes).dynamics, path) ==
        if before.Some? then before else if DynamicFor(last, path) then Some(last.methods) else None
  {
    AddedDynamic(After(routes[..|routes| - 1]), routes[|routes| - 1], path);
  }

  lemma {:induction false} AddedDynamic(reg: Registry, route: Route, path: string)
    requires Settled(path)
    ensures var before := FirstMatch(reg.dynamics, path);
      FirstMatch(Add(reg, route.path, route.methods).dynamics, path) ==
        if before.Some? then before else if DynamicFor(route, path) then Some(route.methods) else None
  {
    var p := Normalize(route.path);
    if IsDynamic(p) {
      var added := DynamicRoute(CreateRoutePattern(p), route.methods);
      FirstMatchOver(reg.dynamics, [added], path);
      assert [added][1..] == [];
      DynamicHasSegments(p);
      PatternIsSegmentwise(p, path);
    }
  }

  lemma {:induction false} FirstDynamicIs(routes: seq<Route>, path: string, i: nat)
    requires Settled(path) && i < |routes| && DynamicFor(routes[i], path)
    requires forall j :: 0 <= j < i ==> !DynamicFor(routes[j], path)
    ensures FirstMatch(After(routes).dynamics, path) == Some(routes[i].methods)
    decreases |routes|
  {
    OneMore(routes, path);
    if i < |routes| - 1 {
      FirstDynamicIs(routes[..|routes| - 1], path, i);
    } else {
      NoDynamicIs(routes[..i], path);
    }
  }

  lemma {:induction false} NoDynamicIs(routes: seq<Route>, path: string)
    requires Settled(path)
    requires forall j :: 0 <= j < |routes| ==> !DynamicFor(routes[j], path)
    ensures FirstMatch(After(routes).dynamics, path) == None
    decreases |routes|
  {
    if routes != [] {
      OneMore(routes, path);
      assert !DynamicFor(routes[|routes| - 1], path);
      NoDynamicIs(routes[..|routes| - 1], path);
    }
  }

  lemma CleanIsSettled(path: string)
    ensures Settled(Clean(path))
  {
    NormalizedShape(Split(Split(path, '?')[0], '#')[0]);
  }

  /** Among the static routes equal to the path, the one registered last decides, whatever the dynamic ones say. */
  lemma {:induction false} LastStaticWins(routes: seq<Route>, path: string, i: nat)
    requires i < |routes| && StaticFor(routes[i], Clean(path))
    requires forall j :: i < j < |routes| ==> !StaticFor(routes[j], Clean(path))
    ensures Find(After(routes), Clean(path)) == Some(routes[i].methods)
  {
    LastStaticIs(routes, Clean(path), i);
  }

  /** Without a static route, the dynamic route registered first among those whose segments fit decides. */
  lemma {:induction false} FirstDynamicWins(routes: seq<Route>, path: string, i: nat)
    requires forall j :: 0 <= j < |routes| ==> !StaticFor(routes[j], Clean(path))
    requires i < |routes| && DynamicFor(routes[i], Clean(path))
    requires forall j :: 0 <= j < i ==> !DynamicFor(routes[j], Clean(path))
    ensures Find(After(routes), Clean(path)) == Some(routes[i].methods)
  {
    CleanIsSettled(path);
    NoStaticIs(routes, Clean(path));
    FirstDynamicIs(routes, Clean(path), i);
  }

  lemma {:induction false} UnknownPathsHaveNone(routes: seq<Route>, path: string)
    requires forall j :: 0 <= j < |routes| ==>
      !StaticFor(routes[j], Clean(path)) && !DynamicFor(routes[j], Clean(path))
    ensures Find(After(routes), Clean(path)) == None
  {
    CleanIsSettled(path);
    NoStaticIs(routes, Clean(path));
    NoDynamicIs(routes, Clean(path));
  }

  // ---- What is printed ----------------------------------------------------------------

  function Name(m: HttpMethod): string {
    match m
    case GET => "GET"
    case HEAD => "HEAD"
    case POST => "POST"
    case PUT => "PUT"
    case PATCH => "PATCH"
    case DELETE => "DELETE"
    case OPTIONS => "OPTIONS"
  }

  function Names(methods: seq<HttpMethod>): (r: seq<string>)
    ensures |r| == |methods|
  {
    seq(|methods|, i requires 0 <= i < |methods| => Name(methods[i]))
  }

  /** The names in upper case, separated by commas and blanks. */
  function Print(methods: Option<seq<HttpMethod>>): string {
    if methods.Some? then Join(Names(methods.value), ", ") else ""
  }

  /** The names a reader of the header finds: its comma-separated items without the white space around them. */
  function Items(header: string): (r: seq<string>) {
    var parts := Split(header, ',');
    seq(|parts|, i requires 0 <= i < |parts| => Trim(parts[i]))
  }

  lemma NameIsPlain(m: HttpMethod)
    ensures ',' !in Name(m) && Name(m) != "" && Trim(Name(m)) == Name(m) && Trim(" " + Name(m)) == Name(m)
  {
    TrimIgnoresLeadingSpace(" ", Name(m));
  }

  /** The printed list is read back name by name. */
  lemma PrintedIsReadBack(methods: seq<HttpMethod>)
    requires methods != []
    ensures Items(Print(Some(methods))) == Names(methods)
  {
    var names := Names(methods);
    forall p | p in names
      ensures ',' !in p
    {
      var i :| 0 <= i < |names| && names[i] == p;
      NameIsPlain(methods[i]);
    }
    assert [','] + " " == ", ";
    SplitJoinPadded(names, ',', " ");
    TrimmedNames(methods, Split(Print(Some(methods)), ','));
  }

  lemma TrimmedNames(methods: seq<HttpMethod>, parts: seq<string>)
    requires methods != [] && parts == [Name(methods[0])] + Padded(" ", Names(methods)[1..])
    ensures seq(|parts|, i requires 0 <= i < |parts| => Trim(parts[i])) == Names(methods)
  {
    forall i | 0 <= i < |methods|
      ensures Trim(parts[i]) == Name(methods[i])
    {
      NameIsPlain(methods[i]);
      assert i > 0 ==> parts[i] == " " + Names(methods)[i];
    }
  }

  lemma NamesDiffer(a: HttpMethod, b: HttpMethod)
    ensures Name(a) == Name(b) <==> a == b
  {
  }

  /** A method is allowed exactly when its name is in the `Allow` header that would be sent. */
  lemma CheckAgreesWithHeader(found: Option<seq<HttpMethod>>, m: HttpMethod)
    ensures found.Some? && m in found.value <==> Name(m) in Items(Print(found))
  {
    if found.Some? && found.value != [] {
      PrintedIsReadBack(found.value);
      var names := Names(found.value);
      if m in found.value {
        var i :| 0 <= i < |found.value| && found.value[i] == m;
        assert names[i] == Name(m);
      }
      if Name(m) in names {
        var i :| 0 <= i < |names| && names[i] == Name(m);
        NamesDiffer(found.value[i], m);
      }
    } else {
      assert Items("")[0] == "";
      NameIsPlain(m);
    }
  }

  // ---- The object ---------------------------------------------------------------------

  class AllowMethodRegistry {
    var staticRoutes: map<string, seq<HttpMethod>>
    var dynamicRoutes: seq<DynamicRoute>
    ghost var added: seq<Route>

    function State(): Registry
      reads this
    {
      Registry(staticRoutes, dynamicRoutes)
    }

    ghost predicate Valid()
      reads this
    {
      State() == After(added)
    }

    constructor ()
      ensures Valid() && added == []
    {
      staticRoutes, dynamicRoutes, added := map[], [], [];
    }

    method Add(path: string, methods: seq<HttpMethod>)
      requires Valid()
      modifies this
      ensures Valid() && added == old(added) + [Route(path, methods)]
    {
      var normalizedPath := Normalize(path);
      if IsDynamic(normalizedPath) {
        var pattern := CreateRoutePattern(normalizedPath);
        dynamicRoutes := dynamicRoutes + [DynamicRoute(pattern, methods)];
      } else {
        staticRoutes := staticRoutes[normalizedPath := methods];
      }
      ghost var before := added;
      added := added + [Route(path, methods)];
      assert added[..|added| - 1] == before;
    }

    method FindMethods(cleanPath: string) returns (found: Option<seq<HttpMethod>>)
      ensures found == Find(State(), cleanPath)
    {
      if cleanPath in staticRoutes {
        return Some(staticRoutes[cleanPath]);
      }
      var i := 0;
      assert dynamicRoutes[0..] == dynamicRoutes;
      while i < |dynamicRoutes|
        invariant 0 <= i <= |dynamicRoutes|
        invariant FirstMatch(dynamicRoutes, cleanPath) == FirstMatch(dynamicRoutes[i..], cleanPath)
      {
        assert dynamicRoutes[i..][0] == dynamicRoutes[i] && dynamicRoutes[i..][1..] == dynamicRoutes[i + 1..];
        if Test(dynamicRoutes[i].pattern, cleanPath) {
          return Some(dynamicRoutes[i].methods);
        }
        i := i + 1;
      }
      found := None;
    }

    method Check(path: string, m: HttpMethod) returns (allowed: bool)
      ensures var found := Find(State(), Clean(path)); allowed <==> found.Some? && m in found.value
      ensures allowed <==> Name(m) in Items(Print(Find(State(), Clean(path))))
    {
      var cleanPath := Clean(path);
      CheckAgreesWithHeader(Find(State(), cleanPath), m);
      if cleanPath in staticRoutes {
        return m in staticRoutes[cleanPath];
      }
      var i := 0;
      assert dynamicRoutes[0..] == dynamicRoutes;
      while i < |dynamicRoutes|
        invariant 0 <= i <= |dynamicRoutes|
        invariant FirstMatch(dynamicRoutes, cleanPath) == FirstMatch(dynamicRoutes[i..], cleanPath)
      {
        assert dynamicRoutes[i..][0] == dynamicRoutes[i] && dynamicRoutes[i..][1..] == dynamicRoutes[i + 1..];
        if Test(dynamicRoutes[i].pattern, cleanPath) {
          return m in dynamicRoutes[i].methods;
        }
        i := i + 1;
      }
      allowed := false;
    }

    method GetMethods(path: string) returns (header: string)
      ensures header == Print(Find(State(), Clean(path)))
    {
      var found := FindMethods(Clean(path));
      header := Print(found);
    }
  }
}
