/**
  Routes written as their segments: which of them are placeholders, what a placeholder
  takes, and that everything else is compared literally.
 */
module RouteKinds {
  import opened Wrappers
  import opened Strings
  import opened RoutePatterns
  import opened AllowMethods

  /** `:name` or `{name}`. */
  ghost predicate IsPlaceholder(segment: string) {
    exists name: string :: segment == ":" + name || segment == "{" + name + "}"
  }

  lemma PlaceholderIff(segment: string)
    ensures IsPlaceholder(segment) <==> IsParameter(segment)
  {
    if IsParameter(segment) {
      if segment[0] == ':' {
        assert segment == ":" + segment[1..];
      } else {
        assert segment == "{" + segment[1..|segment| - 1] + "}";
      }
    }
  }

  function RouteText(segments: seq<string>): string {
    "/" + Join(segments, "/")
  }

  /** Segments as a route has them: none empty, none with a slash, and no white space at the very end. */
  ghost predicate WellWritten(segments: seq<string>) {
    && segments != [] && (forall s :: s in segments ==> s != "" && '/' !in s)
    && var last := segments[|segments| - 1]; last != "" && !IsSpace(last[|last| - 1])
  }

  lemma {:induction false} JoinEndsAlike(segments: seq<string>)
    requires segments != [] && segments[|segments| - 1] != ""
    ensures var s, last := Join(segments, "/"), segments[|segments| - 1];
      s != "" && s[|s| - 1] == last[|last| - 1]
    decreases |segments|
  {
    if |segments| > 1 {
      JoinEndsAlike(segments[1..]);
    }
  }

  lemma RouteTextIsNormal(segments: seq<string>)
    requires WellWritten(segments)
    ensures Normalize(RouteText(segments)) == RouteText(segments)
  {
    var last := segments[|segments| - 1];
    JoinEndsAlike(segments);
    JoinedEnds(segments);
    LedTrimsAtEnd(RouteText(segments));
  }

  lemma {:induction false} FilledKeepsAll(parts: seq<string>)
    requires forall p :: p in parts ==> p != ""
    ensures Filled(parts) == parts
    decreases |parts|
  {
    if parts != [] {
      assert parts[0] in parts && forall p :: p in parts[1..] ==> p in parts;
      FilledKeepsAll(parts[1..]);
      assert parts == [parts[0]] + parts[1..];
    }
  }

  lemma SegmentsOfRoute(segments: seq<string>)
    requires WellWritten(segments)
    ensures Segments(RouteText(segments)) == segments
  {
    assert RouteText(segments) == "" + (['/'] + Join(segments, "/"));
    SplitFirst("", Join(segments, "/"), '/');
    SplitJoin(segments, '/');
    assert Split(RouteText(segments), '/') == [""] + segments;
    assert ([""] + segments)[1..] == segments;
    FilledKeepsAll(segments);
  }

  lemma {:induction false} CharactersOfJoin(segments: seq<string>, x: char)
    requires x != '/'
    ensures x in Join(segments, "/") <==> exists s :: s in segments && x in s
    decreases |segments|
  {
    if |segments| == 1 {
      assert segments[0] in segments;
    } else if |segments| > 1 {
      CharactersOfJoin(segments[1..], x);
      assert segments == [segments[0]] + segments[1..];
      assert forall s :: s in segments <==> s == segments[0] || s in segments[1..];
    }
  }

  /** A route is dynamic if one of its segments is a placeholder, and static without colons and braces. */
  lemma KindOfRoute(segments: seq<string>)
    requires WellWritten(segments)
    ensures (exists s :: s in segments && IsPlaceholder(s)) ==> IsDynamic(RouteText(segments))
    ensures (forall s :: s in segments ==> ':' !in s && '{' !in s) ==> !IsDynamic(RouteText(segments))
  {
    CharactersOfJoin(segments, ':');
    CharactersOfJoin(segments, '{');
    CharactersOfJoin(segments, '}');
    if s :| s in segments && IsPlaceholder(s) {
      var name :| s == ":" + name || s == "{" + name + "}";
      assert s[0] in s && s[|s| - 1] in s;
    }
  }

  /** Placeholders take anything that is not empty, the other segments themselves. */
  ghost predicate TakenBy(segments: seq<string>, parts: seq<string>) {
    && |parts| == |segments|
    && forall i :: 0 <= i < |parts| ==>
      if IsPlaceholder(segments[i]) then parts[i] != "" else parts[i] == segments[i]
  }

  lemma TakenIffFits(segments: seq<string>, parts: seq<string>)
    requires forall p :: p in parts ==> '/' !in p
    ensures TakenBy(segments, parts) <==> Fits(segments, parts)
  {
    forall i | 0 <= i < |segments|
      ensures IsPlaceholder(segments[i]) <==> IsParameter(segments[i])
    {
      PlaceholderIff(segments[i]);
    }
    assert forall i :: 0 <= i < |parts| ==> parts[i] in parts;
  }

  /**
    A registry with one route that has a placeholder answers a lookup exactly if the
    placeholders take their parts of the path and the other segments are literally there.
   */
  lemma PlaceholdersTakeAnything(
    segments: seq<string>, methods: seq<HttpMethod>, path: string, parts: seq<string>)
    requires WellWritten(segments) && exists s :: s in segments && IsPlaceholder(s)
    requires Clean(path) == RouteText(parts) && parts != [] && forall p :: p in parts ==> '/' !in p
    ensures Find(After([Route(RouteText(segments), methods)]), Clean(path)) ==
      if TakenBy(segments, parts) then Some(methods) else None
  {
    var route := Route(RouteText(segments), methods);
    KindOfRoute(segments);
    RouteTextIsNormal(segments);
    SegmentsOfRoute(segments);
    SplitJoin(parts, '/');
    assert RouteText(parts)[1..] == Join(parts, "/");
    TakenIffFits(segments, parts);
    if DynamicFor(route, Clean(path)) {
      FirstDynamicWins([route], path, 0);
    } else {
      UnknownPathsHaveNone([route], path);
    }
  }

  /** One route without colons and braces answers for its own text alone. */
  lemma LiteralsTakeThemselves(segments: seq<string>, methods: seq<HttpMethod>, path: string)
    requires WellWritten(segments) && forall s :: s in segments ==> ':' !in s && '{' !in s
    ensures Find(After([Route(RouteText(segments), methods)]), Clean(path)) ==
      if Clean(path) == RouteText(segments) then Some(methods) else None
  {
    var route := Route(RouteText(segments), methods);
    KindOfRoute(segments);
    RouteTextIsNormal(segments);
    if Clean(path) == RouteText(segments) {
      LastStaticWins([route], path, 0);
    } else {
      UnknownPathsHaveNone([route], path);
    }
  }
}
