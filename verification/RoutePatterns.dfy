/**
  Route patterns: the regular expression built from a dynamic route, the part of the
  regular-expression language it uses, and what the expression accepts.
 */
module RoutePatterns {
  import opened Wrappers
  import opened Strings

  // ---- The regular expressions in use -------------------------------------------

  /** A character, a character that may be missing, or `([^/]+)`. */
  datatype Item = Char(c: char) | Optional(c: char) | Segment

  /** SyntaxCharacter of section 22.2.1 of ECMA-262. */
  const SYNTAX := "^$\\.*+?()[]{}|"
  const GROUP := "([^/]+)"

  /** An expression anchored at both ends; `None` if it uses anything else. */
  function Parse(source: string): Option<seq<Item>> {
    if StartsWith(source, "^") then ParseItems(source[1..]) else None
  }

  function ParseItems(source: string): Option<seq<Item>>
    decreases |source|
  {
    if source == "$" then Some([])
    else if StartsWith(source, GROUP) then Prefixed(Segment, ParseItems(source[|GROUP|..]))
    else
      var n := CharLength(source);
      if n == 0 then None
      else if n < |source| && source[n] == '?' then
        Prefixed(Optional(source[n - 1]), ParseItems(source[n + 1..]))
      else Prefixed(Char(source[n - 1]), ParseItems(source[n..]))
  }

  function Prefixed(item: Item, rest: Option<seq<Item>>): Option<seq<Item>> {
    if rest.Some? then Some([item] + rest.value) else None
  }

  /** 1 for a plain character, 2 for an identity escape, 0 for anything else. */
  function CharLength(source: string): (n: nat)
    ensures n <= |source|
  {
    if source == "" then 0
    else if source[0] == '\\' then
      if 2 <= |source| && (source[1] in SYNTAX || source[1] == '/') then 2 else 0
    else if source[0] in SYNTAX then 0
    else 1
  }

  /** Whether the whole of `text` matches. */
  predicate Matches(items: seq<Item>, text: string)
    decreases |items|
  {
    if items == [] then text == ""
    else match items[0]
      case Char(c) => text != "" && text[0] == c && Matches(items[1..], text[1..])
      case Optional(c) =>
        || Matches(items[1..], text)
        || (text != "" && text[0] == c && Matches(items[1..], text[1..]))
      case Segment =>
        exists k :: 1 <= k <= |text| && '/' !in text[..k] && Matches(items[1..], text[k..])
  }

  /** Whether the regular expression accepts the whole text. */
  predicate Test(pattern: string, text: string) {
    Parse(pattern).Some? && Matches(Parse(pattern).value, text)
  }

  // ---- Building the pattern of a route --------------------------------------------

  function Filled(parts: seq<string>): (r: seq<string>)
    ensures forall p :: p in r <==> p in parts && p != ""
  {
    if parts == [] then [] else (if parts[0] == "" then [] else [parts[0]]) + Filled(parts[1..])
  }

  function Segments(path: string): (r: seq<string>)
    ensures forall s :: s in r ==> s != "" && '/' !in s
  {
    Filled(Split(path, '/'))
  }

  predicate IsParameter(segment: string) {
    segment != "" && (segment[0] == ':' || (segment[0] == '{' && segment[|segment| - 1] == '}'))
  }

  function Escape(s: string): string {
    if s == "" then "" else (if s[0] in SYNTAX then ['\\', s[0]] else [s[0]]) + Escape(s[1..])
  }

  function RegexSegment(segment: string): string {
    if IsParameter(segment) then GROUP else Escape(segment)
  }

  function RegexSegments(segments: seq<string>): (r: seq<string>)
    ensures |r| == |segments|
  {
    seq(|segments|, i requires 0 <= i < |segments| => RegexSegment(segments[i]))
  }

  const SLASH := "\\/"
  const TAIL := "\\/?$"

  function CreateRoutePattern(path: string): string {
    "^" + (SLASH + (Join(RegexSegments(Segments(path)), SLASH) + TAIL))
  }

  // ---- What the pattern parses to ---------------------------------------------------

  function Chars(s: string): seq<Item> {
    if s == "" then [] else [Char(s[0])] + Chars(s[1..])
  }

  function SegmentItems(segment: string): seq<Item> {
    if IsParameter(segment) then [Segment] else Chars(segment)
  }

  function JoinItems(segments: seq<string>): seq<Item> {
    if segments == [] then []
    else if |segments| == 1 then SegmentItems(segments[0])
    else SegmentItems(segments[0]) + ([Char('/')] + JoinItems(segments[1..]))
  }

  /** What follows does not turn the character before it into an optional one. */
  predicate Continues(source: string) {
    source == "" || source[0] != '?'
  }

  lemma {:induction false} CharParses(head: string, rest: string, items: seq<Item>)
    requires ParseItems(rest) == Some(items) && Continues(rest)
    requires 1 <= |head| <= 2 && CharLength(head + rest) == |head|
    requires !StartsWith(head + rest, GROUP) && head + rest != "$"
    ensures ParseItems(head + rest) == Some([Char(head[|head| - 1])] + items)
  {
    assert (head + rest)[|head|..] == rest;
  }

  /** One character, escaped where it has to be. */
  function EscapeChar(c: char): string {
    if c in SYNTAX then ['\\', c] else [c]
  }

  lemma {:induction false} EscapedCharParses(c: char, rest: string, items: seq<Item>)
    requires ParseItems(rest) == Some(items) && Continues(rest)
    ensures ParseItems(EscapeChar(c) + rest) == Some([Char(c)] + items) && Continues(EscapeChar(c) + rest)
  {
    var head := EscapeChar(c);
    assert GROUP[0] in SYNTAX && GROUP[0] == '(' && '?' in SYNTAX && '$' in SYNTAX && '\\' in SYNTAX;
    assert (head + rest)[0] == head[0] && (c in SYNTAX ==> head[0] == '\\');
    CharParses(head, rest, items);
  }

  lemma {:induction false} EscapeUnfolds(s: string, rest: string)
    requires s != ""
    ensures Escape(s) + rest == EscapeChar(s[0]) + (Escape(s[1..]) + rest)
  {
    assert Escape(s) == EscapeChar(s[0]) + Escape(s[1..]);
    Regroup(EscapeChar(s[0]), Escape(s[1..]), rest);
  }

  lemma {:induction false} CharsUnfold(s: string, items: seq<Item>)
    requires s != ""
    ensures Chars(s) + items == [Char(s[0])] + (Chars(s[1..]) + items)
  {
  }

  lemma {:induction false} EscapeParses(s: string, rest: string, items: seq<Item>)
    requires ParseItems(rest) == Some(items) && Continues(rest)
    ensures ParseItems(Escape(s) + rest) == Some(Chars(s) + items) && Continues(Escape(s) + rest)
    decreases |s|
  {
    if s == "" {
      assert Escape(s) + rest == rest && Chars(s) + items == items;
    } else {
      EscapeParses(s[1..], rest, items);
      EscapedCharParses(s[0], Escape(s[1..]) + rest, Chars(s[1..]) + items);
      EscapeUnfolds(s, rest);
      CharsUnfold(s, items);
    }
  }

  lemma {:induction false} SlashParses(rest: string, items: seq<Item>)
    requires ParseItems(rest) == Some(items) && Continues(rest)
    ensures ParseItems(SLASH + rest) == Some([Char('/')] + items) && Continues(SLASH + rest)
  {
    CharParses(SLASH, rest, items);
  }

  lemma TailParses()
    ensures ParseItems(TAIL) == Some([Optional('/')]) && Continues(TAIL)
  {
    assert CharLength(TAIL) == 2 && TAIL[2] == '?' && TAIL[1] == '/' && TAIL[3..] == "$";
    assert ParseItems("$") == Some([]);
    assert TAIL[0] != GROUP[0] && TAIL != "$";
    assert [Optional('/')] + [] == [Optional('/')];
  }

  lemma {:induction false} SegmentParses(segment: string, rest: string, items: seq<Item>)
    requires ParseItems(rest) == Some(items) && Continues(rest)
    ensures ParseItems(RegexSegment(segment) + rest) == Some(SegmentItems(segment) + items)
    ensures Continues(RegexSegment(segment) + rest)
  {
    if IsParameter(segment) {
      assert (GROUP + rest)[|GROUP|..] == rest;
    } else {
      EscapeParses(segment, rest, items);
    }
  }

  lemma {:induction false} JoinParses(segments: seq<string>, rest: string, items: seq<Item>)
    requires ParseItems(rest) == Some(items) && Continues(rest)
    ensures ParseItems(Join(RegexSegments(segments), SLASH) + rest) == Some(JoinItems(segments) + items)
    ensures Continues(Join(RegexSegments(segments), SLASH) + rest)
    decreases |segments|
  {
    if segments == [] {
      assert "" + rest == rest && [] + items == items;
    } else if |segments| == 1 {
      SegmentParses(segments[0], rest, items);
    } else {
      var tail := Join(RegexSegments(segments[1..]), SLASH);
      assert RegexSegments(segments)[1..] == RegexSegments(segments[1..]);
      JoinParses(segments[1..], rest, items);
      SlashParses(tail + rest, JoinItems(segments[1..]) + items);
      SegmentParses(
        segments[0], SLASH + (tail + rest), [Char('/')] + (JoinItems(segments[1..]) + items));
      Regroup(RegexSegment(segments[0]), SLASH + tail, rest);
      Regroup(SLASH, tail, rest);
      Regroup(SegmentItems(segments[0]), [Char('/')] + JoinItems(segments[1..]), items);
      Regroup([Char('/')], JoinItems(segments[1..]), items);
    }
  }

  /** The pattern is always within the language above: every character of a literal segment stands for itself. */
  lemma PatternParses(path: string)
    ensures Parse(CreateRoutePattern(path)) ==
      Some([Char('/')] + (JoinItems(Segments(path)) + [Optional('/')]))
  {
    var body := Join(RegexSegments(Segments(path)), SLASH) + TAIL;
    TailParses();
    JoinParses(Segments(path), TAIL, [Optional('/')]);
    SlashParses(body, JoinItems(Segments(path)) + [Optional('/')]);
    assert ("^" + (SLASH + body))[1..] == SLASH + body;
  }

  // ---- What it accepts ------------------------------------------------------------

  /** A literal segment takes itself, a parameter anything but a slash, at least one character. */
  predicate SegmentFits(segment: string, part: string) {
    if IsParameter(segment) then part != "" && '/' !in part else part == segment
  }

  predicate Fits(segments: seq<string>, parts: seq<string>) {
    |parts| == |segments| && forall i :: 0 <= i < |parts| ==> SegmentFits(segments[i], parts[i])
  }

  lemma {:induction false} CharsMatch(s: string, rest: seq<Item>, text: string)
    ensures Matches(Chars(s) + rest, text) <==> s <= text && Matches(rest, text[|s|..])
    decreases |s|
  {
    if s == "" {
      assert Chars(s) + rest == rest;
    } else {
      assert (Chars(s) + rest)[1..] == Chars(s[1..]) + rest;
      if text != "" {
        CharsMatch(s[1..], rest, text[1..]);
        if text[0] == s[0] {
          assert s <= text <==> s[1..] <= text[1..] by {
            assert s == [s[0]] + s[1..] && text == [text[0]] + text[1..];
          }
          if s <= text {
            assert text[1..][|s| - 1..] == text[|s|..];
          }
        }
      }
    }
  }

  /** A segment's items take the first `k` characters. */
  lemma SegmentMatches(segment: string, rest: seq<Item>, text: string) returns (k: nat)
    requires Matches(SegmentItems(segment) + rest, text)
    ensures k <= |text| && SegmentFits(segment, text[..k]) && Matches(rest, text[k..])
  {
    if IsParameter(segment) {
      assert ([Segment] + rest)[1..] == rest;
      k :| 1 <= k <= |text| && '/' !in text[..k] && Matches(rest, text[k..]);
    } else {
      CharsMatch(segment, rest, text);
      k := |segment|;
    }
  }

  lemma {:induction false} FittingMatches(segment: string, part: string, rest: seq<Item>, text: string)
    requires SegmentFits(segment, part) && Matches(rest, text)
    ensures Matches(SegmentItems(segment) + rest, part + text)
  {
    assert (part + text)[..|part|] == part && (part + text)[|part|..] == text;
    if IsParameter(segment) {
      assert ([Segment] + rest)[1..] == rest;
    } else {
      CharsMatch(segment, rest, part + text);
    }
  }

  lemma {:induction false} SlashMatches(rest: seq<Item>, text: string)
    ensures Matches([Char('/')] + rest, text) <==> text != "" && text[0] == '/' && Matches(rest, text[1..])
  {
    assert ([Char('/')] + rest)[1..] == rest;
  }

  lemma {:induction false} TailMatches(text: string)
    ensures Matches([Optional('/')], text) <==> text == "" || text == "/"
  {
    assert [Optional('/')][1..] == [];
  }

  function Closed(parts: seq<string>, slash: bool): string {
    Join(parts, "/") + (if slash then "/" else "")
  }

  lemma {:induction false} AcceptedIsJoined(segments: seq<string>, text: string)
    returns (parts: seq<string>, slash: bool)
    requires Matches(JoinItems(segments) + [Optional('/')], text)
    ensures Fits(segments, parts) && text == Closed(parts, slash)
    decreases |segments|
  {
    if segments == [] {
      assert JoinItems(segments) + [Optional('/')] == [Optional('/')];
      TailMatches(text);
      parts, slash := [], text == "/";
    } else if |segments| == 1 {
      var k := SegmentMatches(segments[0], [Optional('/')], text);
      TailMatches(text[k..]);
      parts, slash := [text[..k]], text[k..] == "/";
      assert text == text[..k] + text[k..];
    } else {
      var rest := JoinItems(segments[1..]) + [Optional('/')];
      ItemsCons(segments);
      var k := SegmentMatches(segments[0], [Char('/')] + rest, text);
      SlashMatches(rest, text[k..]);
      var tail;
      tail, slash := AcceptedIsJoined(segments[1..], text[k..][1..]);
      parts := [text[..k]] + tail;
      FitsCons(segments, text[..k], tail);
      ClosedCons(text[..k], tail, slash);
      TakeSlash(text, k);
    }
  }

  lemma TakeSlash(text: string, k: nat)
    requires k < |text| && text[k] == '/'
    ensures text == text[..k] + ("/" + text[k..][1..])
  {
  }

  lemma {:induction false} ItemsCons(segments: seq<string>)
    requires 1 < |segments|
    ensures JoinItems(segments) + [Optional('/')] ==
      SegmentItems(segments[0]) + ([Char('/')] + (JoinItems(segments[1..]) + [Optional('/')]))
  {
    Regroup(SegmentItems(segments[0]), [Char('/')] + JoinItems(segments[1..]), [Optional('/')]);
    Regroup([Char('/')], JoinItems(segments[1..]), [Optional('/')]);
  }

  lemma ClosedCons(part: string, tail: seq<string>, slash: bool)
    requires tail != []
    ensures Closed([part] + tail, slash) == part + ("/" + Closed(tail, slash))
  {
    var end := if slash then "/" else "";
    assert ([part] + tail)[1..] == tail;
    Regroup(part, "/" + Join(tail, "/"), end);
    Regroup("/", Join(tail, "/"), end);
  }

  lemma FitsCons(segments: seq<string>, part: string, tail: seq<string>)
    requires segments != [] && SegmentFits(segments[0], part) && Fits(segments[1..], tail)
    ensures Fits(segments, [part] + tail)
  {
    forall i | 0 <= i < |segments|
      ensures SegmentFits(segments[i], ([part] + tail)[i])
    {
      assert i > 0 ==> segments[i] == segments[1..][i - 1];
    }
  }

  lemma {:induction false} JoinedIsAccepted(segments: seq<string>, parts: seq<string>, slash: bool)
    requires Fits(segments, parts)
    ensures Matches(JoinItems(segments) + [Optional('/')], Closed(parts, slash))
    decreases |segments|
  {
    var end := if slash then "/" else "";
    TailMatches(end);
    if segments == [] {
      assert JoinItems(segments) + [Optional('/')] == [Optional('/')];
      assert Closed(parts, slash) == end;
    } else if |segments| == 1 {
      FittingMatches(segments[0], parts[0], [Optional('/')], end);
    } else {
      var rest := JoinItems(segments[1..]) + [Optional('/')];
      var tail := Closed(parts[1..], slash);
      JoinedIsAccepted(segments[1..], parts[1..], slash);
      assert ("/" + tail)[1..] == tail;
      SlashMatches(rest, "/" + tail);
      FittingMatches(segments[0], parts[0], [Char('/')] + rest, "/" + tail);
      ItemsCons(segments);
      ClosedCons(parts[0], parts[1..], slash);
      assert [parts[0]] + parts[1..] == parts;
    }
  }

  lemma AcceptedFollows(path: string, text: string) returns (parts: seq<string>, slash: bool)
    requires Test(CreateRoutePattern(path), text)
    ensures Fits(Segments(path), parts) && text == "/" + Closed(parts, slash)
  {
    PatternParses(path);
    SlashMatches(JoinItems(Segments(path)) + [Optional('/')], text);
    parts, slash := AcceptedIsJoined(Segments(path), text[1..]);
    assert text == "/" + text[1..];
  }

  lemma FollowingIsAccepted(path: string, parts: seq<string>, slash: bool)
    requires Fits(Segments(path), parts)
    ensures Test(CreateRoutePattern(path), "/" + Closed(parts, slash))
  {
    var text := "/" + Closed(parts, slash);
    PatternParses(path);
    SlashMatches(JoinItems(Segments(path)) + [Optional('/')], text);
    JoinedIsAccepted(Segments(path), parts, slash);
    assert text[1..] == Closed(parts, slash);
  }

  /** The route's pattern accepts exactly its segments, one by one, and at most one slash after them. */
  lemma PatternAcceptsExactly(path: string, text: string)
    ensures Test(CreateRoutePattern(path), text) <==>
      exists parts, slash :: Fits(Segments(path), parts) && text == "/" + Closed(parts, slash)
  {
    if Test(CreateRoutePattern(path), text) {
      var parts, slash := AcceptedFollows(path, text);
    }
    forall parts, slash | Fits(Segments(path), parts) && text == "/" + Closed(parts, slash)
      ensures Test(CreateRoutePattern(path), text)
    {
      FollowingIsAccepted(path, parts, slash);
    }
  }

  lemma PartsAreSegments(segments: seq<string>, parts: seq<string>)
    requires Fits(segments, parts) && forall s :: s in segments ==> s != "" && '/' !in s
    ensures forall p :: p in parts ==> p != "" && '/' !in p
  {
    forall i | 0 <= i < |parts|
      ensures parts[i] != "" && '/' !in parts[i]
    {
      assert SegmentFits(segments[i], parts[i]) && segments[i] in segments;
    }
  }

  lemma {:induction false} JoinedEnds(parts: seq<string>)
    requires parts != [] && forall p :: p in parts ==> p != "" && '/' !in p
    ensures var s := Join(parts, "/"); s != "" && s[|s| - 1] != '/'
    decreases |parts|
  {
    if |parts| == 1 {
      assert parts[0] in parts && parts[0][|parts[0]| - 1] in parts[0];
    } else {
      assert forall p :: p in parts[1..] ==> p in parts;
      JoinedEnds(parts[1..]);
    }
  }

  /**
    On a path as lookups see it, without a trailing slash, the pattern is the comparison of
    the route's segments with the path's.
   */
  lemma PatternIsSegmentwise(path: string, text: string)
    requires Segments(path) != [] && (text == "" || text[|text| - 1] != '/' || text == "/")
    ensures Test(CreateRoutePattern(path), text) <==>
      text != "" && text[0] == '/' && Fits(Segments(path), Split(text[1..], '/'))
  {
    var segments := Segments(path);
    PatternAcceptsExactly(path, text);
    forall parts, slash | Fits(segments, parts) && text == "/" + Closed(parts, slash)
      ensures text != "" && text[0] == '/' && Split(text[1..], '/') == parts
    {
      PartsAreSegments(segments, parts);
      JoinedEnds(parts);
      SplitJoin(parts, '/');
      assert text[1..] == Closed(parts, slash);
      if !slash {
        assert Closed(parts, slash) == Join(parts, "/");
      }
    }
    if text != "" && text[0] == '/' && Fits(segments, Split(text[1..], '/')) {
      JoinSplit(text[1..], '/');
      assert text == "/" + Closed(Split(text[1..], '/'), false);
    }
  }
}
