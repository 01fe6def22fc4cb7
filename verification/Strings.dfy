/** The string operations of ECMA-262 that the routes, cookies and tokens are made of. */
module Strings {

  function Split(s: string, c: char): (parts: seq<string>)
    ensures |parts| >= 1
    ensures forall p :: p in parts ==> c !in p
    decreases |s|
  {
    if s == "" then [""]
    else
      var rest := Split(s[1..], c);
      if s[0] == c then [""] + rest else [[s[0]] + rest[0]] + rest[1..]
  }

  function Join(parts: seq<string>, sep: string): string
    decreases |parts|
  {
    if parts == [] then ""
    else if |parts| == 1 then parts[0]
    else parts[0] + (sep + Join(parts[1..], sep))
  }

  /** WhiteSpace and LineTerminator of sections 12.2 and 12.3 of ECMA-262. */
  predicate IsSpace(c: char) {
    || c in "\t\n\r " || c == '\U{000B}' || c == '\U{000C}' || c == '\U{00A0}' || c == '\U{1680}'
    || '\U{2000}' <= c <= '\U{200A}' || c == '\U{2028}' || c == '\U{2029}' || c == '\U{202F}'
    || c == '\U{205F}' || c == '\U{3000}' || c == '\U{FEFF}'
  }

  function TrimStart(s: string): string
    decreases |s|
  {
    if s != "" && IsSpace(s[0]) then TrimStart(s[1..]) else s
  }

  function TrimEnd(s: string): string
    decreases |s|
  {
    if s != "" && IsSpace(s[|s| - 1]) then TrimEnd(s[..|s| - 1]) else s
  }

  function Trim(s: string): string {
    TrimEnd(TrimStart(s))
  }

  /** Without a trailing run of `c`. */
  function StripEnd(s: string, c: char): string
    decreases |s|
  {
    if s != "" && s[|s| - 1] == c then StripEnd(s[..|s| - 1], c) else s
  }

  predicate StartsWith(s: string, prefix: string) {
    prefix <= s
  }

  lemma {:induction false} SplitFirst(p: string, rest: string, c: char)
    requires c !in p
    ensures Split(p + ([c] + rest), c) == [p] + Split(rest, c)
    decreases |p|
  {
    var s := p + ([c] + rest);
    if p == "" {
      assert s[1..] == rest;
    } else {
      assert s[1..] == p[1..] + ([c] + rest);
      SplitFirst(p[1..], rest, c);
      assert [p[0]] + p[1..] == p;
    }
  }

  lemma {:induction false} SplitWhole(p: string, c: char)
    requires c !in p
    ensures Split(p, c) == [p]
    decreases |p|
  {
    if p != "" {
      SplitWhole(p[1..], c);
      assert [p[0]] + p[1..] == p;
    }
  }

  function Padded(pad: string, parts: seq<string>): (r: seq<string>)
    ensures |r| == |parts|
    ensures forall i :: 0 <= i < |r| ==> r[i] == pad + parts[i]
  {
    seq(|parts|, i requires 0 <= i < |parts| => pad + parts[i])
  }

  /** Splitting what was joined gives the parts back, all but the first behind the padding. */
  lemma {:induction false} SplitJoinPadded(parts: seq<string>, c: char, pad: string)
    requires parts != [] && c !in pad && forall p :: p in parts ==> c !in p
    ensures Split(Join(parts, [c] + pad), c) == [parts[0]] + Padded(pad, parts[1..])
    decreases |parts|
  {
    if |parts| == 1 {
      SplitWhole(parts[0], c);
    } else {
      var rest := parts[1..];
      var joined := Join(rest, [c] + pad);
      var tail := Padded(pad, rest[1..]);
      SplitJoinPadded(rest, c, pad);
      assert Split(joined, c) == [rest[0]] + tail;
      SplitPrefix(pad, joined, c);
      assert Split(pad + joined, c) == [pad + rest[0]] + tail;
      SplitFirst(parts[0], pad + joined, c);
      Regroup([c], pad, joined);
      PaddedCons(pad, rest);
    }
  }

  lemma Regroup<T>(a: seq<T>, b: seq<T>, c: seq<T>)
    ensures (a + b) + c == a + (b + c)
  {
  }

  lemma PaddedCons(pad: string, parts: seq<string>)
    requires parts != []
    ensures Padded(pad, parts) == [pad + parts[0]] + Padded(pad, parts[1..])
  {
  }

  lemma {:induction false} SplitPrefix(pad: string, s: string, c: char)
    requires c !in pad
    ensures Split(pad + s, c) == [pad + Split(s, c)[0]] + Split(s, c)[1..]
    decreases |pad|
  {
    if pad == "" {
      assert pad + s == s && pad + Split(s, c)[0] == Split(s, c)[0];
    } else {
      var rest := Split(s, c);
      SplitPrefix(pad[1..], s, c);
      assert (pad + s)[1..] == pad[1..] + s && (pad + s)[0] == pad[0] && pad[0] in pad;
      Regroup([pad[0]], pad[1..], rest[0]);
      assert [pad[0]] + pad[1..] == pad;
    }
  }

  lemma {:induction false} SplitJoin(parts: seq<string>, c: char)
    requires parts != [] && forall p :: p in parts ==> c !in p
    ensures Split(Join(parts, [c]), c) == parts
  {
    SplitJoinPadded(parts, c, "");
    assert [c] + "" == [c];
    assert forall p: string :: "" + p == p;
    assert [parts[0]] + Padded("", parts[1..]) == parts;
  }

  lemma {:induction false} JoinSplit(s: string, c: char)
    ensures Join(Split(s, c), [c]) == s
    decreases |s|
  {
    if s != "" {
      var rest := Split(s[1..], c);
      JoinSplit(s[1..], c);
      assert s == [s[0]] + s[1..];
      if s[0] == c {
        assert Split(s, c)[1..] == rest;
        assert "" + ([c] + Join(rest, [c])) == [c] + Join(rest, [c]);
      } else {
        var parts := [[s[0]] + rest[0]] + rest[1..];
        assert parts[1..] == rest[1..];
        if |rest| > 1 {
          Regroup([s[0]], rest[0], [c] + Join(rest[1..], [c]));
        }
      }
    }
  }

  predicate Unspaced(s: string) {
    s == "" || (!IsSpace(s[0]) && !IsSpace(s[|s| - 1]))
  }

  lemma {:induction false} TrimIgnoresLeadingSpace(pad: string, s: string)
    requires forall c :: c in pad ==> IsSpace(c)
    ensures Trim(pad + s) == Trim(s)
    decreases |pad|
  {
    if pad == "" {
      assert pad + s == s;
    } else {
      assert pad[0] in pad && (pad + s)[1..] == pad[1..] + s;
      TrimIgnoresLeadingSpace(pad[1..], s);
    }
  }

  lemma {:induction false} TrimEndEnds(s: string)
    ensures var r := TrimEnd(s); r <= s && (r != "" ==> !IsSpace(r[|r| - 1]))
    decreases |s|
  {
    if s != "" && IsSpace(s[|s| - 1]) {
      TrimEndEnds(s[..|s| - 1]);
    }
  }

  lemma {:induction false} TrimIgnoresTrailingSpace(s: string, pad: string)
    requires s != "" && Unspaced(s) && forall c :: c in pad ==> IsSpace(c)
    ensures TrimEnd(s + pad) == s
    decreases |pad|
  {
    if pad == "" {
      assert s + pad == s;
    } else {
      var init := pad[..|pad| - 1];
      assert pad[|pad| - 1] in pad && (s + pad)[..|s + pad| - 1] == s + init;
      assert forall c :: c in init ==> c in pad;
      TrimIgnoresTrailingSpace(s, init);
    }
  }

  /** White space around a text that has none at its ends is what trimming removes. */
  lemma TrimsPadding(lead: string, s: string, trail: string)
    requires s != "" && Unspaced(s)
    requires (forall c :: c in lead ==> IsSpace(c)) && forall c :: c in trail ==> IsSpace(c)
    ensures Trim(lead + (s + trail)) == s
  {
    TrimIgnoresLeadingSpace(lead, s + trail);
    assert TrimStart(s + trail) == s + trail;
    TrimIgnoresTrailingSpace(s, trail);
  }

  lemma {:induction false} StripEndEnds(s: string, c: char)
    ensures var r := StripEnd(s, c); r <= s && (r == "" || r[|r| - 1] != c)
    decreases |s|
  {
    if s != "" && s[|s| - 1] == c {
      StripEndEnds(s[..|s| - 1], c);
    }
  }

  lemma {:induction false} StripsToNothing(s: string, c: char)
    requires StripEnd(s, c) == ""
    ensures forall x :: x in s ==> x == c
    decreases |s|
  {
    if s != "" {
      StripsToNothing(s[..|s| - 1], c);
      assert s == s[..|s| - 1] + [s[|s| - 1]];
    }
  }

  lemma {:induction false} StripBehind(head: string, s: string, c: char)
    requires StripEnd(s, c) != ""
    ensures StripEnd(head + s, c) == head + StripEnd(s, c)
    decreases |s|
  {
    assert (head + s)[|head + s| - 1] == s[|s| - 1];
    if s[|s| - 1] == c {
      assert (head + s)[..|head + s| - 1] == head + s[..|s| - 1];
      StripBehind(head, s[..|s| - 1], c);
    }
  }

  lemma {:induction false} StripsRun(s: string, run: string, c: char)
    requires (s == "" || s[|s| - 1] != c) && forall x :: x in run ==> x == c
    ensures StripEnd(s + run, c) == s
    decreases |run|
  {
    if run == "" {
      assert s + run == s;
    } else {
      var init := run[..|run| - 1];
      assert run[|run| - 1] in run && (s + run)[..|s + run| - 1] == s + init;
      assert forall x :: x in init ==> x in run;
      StripsRun(s, init, c);
    }
  }

  lemma {:induction false} TrimEndKeepsHead(s: string)
    requires s != "" && !IsSpace(s[0])
    ensures TrimEnd(s) != "" && TrimEnd(s)[0] == s[0]
    decreases |s|
  {
    if IsSpace(s[|s| - 1]) {
      TrimEndKeepsHead(s[..|s| - 1]);
    }
  }
}
