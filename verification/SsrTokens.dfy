/**
  The extractor of the access token from the cookies a server-side session leaves: one
  cookie, or numbered chunks of it that are put together again.
 */
module SsrTokens {
  import opened Wrappers
  import opened Strings
  import opened PercentCoding

  // ---- Cookie names -------------------------------------------------------------------

  datatype NameKind = Unchunked | Chunk(index: nat) | Other

  const HEAD := "sb-"
  const END := "-auth-token"

  /** Lower-case letters and digits, at least one. */
  predicate IsRef(s: string) {
    s != "" && forall c :: c in s ==> 'a' <= c <= 'z' || '0' <= c <= '9'
  }

  /** Decimal digits, at least one. */
  predicate IsNumeral(s: string) {
    s != "" && IsDigits(s)
  }

  predicate IsDigits(s: string) {
    forall i :: 0 <= i < |s| ==> '0' <= s[i] <= '9'
  }

  function Value(s: string): nat
    requires IsDigits(s)
  {
    if s == "" then 0
    else Value(s[..|s| - 1]) * 10 + (s[|s| - 1] as int - '0' as int)
  }

  function TokenName(ref: string): string {
    HEAD + ref + END
  }

  predicate IsTokenName(name: string) {
    && |HEAD| + |END| <= |name| && HEAD <= name && name[|name| - |END|..] == END
    && IsRef(name[|HEAD|..|name| - |END|])
  }

  function Kind(name: string): NameKind {
    if IsTokenName(name) then Unchunked
    else
      var parts := Split(name, '.');
      if |parts| == 2 && IsTokenName(parts[0]) && IsNumeral(parts[1]) then Chunk(Value(parts[1])) else Other
  }

  lemma TokenNames(name: string)
    ensures IsTokenName(name) <==> exists ref :: IsRef(ref) && name == TokenName(ref)
  {
    if IsTokenName(name) {
      assert name == TokenName(name[|HEAD|..|name| - |END|]);
    }
    forall ref | IsRef(ref) && name == TokenName(ref)
      ensures IsTokenName(name)
    {
      assert name[|HEAD|..|name| - |END|] == ref;
    }
  }

  lemma RefHas(ref: string, c: char)
    requires IsRef(ref) && (c == '.' || c == '=' || c == ';')
    ensures c !in TokenName(ref)
  {
    assert c !in HEAD && c !in END;
  }

  /** A name is a chunk's exactly if it is a token name, a dot and a numeral. */
  lemma ChunkNames(name: string, i: nat)
    ensures Kind(name) == Chunk(i) <==>
      exists ref, digits :: IsRef(ref) && IsNumeral(digits) && Value(digits) == i
        && name == TokenName(ref) + "." + digits
  {
    if Kind(name) == Chunk(i) {
      var parts := Split(name, '.');
      JoinSplit(name, '.');
      assert parts[1..] == [parts[1]];
      TokenNames(parts[0]);
      var ref :| IsRef(ref) && parts[0] == TokenName(ref);
      assert name == TokenName(ref) + "." + parts[1];
    }
    forall ref, digits | IsRef(ref) && IsNumeral(digits) && Value(digits) == i
        && name == TokenName(ref) + "." + digits
      ensures Kind(name) == Chunk(i)
    {
      ChunkNameIsChunk(ref, digits);
    }
  }

  lemma {:induction false} ChunkNameIsChunk(ref: string, digits: string)
    requires IsRef(ref) && IsNumeral(digits)
    ensures Kind(TokenName(ref) + "." + digits) == Chunk(Value(digits))
  {
    var name := TokenName(ref) + "." + digits;
    RefHas(ref, '.');
    Regroup(TokenName(ref), ".", digits);
    SplitFirst(TokenName(ref), digits, '.');
    SplitWhole(digits, '.');
    TokenNames(TokenName(ref));
    DotIsNoTokenName(name);
  }

  lemma DotIsNoTokenName(name: string)
    requires '.' in name
    ensures !IsTokenName(name)
  {
    TokenNames(name);
    if ref :| IsRef(ref) && name == TokenName(ref) {
      RefHas(ref, '.');
    }
  }

  // ---- Reading the cookie header ------------------------------------------------------

  function Cookies(header: string): (r: seq<string>) {
    var parts := Split(header, ';');
    seq(|parts|, i requires 0 <= i < |parts| => Trim(parts[i]))
  }

  predicate HasValue(cookie: string) {
    1 < |Split(cookie, '=')|
  }

  function NameOf(cookie: string): string {
    Split(cookie, '=')[0]
  }

  /** Everything behind the first equals sign, decoded; `None` where decoding throws. */
  function ValueOf(cookie: string): Option<string> {
    Decode(Join(Split(cookie, '=')[1..], "="))
  }

  datatype Jar = Jar(unchunked: Option<string>, chunks: map<nat, string>)

  /** One turn of the loop; `None` where decoding throws. */
  function Put(jar: Jar, cookie: string): Option<Jar> {
    if !HasValue(cookie) then Some(jar)
    else if ValueOf(cookie).None? then None
    else
      match Kind(NameOf(cookie))
      case Unchunked => Some(jar.(unchunked := ValueOf(cookie)))
      case Chunk(i) => Some(jar.(chunks := jar.chunks[i := ValueOf(cookie).value]))
      case Other => Some(jar)
  }

  function Scan(cookies: seq<string>): Option<Jar> {
    if cookies == [] then Some(Jar(None, map[]))
    else
      var before := Scan(cookies[..|cookies| - 1]);
      if before.None? then None else Put(before.value, cookies[|cookies| - 1])
  }

  // ---- Putting the chunks together ----------------------------------------------------

  predicate Ascending(order: seq<nat>) {
    forall i, j :: 0 <= i < j < |order| ==> order[i] < order[j]
  }

  predicate Lists(order: seq<nat>, keys: set<nat>) {
    (forall k :: k in order ==> k in keys) && (forall k :: k in keys ==> k in order)
  }

  function Concat(chunks: map<nat, string>, order: seq<nat>): string
    requires forall k :: k in order ==> k in chunks
  {
    if order == [] then ""
    else
      assert forall k :: k in order[..|order| - 1] ==> k in order;
      Concat(chunks, order[..|order| - 1]) + chunks[order[|order| - 1]]
  }

  /** There is one way to list a set in ascending order. */
  lemma {:induction false} OrderIsUnique(keys: set<nat>, a: seq<nat>, b: seq<nat>)
    requires Ascending(a) && Ascending(b) && Lists(a, keys) && Lists(b, keys)
    ensures a == b
    decreases |a|
  {
    EmptyLists(keys, a);
    EmptyLists(keys, b);
    if a != [] {
      var x, y := a[|a| - 1], b[|b| - 1];
      assert x in b && y in a;
      assert x == y;
      var a', b' := a[..|a| - 1], b[..|b| - 1];
      InitLists(keys, a);
      InitLists(keys, b);
      OrderIsUnique(keys - {x}, a', b');
      assert a == a' + [x] && b == b' + [y];
    }
  }

  lemma EmptyLists(keys: set<nat>, order: seq<nat>)
    requires Lists(order, keys)
    ensures order == [] <==> keys == {}
  {
    if order != [] {
      assert order[0] in keys;
    }
  }

  lemma InitLists(keys: set<nat>, order: seq<nat>)
    requires order != [] && Ascending(order) && Lists(order, keys)
    ensures var init := order[..|order| - 1];
      Ascending(init) && Lists(init, keys - {order[|order| - 1]})
  {
    var init, last := order[..|order| - 1], order[|order| - 1];
    assert order == init + [last];
  }

  /** The indices of the chunks found, in ascending numerical order. */
  method SortedIndices(keys: set<nat>) returns (order: seq<nat>)
    ensures Ascending(order) && Lists(order, keys)
  {
    order := [];
    var todo := keys;
    while todo != {}
      invariant todo <= keys && Ascending(order) && Lists(order, keys - todo)
      decreases |todo|
    {
      var k :| k in todo;
      var i := |order|;
      while i > 0 && k < order[i - 1]
        invariant 0 <= i <= |order|
        invariant forall j :: i <= j < |order| ==> k < order[j]
      {
        i := i - 1;
      }
      assert i > 0 ==> order[i - 1] in order;
      InsertionKeepsOrder(keys - todo, order, i, k);
      order := order[..i] + [k] + order[i..];
      todo := todo - {k};
      assert keys - todo == keys - (todo + {k}) + {k};
    }
    assert keys - todo == keys;
  }

  lemma InsertionKeepsOrder(keys: set<nat>, order: seq<nat>, i: nat, k: nat)
    requires Ascending(order) && Lists(order, keys) && k !in keys && i <= |order|
    requires (forall j :: i <= j < |order| ==> k < order[j]) && (i > 0 ==> order[i - 1] < k)
    ensures var r := order[..i] + [k] + order[i..]; Ascending(r) && Lists(r, keys + {k})
  {
  }

  // ---- The extractor --------------------------------------------------------------------

  /** The token's text before it is parsed; `UriError` where `extract` throws. */
  datatype Extraction = UriError | Text(text: Option<string>)

  ghost predicate IsAssembled(jar: Jar, text: Option<string>) {
    if jar.unchunked.Some? then text == jar.unchunked
    else if jar.chunks == map[] then text == None
    else
      exists order :: Ascending(order) && Lists(order, jar.chunks.Keys)
        && text == Some(Concat(jar.chunks, order))
  }

  /** What `extract` makes of the cookies up to `fullTokenString`. */
  ghost predicate Yields(header: string, r: Extraction) {
    match Scan(Cookies(header))
    case None => r == UriError
    case Some(jar) => r.Text? && IsAssembled(jar, r.text)
  }

  /** The loop over the cookies. */
  method ReadCookies(cookies: seq<string>) returns (r: Option<Jar>)
    ensures r == Scan(cookies)
  {
    var tokenChunks: map<nat, string> := map[];
    var unchunkedToken: Option<string> := None;
    var i := 0;
    assert cookies[..0] == [];
    while i < |cookies|
      invariant 0 <= i <= |cookies|
      invariant Scan(cookies[..i]) == Some(Jar(unchunkedToken, tokenChunks))
    {
      assert cookies[..i + 1][..i] == cookies[..i];
      var parts := Split(cookies[i], '=');
      if 1 < |parts| {
        var value := Decode(Join(parts[1..], "="));
        if value.None? {
          ThrowingStays(cookies, i + 1);
          return None;
        }
        match Kind(parts[0]) {
          case Unchunked => unchunkedToken := value;
          case Chunk(n) => tokenChunks := tokenChunks[n := value.value];
          case Other =>
        }
      }
      i := i + 1;
    }
    assert cookies[..|cookies|] == cookies;
    r := Some(Jar(unchunkedToken, tokenChunks));
  }

  /** The chunks with these indices, one after the other. */
  method JoinChunks(tokenChunks: map<nat, string>, indices: seq<nat>) returns (joined: string)
    requires forall k :: k in indices ==> k in tokenChunks
    ensures joined == Concat(tokenChunks, indices)
  {
    joined := "";
    var i := 0;
    assert indices[..0] == [];
    while i < |indices|
      invariant 0 <= i <= |indices|
      invariant joined == Concat(tokenChunks, indices[..i])
    {
      assert indices[..i + 1][..i] == indices[..i];
      joined := joined + tokenChunks[indices[i]];
      i := i + 1;
    }
    assert indices[..|indices|] == indices;
  }

  method FullToken(header: string) returns (r: Extraction)
    ensures Yields(header, r)
  {
    var jar := ReadCookies(Cookies(header));
    if jar.None? {
      return UriError;
    }
    var fullTokenString := jar.value.unchunked;
    if fullTokenString.None? && jar.value.chunks != map[] {
      var indices := SortedIndices(jar.value.chunks.Keys);
      var joined := JoinChunks(jar.value.chunks, indices);
      fullTokenString := Some(joined);
    }
    r := Text(fullTokenString);
  }

  lemma {:induction false} ThrowingStays(cookies: seq<string>, n: nat)
    requires n <= |cookies| && Scan(cookies[..n]).None?
    ensures Scan(cookies).None?
    decreases |cookies|
  {
    if n == |cookies| {
      assert cookies[..n] == cookies;
    } else {
      assert cookies[..|cookies| - 1][..n] == cookies[..n];
      ThrowingStays(cookies[..|cookies| - 1], n);
    }
  }

  /** Lower case where it matters: no other character's lower case is a letter of "bearer ". */
  function ToLower(c: char): char {
    if 'A' <= c <= 'Z' then c - 'A' + 'a' else c
  }

  predicate IsBearer(header: string) {
    |header| >= 7 && forall i :: 0 <= i < 7 ==> ToLower(header[i]) == "bearer "[i]
  }

  /** "Bearer " at the head, letter by letter in either case. */
  predicate BearsToken(header: string) {
    |header| >= 7 && forall i :: 0 <= i < 7 ==> header[i] == "bearer "[i] || header[i] == "BEARER "[i]
  }

  lemma BearerInEitherCase(header: string)
    ensures IsBearer(header) <==> BearsToken(header)
  {
  }

  datatype Outcome = Threw | Found(token: Option<string>)

  /**
    `SupabaseSsrTokenExtractor.extract`; `accessToken` parses the text and takes its string
    `access_token`, `None` if there is none or parsing throws.
   */
  method Extract(authorization: Option<string>, cookie: Option<string>, accessToken: string -> Option<string>)
    returns (r: Outcome)
    ensures authorization.Some? && BearsToken(authorization.value) ==> r == Found(Some(authorization.value[7..]))
    ensures !(authorization.Some? && BearsToken(authorization.value)) && (cookie.None? || cookie.value == "") ==>
      r == Found(None)
    ensures !(authorization.Some? && BearsToken(authorization.value)) && cookie.Some? && cookie.value != "" ==>
      exists full :: Yields(cookie.value, full) &&
        r == if full.UriError? then Threw
             else if full.text.None? || full.text.value == "" then Found(None)
             else Found(accessToken(full.text.value))
  {
    if authorization.Some? {
      BearerInEitherCase(authorization.value);
    }
    if authorization.Some? && IsBearer(authorization.value) {
      return Found(Some(authorization.value[7..]));
    }
    if cookie.None? || cookie.value == "" {
      return Found(None);
    }
    var full := FullToken(cookie.value);
    match full {
      case UriError => r := Threw;
      case Text(text) =>
        if text.None? || text.value == "" {
          return Found(None);
        }
        r := Found(accessToken(text.value));
    }
  }

  // ---- What is read ---------------------------------------------------------------------

  predicate Undecodable(cookie: string) {
    HasValue(cookie) && ValueOf(cookie).None?
  }

  /** One cookie that cannot be decoded, related or not, makes the extractor throw; nothing else does. */
  lemma {:induction false} ThrowsIff(cookies: seq<string>)
    ensures Scan(cookies).None? <==> exists i :: 0 <= i < |cookies| && Undecodable(cookies[i])
    decreases |cookies|
  {
    if cookies != [] {
      var init := cookies[..|cookies| - 1];
      ThrowsIff(init);
      assert forall i :: 0 <= i < |init| ==> init[i] == cookies[i];
    }
  }

  predicate IsChunk(cookie: string, i: nat) {
    HasValue(cookie) && Kind(NameOf(cookie)) == Chunk(i)
  }

  predicate IsWhole(cookie: string) {
    HasValue(cookie) && Kind(NameOf(cookie)).Unchunked?
  }

  /** Whatever the order of the cookies: the last one with a chunk's number is that chunk. */
  lemma {:induction false} LastChunkWins(cookies: seq<string>, i: nat, p: nat)
    requires Scan(cookies).Some? && p < |cookies| && IsChunk(cookies[p], i)
    requires forall q :: p < q < |cookies| ==> !IsChunk(cookies[q], i)
    ensures i in Scan(cookies).value.chunks && Some(Scan(cookies).value.chunks[i]) == ValueOf(cookies[p])
    decreases |cookies|
  {
    var init := cookies[..|cookies| - 1];
    if p < |cookies| - 1 {
      assert !IsChunk(cookies[|cookies| - 1], i);
      LastChunkWins(init, i, p);
    }
  }

  lemma {:induction false} OnlyChunks(cookies: seq<string>, i: nat)
    requires Scan(cookies).Some? && forall q :: 0 <= q < |cookies| ==> !IsChunk(cookies[q], i)
    ensures i !in Scan(cookies).value.chunks
    decreases |cookies|
  {
    if cookies != [] {
      assert !IsChunk(cookies[|cookies| - 1], i);
      OnlyChunks(cookies[..|cookies| - 1], i);
    }
  }

  lemma {:induction false} NoWhole(cookies: seq<string>)
    requires Scan(cookies).Some? && forall q :: 0 <= q < |cookies| ==> !IsWhole(cookies[q])
    ensures Scan(cookies).value.unchunked == None
    decreases |cookies|
  {
    if cookies != [] {
      assert !IsWhole(cookies[|cookies| - 1]);
      NoWhole(cookies[..|cookies| - 1]);
    }
  }

  /** A whole token, if there is one, wins over any chunks. */
  lemma {:induction false} LastWholeWins(cookies: seq<string>, p: nat)
    requires Scan(cookies).Some? && p < |cookies| && IsWhole(cookies[p])
    requires forall q :: p < q < |cookies| ==> !IsWhole(cookies[q])
    ensures Scan(cookies).value.unchunked == ValueOf(cookies[p])
    decreases |cookies|
  {
    if p < |cookies| - 1 {
      assert !IsWhole(cookies[|cookies| - 1]);
      LastWholeWins(cookies[..|cookies| - 1], p);
    }
  }

  // ---- The round trip -------------------------------------------------------------------

  /** The cookie that carries chunk `i`, for some project reference and some numeral for `i`. */
  ghost predicate Carries(cookie: string, chunk: string, i: nat) {
    exists ref, digits :: IsRef(ref) && IsNumeral(digits) && Value(digits) == i
      && cookie == TokenName(ref) + "." + digits + "=" + Encode(chunk)
  }

  predicate Unrelated(cookie: string) {
    HasValue(cookie) ==> ValueOf(cookie).Some? && Kind(NameOf(cookie)).Other?
  }

  function ConcatAll(chunks: seq<string>): string {
    if chunks == [] then "" else ConcatAll(chunks[..|chunks| - 1]) + chunks[|chunks| - 1]
  }

  lemma {:induction false} CookieParts(name: string, raw: string)
    requires '=' !in name
    ensures HasValue(name + "=" + raw) && NameOf(name + "=" + raw) == name && ValueOf(name + "=" + raw) == Decode(raw)
  {
    Regroup(name, "=", raw);
    SplitFirst(name, raw, '=');
    JoinSplit(raw, '=');
    assert ([name] + Split(raw, '='))[1..] == Split(raw, '=');
  }

  lemma CarrierIsChunk(cookie: string, chunk: string, i: nat)
    requires Carries(cookie, chunk, i)
    ensures IsChunk(cookie, i) && ValueOf(cookie) == Some(chunk)
  {
    var ref, digits :| IsRef(ref) && IsNumeral(digits) && Value(digits) == i
      && cookie == TokenName(ref) + "." + digits + "=" + Encode(chunk);
    var name := TokenName(ref) + "." + digits;
    RefHas(ref, '=');
    assert '=' !in digits;
    CookieParts(name, Encode(chunk));
    ChunkNameIsChunk(ref, digits);
    RoundTrip(chunk);
  }

  /** Every chunk is carried by some cookie, and every cookie carries a chunk or is unrelated. */
  ghost predicate Delivers(cookies: seq<string>, chunks: seq<string>) {
    && (forall p :: 0 <= p < |cookies| ==> Unrelated(cookies[p]) || CarriesOne(cookies[p], chunks))
    && (forall i :: 0 <= i < |chunks| ==> Carried(cookies, chunks[i], i))
  }

  ghost predicate CarriesOne(cookie: string, chunks: seq<string>) {
    exists i :: 0 <= i < |chunks| && Carries(cookie, chunks[i], i)
  }

  ghost predicate Carried(cookies: seq<string>, chunk: string, i: nat) {
    exists p :: 0 <= p < |cookies| && Carries(cookies[p], chunk, i)
  }

  lemma DeliveredCookie(cookie: string, chunks: seq<string>, i: nat)
    requires Unrelated(cookie) || CarriesOne(cookie, chunks)
    ensures !Undecodable(cookie) && !IsWhole(cookie)
    ensures IsChunk(cookie, i) ==> i < |chunks| && ValueOf(cookie) == Some(chunks[i])
  {
    if CarriesOne(cookie, chunks) {
      var j :| 0 <= j < |chunks| && Carries(cookie, chunks[j], j);
      CarrierIsChunk(cookie, chunks[j], j);
    }
  }

  lemma {:induction false} LastPosition(cookies: seq<string>, i: nat, p: nat) returns (last: nat)
    requires p < |cookies| && IsChunk(cookies[p], i)
    ensures last < |cookies| && IsChunk(cookies[last], i)
    ensures forall q :: last < q < |cookies| ==> !IsChunk(cookies[q], i)
    decreases |cookies| - p
  {
    if q: nat :| p < q < |cookies| && IsChunk(cookies[q], i) {
      last := LastPosition(cookies, i, q);
    } else {
      last := p;
    }
  }

  lemma {:induction false} DeliveredJar(cookies: seq<string>, chunks: seq<string>)
    requires Delivers(cookies, chunks)
    ensures Scan(cookies).Some? && Scan(cookies).value.unchunked == None
    ensures forall i: nat :: i in Scan(cookies).value.chunks <==> i < |chunks|
    ensures forall i :: 0 <= i < |chunks| ==> Scan(cookies).value.chunks[i] == chunks[i]
  {
    forall p | 0 <= p < |cookies|
      ensures !Undecodable(cookies[p]) && !IsWhole(cookies[p])
    {
      DeliveredCookie(cookies[p], chunks, 0);
    }
    ThrowsIff(cookies);
    NoWhole(cookies);
    forall i: nat
      ensures i in Scan(cookies).value.chunks <==> i < |chunks|
      ensures i < |chunks| ==> Scan(cookies).value.chunks[i] == chunks[i]
    {
      DeliveredChunk(cookies, chunks, i);
    }
  }

  lemma {:induction false} DeliveredChunk(cookies: seq<string>, chunks: seq<string>, i: nat)
    requires Delivers(cookies, chunks) && Scan(cookies).Some?
    ensures i in Scan(cookies).value.chunks <==> i < |chunks|
    ensures i < |chunks| ==> Scan(cookies).value.chunks[i] == chunks[i]
  {
    if i < |chunks| {
      assert Carried(cookies, chunks[i], i);
      var p: nat :| p < |cookies| && Carries(cookies[p], chunks[i], i);
      CarrierIsChunk(cookies[p], chunks[i], i);
      var last := LastPosition(cookies, i, p);
      DeliveredCookie(cookies[last], chunks, i);
      LastChunkWins(cookies, i, last);
    } else {
      forall q | 0 <= q < |cookies|
        ensures !IsChunk(cookies[q], i)
      {
        DeliveredCookie(cookies[q], chunks, i);
      }
      OnlyChunks(cookies, i);
    }
  }

  lemma {:induction false} RangeConcat(m: map<nat, string>, chunks: seq<string>, order: seq<nat>)
    requires |order| == |chunks| && forall i :: 0 <= i < |order| ==> order[i] == i && i in m && m[i] == chunks[i]
    ensures Concat(m, order) == ConcatAll(chunks)
    decreases |chunks|
  {
    if chunks != [] {
      RangeConcat(m, chunks[..|chunks| - 1], order[..|order| - 1]);
    }
  }

  /**
    Chunks in numbered cookies, in any order, repeated or not, among any decodable cookies
    of other names: what the extractor joins is the concatenation of the chunks.
   */
  lemma {:induction false} ChunksAreReassembled(header: string, chunks: seq<string>, r: Extraction)
    requires chunks != [] && Delivers(Cookies(header), chunks)
    ensures Yields(header, r) <==> r == Text(Some(ConcatAll(chunks)))
  {
    DeliveredJar(Cookies(header), chunks);
    if r.Text? {
      AssembledInOrder(Scan(Cookies(header)).value, chunks, r.text);
    }
  }

  lemma {:induction false} AssembledInOrder(jar: Jar, chunks: seq<string>, text: Option<string>)
    requires chunks != [] && jar.unchunked == None
    requires forall i: nat :: i in jar.chunks <==> i < |chunks|
    requires forall i :: 0 <= i < |chunks| ==> jar.chunks[i] == chunks[i]
    ensures IsAssembled(jar, text) <==> text == Some(ConcatAll(chunks))
  {
    var range := seq(|chunks|, i => i);
    assert 0 in jar.chunks;
    RangeConcat(jar.chunks, chunks, range);
    if IsAssembled(jar, text) {
      var order :| Ascending(order) && Lists(order, jar.chunks.Keys) && text == Some(Concat(jar.chunks, order));
      OrderIsUnique(jar.chunks.Keys, order, range);
    }
  }

  /** A cookie as a browser sends it: no semicolon, no white space around it. */
  predicate IsSendable(cookie: string) {
    ';' !in cookie && Unspaced(cookie)
  }

  lemma CarrierIsSendable(cookie: string, chunk: string, i: nat)
    requires Carries(cookie, chunk, i)
    ensures IsSendable(cookie)
  {
    var ref, digits :| IsRef(ref) && IsNumeral(digits) && Value(digits) == i
      && cookie == TokenName(ref) + "." + digits + "=" + Encode(chunk);
    RefHas(ref, ';');
    DigitsFit(digits);
    EncodedFits(chunk);
    SendableConcat(TokenName(ref), ".", digits);
    SendableConcat(TokenName(ref) + "." + digits, "=", Encode(chunk));
  }

  /** Characters that neither end nor pad a cookie. */
  predicate AllFit(s: string) {
    forall c :: c in s ==> c != ';' && !IsSpace(c)
  }

  lemma DigitsFit(digits: string)
    requires IsDigits(digits)
    ensures AllFit(digits)
  {
    forall c | c in digits
      ensures c != ';' && !IsSpace(c)
    {
      PlainIsNoSpace(c);
    }
  }

  lemma {:induction false} EncodedFits(chunk: string)
    ensures AllFit(Encode(chunk))
  {
    EncodedIsPlain(chunk);
    forall c | c in Encode(chunk)
      ensures c != ';' && !IsSpace(c)
    {
      PlainIsNoSpace(c);
    }
  }

  lemma PlainIsNoSpace(c: char)
    requires IsPlain(c)
    ensures c != ';' && !IsSpace(c)
  {
  }

  /** A separator and what follows it keep a cookie sendable. */
  lemma SendableConcat(a: string, sep: string, b: string)
    requires ';' !in a && a != "" && !IsSpace(a[0]) && |sep| == 1 && AllFit(sep) && AllFit(b)
    ensures IsSendable(a + sep + b) && (a + sep + b)[0] == a[0]
  {
    var s := a + sep + b;
    assert s[|s| - 1] == if b == "" then sep[0] else b[|b| - 1];
  }

  lemma UnspacedTrims(s: string)
    requires Unspaced(s)
    ensures Trim(s) == s && Trim(" " + s) == s
  {
    TrimIgnoresLeadingSpace(" ", s);
  }

  /** The header a browser sends is read as the cookies it was made of. */
  lemma {:induction false} SentCookiesAreRead(cookies: seq<string>)
    requires cookies != [] && forall p :: 0 <= p < |cookies| ==> IsSendable(cookies[p])
    ensures Cookies(Join(cookies, "; ")) == cookies
  {
    assert [';'] + " " == "; ";
    SplitJoinPadded(cookies, ';', " ");
    TrimmedParts(Split(Join(cookies, "; "), ';'), cookies);
  }

  lemma TrimmedParts(parts: seq<string>, cookies: seq<string>)
    requires cookies != [] && parts == [cookies[0]] + Padded(" ", cookies[1..])
    requires forall p :: 0 <= p < |cookies| ==> IsSendable(cookies[p])
    ensures seq(|parts|, i requires 0 <= i < |parts| => Trim(parts[i])) == cookies
  {
    forall p | 0 <= p < |cookies|
      ensures Trim(parts[p]) == cookies[p]
    {
      UnspacedTrims(cookies[p]);
      assert p > 0 ==> parts[p] == " " + cookies[p];
    }
  }

  /** From the token's chunks to the header and back. */
  lemma {:induction false} TokenRoundTrip(cookies: seq<string>, chunks: seq<string>, r: Extraction)
    requires chunks != [] && Delivers(cookies, chunks)
    requires forall p :: 0 <= p < |cookies| && Unrelated(cookies[p]) ==> IsSendable(cookies[p])
    ensures Yields(Join(cookies, "; "), r) <==> r == Text(Some(ConcatAll(chunks)))
  {
    forall p | 0 <= p < |cookies|
      ensures IsSendable(cookies[p])
    {
      if CarriesOne(cookies[p], chunks) {
        var i :| 0 <= i < |chunks| && Carries(cookies[p], chunks[i], i);
        CarrierIsSendable(cookies[p], chunks[i], i);
      }
    }
    assert Carried(cookies, chunks[0], 0);
    SentCookiesAreRead(cookies);
    ChunksAreReassembled(Join(cookies, "; "), chunks, r);
  }
}
