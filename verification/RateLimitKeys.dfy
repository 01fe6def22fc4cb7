/** The keys requests are counted under: four shapes, and when two requests share one. */
module RateLimitKeys {
  import opened Wrappers
  import opened Strings

  datatype Caller = Caller(tenantId: Option<string>, userId: Option<string>, clientIp: Option<string>)

  /** Who is counted. */
  datatype Principal =
    | TenantUser(tenant: string, user: string)
    | TenantIp(tenant: string, ip: string)
    | User(user: string)
    | Ip(ip: string)

  predicate Given(s: Option<string>) {
    s.Some? && s.value != ""
  }

  function PrincipalOf(c: Caller): Option<Principal> {
    if Given(c.tenantId) && Given(c.userId) then Some(TenantUser(c.tenantId.value, c.userId.value))
    else if Given(c.tenantId) && Given(c.clientIp) then Some(TenantIp(c.tenantId.value, c.clientIp.value))
    else if Given(c.userId) then Some(User(c.userId.value))
    else if Given(c.clientIp) then Some(Ip(c.clientIp.value))
    else None
  }

  const PREFIX := "ratelimit:"

  function Label(p: Principal): string {
    match p
    case TenantUser(t, u) => "tenant:" + (t + (":" + ("user:" + (u + ":"))))
    case TenantIp(t, ip) => "tenant:" + (t + (":" + ("ip:" + (ip + ":"))))
    case User(u) => "user:" + (u + ":")
    case Ip(ip) => "ip:" + (ip + ":")
  }

  function BuildRateLimitKey(c: Caller, resource: string): Option<string> {
    match PrincipalOf(c)
    case None => None
    case Some(p) => Some(PREFIX + (Label(p) + resource))
  }

  /** Tenant and user ids have been parsed as GUIDs, so no colon is in them; an address can be any text. */
  predicate ParsedIds(p: Principal) {
    match p
    case TenantUser(t, u) => ':' !in t && ':' !in u
    case TenantIp(t, _) => ':' !in t
    case User(u) => ':' !in u
    case Ip(_) => true
  }

  /** `b` is `a`, a colon and the beginning of the resource `r`; `r'` is what follows its next colon. */
  predicate Continues(a: string, r: string, b: string, r': string) {
    StartsWith(b, a + ":") && r == b[|a| + 1..] + (":" + r')
  }

  predicate ByAddress(p: Principal, q: Principal) {
    (p.Ip? && q.Ip?) || (p.TenantIp? && q.TenantIp? && p.tenant == q.tenant)
  }

  /** Two addresses can be confused for resources `r` and `r'`. */
  predicate Confused(p: Principal, r: string, q: Principal, r': string) {
    ByAddress(p, q) && (Continues(p.ip, r, q.ip, r') || Continues(q.ip, r', p.ip, r))
  }

  /** Where a separator first occurs is unique. */
  lemma {:induction false} CutIsUnique(a: string, x: string, b: string, y: string, c: char)
    requires c !in a && c !in b && a + ([c] + x) == b + ([c] + y)
    ensures a == b && x == y
    decreases |a|
  {
    var s, s' := a + ([c] + x), b + ([c] + y);
    HeadIsSeparator(a, x, c);
    HeadIsSeparator(b, y, c);
    if a == "" {
      assert x == s[1..] && y == s'[1..];
    } else {
      assert s[1..] == a[1..] + ([c] + x) && s'[1..] == b[1..] + ([c] + y);
      assert s[0] == a[0] && s'[0] == b[0];
      CutIsUnique(a[1..], x, b[1..], y, c);
      assert a == [a[0]] + a[1..] && b == [b[0]] + b[1..];
    }
  }

  lemma HeadIsSeparator(a: string, x: string, c: char)
    requires c !in a
    ensures (a + ([c] + x))[0] == c <==> a == ""
  {
    if a != "" {
      assert (a + ([c] + x))[0] == a[0] && a[0] in a;
    }
  }

  lemma SameTail(head: string, x: string, y: string)
    requires head + x == head + y
    ensures x == y
  {
    assert x == (head + x)[|head|..] && y == (head + y)[|head|..];
  }

  /** Two texts followed by a colon and a resource agree only if one continues the other. */
  lemma TextsMeet(a: string, r: string, b: string, r': string)
    ensures a + (":" + r) == b + (":" + r') <==>
      (a == b && r == r') || Continues(a, r, b, r') || Continues(b, r', a, r)
  {
    if Continues(a, r, b, r') {
      Glue(a, r, b, r');
    } else if Continues(b, r', a, r) {
      Glue(b, r', a, r);
    } else if a + (":" + r) == b + (":" + r') {
      if |a| <= |b| {
        Unglue(a, r, b, r');
      } else {
        Unglue(b, r', a, r);
      }
    }
  }

  lemma Glue(a: string, r: string, b: string, r': string)
    requires Continues(a, r, b, r')
    ensures a + (":" + r) == b + (":" + r')
  {
    var rest := b[|a| + 1..];
    assert b == a + (":" + rest);
    assert b + (":" + r') == a + (":" + (rest + (":" + r')));
  }

  lemma Unglue(a: string, r: string, b: string, r': string)
    requires |a| <= |b| && a + (":" + r) == b + (":" + r')
    ensures (a == b && r == r') || Continues(a, r, b, r')
  {
    var s, s' := a + (":" + r), b + (":" + r');
    assert a == s[..|a|] && b == s'[..|b|];
    if |a| == |b| {
      assert a + (":" + r) == (a + ":") + r && b + (":" + r') == (b + ":") + r';
      SameTail(a + ":", r, r');
    } else {
      assert b[..|a| + 1] == s[..|a| + 1] == a + ":";
      assert r == s[|a| + 1..] && s'[|a| + 1..] == b[|a| + 1..] + (":" + r');
    }
  }

  function Kind(p: Principal): string {
    if p.User? || p.TenantUser? then "user:" else "ip:"
  }

  function Id(p: Principal): string {
    if p.User? || p.TenantUser? then p.user else p.ip
  }

  lemma PlainLabel(p: Principal, r: string)
    requires p.User? || p.Ip?
    ensures Label(p) + r == Kind(p) + (Id(p) + (":" + r))
  {
  }

  /** A tenant-scoped label: the tenant up to the next colon, then a label without a tenant. */
  lemma TenantLabel(p: Principal, r: string)
    requires p.TenantUser? || p.TenantIp?
    ensures Label(p) + r == "tenant:" + (p.tenant + (":" + (Label(WithoutTenant(p)) + r)))
  {
    var inner := Label(WithoutTenant(p));
    assert Label(p) == "tenant:" + (p.tenant + (":" + inner));
    Regroup("tenant:", p.tenant + (":" + inner), r);
    Regroup(p.tenant, ":" + inner, r);
    Regroup(":", inner, r);
  }

  function WithoutTenant(p: Principal): Principal {
    match p
    case TenantUser(_, u) => User(u)
    case TenantIp(_, ip) => Ip(ip)
    case _ => p
  }

  lemma PlainLabelsMeet(p: Principal, r: string, q: Principal, r': string)
    requires (p.User? || p.Ip?) && (q.User? || q.Ip?) && ParsedIds(p) && ParsedIds(q)
    ensures Label(p) + r == Label(q) + r' <==> (p == q && r == r') || Confused(p, r, q, r')
  {
    PlainLabel(p, r);
    PlainLabel(q, r');
    assert (Label(p) + r)[0] == Kind(p)[0] && (Label(q) + r')[0] == Kind(q)[0];
    TextsMeet(Id(p), r, Id(q), r');
    if Continues(Id(p), r, Id(q), r') {
      ContinuesHasColon(Id(p), r, Id(q), r');
    } else if Continues(Id(q), r', Id(p), r) {
      ContinuesHasColon(Id(q), r', Id(p), r);
    }
    if Kind(p) == Kind(q) && Label(p) + r == Label(q) + r' {
      SameTail(Kind(p), Id(p) + (":" + r), Id(q) + (":" + r'));
    }
  }

  lemma ContinuesHasColon(a: string, r: string, b: string, r': string)
    requires Continues(a, r, b, r')
    ensures ':' in b
  {
    assert (a + ":")[|a|] == ':' && b[|a|] == (a + ":")[|a|];
  }

  lemma LabelsMeet(p: Principal, r: string, q: Principal, r': string)
    requires ParsedIds(p) && ParsedIds(q)
    ensures Label(p) + r == Label(q) + r' <==> (p == q && r == r') || Confused(p, r, q, r')
  {
    assert (Label(p) + r)[0] == if p.User? then 'u' else if p.Ip? then 'i' else 't';
    assert (Label(q) + r')[0] == if q.User? then 'u' else if q.Ip? then 'i' else 't';
    if (p.User? || p.Ip?) && (q.User? || q.Ip?) {
      PlainLabelsMeet(p, r, q, r');
    } else if (p.TenantUser? || p.TenantIp?) && (q.TenantUser? || q.TenantIp?) {
      TenantLabelsMeet(p, r, q, r');
    }
  }

  lemma TenantLabelsMeet(p: Principal, r: string, q: Principal, r': string)
    requires (p.TenantUser? || p.TenantIp?) && (q.TenantUser? || q.TenantIp?) && ParsedIds(p) && ParsedIds(q)
    ensures Label(p) + r == Label(q) + r' <==> (p == q && r == r') || Confused(p, r, q, r')
  {
    TenantLabel(p, r);
    TenantLabel(q, r');
    PlainLabelsMeet(WithoutTenant(p), r, WithoutTenant(q), r');
    if Label(p) + r == Label(q) + r' {
      SameTail(
        "tenant:", p.tenant + (":" + (Label(WithoutTenant(p)) + r)),
        q.tenant + (":" + (Label(WithoutTenant(q)) + r')));
      CutIsUnique(
        p.tenant, Label(WithoutTenant(p)) + r, q.tenant, Label(WithoutTenant(q)) + r', ':');
    }
  }

  /**
    Two requests share a counter exactly if principal and resource are the same, or if both
    are counted by address and one address is the other one continued by a colon and the
    beginning of that one's resource.
   */
  lemma KeysMeet(c: Caller, r: string, c': Caller, r': string)
    requires PrincipalOf(c).Some? && ParsedIds(PrincipalOf(c).value)
    requires PrincipalOf(c').Some? && ParsedIds(PrincipalOf(c').value)
    ensures BuildRateLimitKey(c, r) == BuildRateLimitKey(c', r') <==>
      (PrincipalOf(c) == PrincipalOf(c') && r == r') || Confused(PrincipalOf(c).value, r, PrincipalOf(c').value, r')
  {
    var p, q := PrincipalOf(c).value, PrincipalOf(c').value;
    LabelsMeet(p, r, q, r');
    if BuildRateLimitKey(c, r) == BuildRateLimitKey(c', r') {
      SameTail(PREFIX, Label(p) + r, Label(q) + r');
    }
  }

  predicate Slashless(p: Principal) {
    p.TenantIp? || p.Ip? ==> '/' !in p.ip
  }

  /** With addresses that have no slash, as IPv4 and IPv6 addresses, and paths for resources, nobody is confused. */
  lemma KeysSeparate(c: Caller, r: string, c': Caller, r': string)
    requires PrincipalOf(c).Some? && ParsedIds(PrincipalOf(c).value) && Slashless(PrincipalOf(c).value)
    requires PrincipalOf(c').Some? && ParsedIds(PrincipalOf(c').value) && Slashless(PrincipalOf(c').value)
    requires StartsWith(r, "/") && StartsWith(r', "/")
    ensures BuildRateLimitKey(c, r) == BuildRateLimitKey(c', r') <==> PrincipalOf(c) == PrincipalOf(c') && r == r'
  {
    KeysMeet(c, r, c', r');
    var p, q := PrincipalOf(c).value, PrincipalOf(c').value;
    if ByAddress(p, q) {
      if Continues(p.ip, r, q.ip, r') {
        PathsNeedSlashes(p.ip, r, q.ip, r');
      } else if Continues(q.ip, r', p.ip, r) {
        PathsNeedSlashes(q.ip, r', p.ip, r);
      }
    }
  }

  lemma PathsNeedSlashes(a: string, r: string, b: string, r': string)
    requires StartsWith(r, "/") && Continues(a, r, b, r')
    ensures StartsWith(b, a + ":/") && '/' in b
  {
    var rest := b[|a| + 1..];
    assert (rest + (":" + r'))[0] == '/';
    assert rest != "" && rest[0] == r[0] == '/';
    assert b[|a| + 1] == '/' && b[..|a| + 1] == a + ":";
    assert b[..|a| + 2] == a + ":/";
  }

  /** The key as it is written out. */
  function Text(p: Principal, r: string): string {
    match p
    case TenantUser(t, u) => "ratelimit:tenant:" + t + ":user:" + u + ":" + r
    case TenantIp(t, ip) => "ratelimit:tenant:" + t + ":ip:" + ip + ":" + r
    case User(u) => "ratelimit:user:" + u + ":" + r
    case Ip(ip) => "ratelimit:ip:" + ip + ":" + r
  }

  lemma PrincipalText(c: Caller, r: string)
    requires PrincipalOf(c).Some?
    ensures BuildRateLimitKey(c, r) == Some(Text(PrincipalOf(c).value, r))
  {
    assert PREFIX + "user:" == "ratelimit:user:" && PREFIX + "ip:" == "ratelimit:ip:";
    assert ":" + "user:" == ":user:" && ":" + "ip:" == ":ip:";
    match PrincipalOf(c).value
    case TenantUser(t, u) => TenantText(t, "user:", u, r);
    case TenantIp(t, ip) => TenantText(t, "ip:", ip, r);
    case User(u) => PlainText("user:", u, r);
    case Ip(ip) => PlainText("ip:", ip, r);
  }

  predicate Present(s: Option<string>) {
    s != None && s != Some("")
  }

  /**
    The key in terms of the caller: the user goes before the address, a tenant in front of
    either, and without user and address there is no key.
   */
  lemma KeyText(c: Caller, r: string)
    ensures var key := BuildRateLimitKey(c, r);
      && (Present(c.userId) && Present(c.tenantId) ==>
        key == Some("ratelimit:tenant:" + c.tenantId.value + ":user:" + c.userId.value + ":" + r))
      && (Present(c.userId) && !Present(c.tenantId) ==>
        key == Some("ratelimit:user:" + c.userId.value + ":" + r))
      && (!Present(c.userId) && Present(c.clientIp) && Present(c.tenantId) ==>
        key == Some("ratelimit:tenant:" + c.tenantId.value + ":ip:" + c.clientIp.value + ":" + r))
      && (!Present(c.userId) && Present(c.clientIp) && !Present(c.tenantId) ==>
        key == Some("ratelimit:ip:" + c.clientIp.value + ":" + r))
      && (!Present(c.userId) && !Present(c.clientIp) ==> key == None)
  {
    if PrincipalOf(c).Some? {
      PrincipalText(c, r);
    }
  }

  lemma PlainText(kind: string, id: string, r: string)
    ensures PREFIX + ((kind + (id + ":")) + r) == (PREFIX + kind) + id + ":" + r
  {
  }

  lemma TenantText(t: string, kind: string, id: string, r: string)
    ensures PREFIX + (("tenant:" + (t + (":" + (kind + (id + ":"))))) + r) ==
      "ratelimit:tenant:" + t + (":" + kind) + id + ":" + r
  {
    assert "ratelimit:tenant:" == PREFIX + "tenant:";
  }

  /** Nobody is counted without an identity or an address. */
  lemma NoKeyIff(c: Caller, r: string)
    ensures BuildRateLimitKey(c, r).None? <==> !Present(c.userId) && !Present(c.clientIp)
  {
  }

  ghost predicate CountedTogether(p: Principal, r: string, q: Principal, r': string) {
    StartsWith(r, "/") && StartsWith(r', "/") && Label(p) + r == Label(q) + r'
  }

  /**
    Two different callers of the same shape are counted together for some paths exactly if
    they are counted by address, under the same tenant if any, and one address continues
    the other by a colon and a slash.
   */
  lemma AddressesCollide(p: Principal, q: Principal)
    requires p != q && ParsedIds(p) && ParsedIds(q)
    ensures (exists r, r' :: CountedTogether(p, r, q, r')) <==>
      ByAddress(p, q) && (StartsWith(q.ip, p.ip + ":/") || StartsWith(p.ip, q.ip + ":/"))
  {
    forall r, r' | CountedTogether(p, r, q, r')
      ensures ByAddress(p, q) && (StartsWith(q.ip, p.ip + ":/") || StartsWith(p.ip, q.ip + ":/"))
    {
      LabelsMeet(p, r, q, r');
      if Continues(p.ip, r, q.ip, r') {
        PathsNeedSlashes(p.ip, r, q.ip, r');
      } else {
        PathsNeedSlashes(q.ip, r', p.ip, r);
      }
    }
    if ByAddress(p, q) && StartsWith(q.ip, p.ip + ":/") {
      var r, r' := Confuse(p, q);
    } else if ByAddress(p, q) && StartsWith(p.ip, q.ip + ":/") {
      var r', r := Confuse(q, p);
      assert CountedTogether(p, r, q, r');
    }
  }

  lemma Confuse(p: Principal, q: Principal) returns (r: string, r': string)
    requires ParsedIds(p) && ParsedIds(q) && ByAddress(p, q) && StartsWith(q.ip, p.ip + ":/")
    ensures CountedTogether(p, r, q, r')
  {
    var rest := q.ip[|p.ip| + 1..];
    r, r' := rest + ":/", "/";
    assert q.ip[|p.ip| + 1] == (p.ip + ":/")[|p.ip| + 1];
    assert rest[0] == '/';
    assert (p.ip + ":/")[..|p.ip| + 1] == p.ip + ":";
    assert ":" + r' == ":/";
    assert Continues(p.ip, r, q.ip, r');
    LabelsMeet(p, r, q, r');
  }

  /** An address taken from a header as it is: two callers, two paths and one counter. */
  lemma ForwardedAddressCollides()
    ensures BuildRateLimitKey(Caller(None, None, Some("1.2.3.4")), "/a:/") ==
      BuildRateLimitKey(Caller(None, None, Some("1.2.3.4:/a")), "/")
  {
    var p, q := Ip("1.2.3.4"), Ip("1.2.3.4:/a");
    assert q.ip[|p.ip| + 1..] == "/a" && "/a" + (":" + "/") == "/a:/";
    assert Continues(p.ip, "/a:/", q.ip, "/");
    LabelsMeet(p, "/a:/", q, "/");
  }
}
