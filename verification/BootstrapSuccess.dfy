/**
  The exact condition under which a build attempt succeeds: which modules refuse
  their configuration, and which registrations clash.
 */
module BootstrapSuccess {
  import opened Wrappers
  import opened Tokens
  import opened ContainerHistory
  import opened Bootstrap
  import opened BootstrapOrder

  /** The configuration checks one module makes. */
  predicate Accepts(b: Builder, m: Module) {
    match m
    case CacheModule => b.cache.inMemory || b.cache.redis
    case AuthModule => b.auth.accepted
    case MiddlewareModule =>
      && !(b.middleware.withCredentials && b.middleware.wildcardOrigin)
      && (b.middleware.rateLimited ==> b.middleware.numbersValid)
    case CqrsModule => b.pipeline.numbersValid
    case HttpCoreModule => b.httpToken.Some?
    case _ => true
  }

  /**
    User code keeps to tokens of its own: no user module registers a framework token
    or one registered elsewhere, and the HTTP client's token is one nobody else uses.
   */
  ghost predicate Considerate(b: Builder) {
    && (forall m :: m in b.modules && IsUser(m) ==>
      && (forall t :: t in Registered(Commands(b, m)) ==> t.Custom? && Some(t) != b.httpToken)
      && NoneTwice({}, Commands(b, m))
      && (multiset(b.modules)[m] <= 1 || Registered(Commands(b, m)) == {}))
    && (forall m, n :: m in b.modules && n in b.modules && IsUser(m) && IsUser(n) && m != n ==>
      Registered(Commands(b, m)) !! Registered(Commands(b, n)))
    && (b.httpToken.Some? ==> b.httpToken.value.Custom?)
  }

  predicate IsUser(m: Module) {
    m.UserModule? || m.ServicesModule?
  }

  lemma {:induction false} AcceptedIff(cmds: seq<Command>)
    ensures AllAccepted(cmds) <==> Check(false) !in cmds
    decreases |cmds|
  {
    if cmds != [] {
      AcceptedIff(cmds[1..]);
    }
  }

  lemma ModuleAccepts(b: Builder, m: Module)
    ensures Check(false) !in Commands(b, m) <==> Accepts(b, m)
  {
    var cmds := Commands(b, m);
    match m
    case MiddlewareModule => assert cmds[6] in cmds && cmds[8] in cmds;
    case CqrsModule => assert cmds[2] in cmds;
    case AuthModule => assert cmds[2] in cmds;
    case CacheModule => assert cmds[0] in cmds;
    case HttpCoreModule => assert cmds[0] in cmds;
    case _ =>
  }

  lemma {:induction false} AllAccept(b: Builder, ms: seq<Module>)
    ensures AllAccepted(All(b, ms)) <==> forall m :: m in ms ==> Accepts(b, m)
    decreases |ms|
  {
    AcceptedIff(All(b, ms));
    if ms != [] {
      AllAccept(b, ms[1..]);
      AcceptedIff(All(b, ms[1..]));
      ModuleAccepts(b, ms[0]);
    }
  }

  lemma {:induction false} NoneTwiceSplits(taken: set<Token>, a: seq<Command>, c: seq<Command>)
    ensures NoneTwice(taken, a + c) <==> NoneTwice(taken, a) && NoneTwice(taken + Registered(a), c)
    decreases |a|
  {
    if a == [] {
      assert a + c == c && taken + Registered(a) == taken;
    } else {
      assert (a + c)[1..] == a[1..] + c;
      assert Registered(a) == Registered(a[1..]) + (if a[0].Reg? then {a[0].token} else {});
      if a[0].Reg? {
        NoneTwiceSplits(taken + {a[0].token}, a[1..], c);
        assert taken + {a[0].token} + Registered(a[1..]) == taken + Registered(a);
      } else {
        NoneTwiceSplits(taken, a[1..], c);
        assert taken + Registered(a[1..]) == taken + Registered(a);
      }
    }
  }

  lemma {:induction false} NoneTwiceFrom(taken: set<Token>, a: seq<Command>)
    ensures NoneTwice(taken, a) <==> NoneTwice({}, a) && Registered(a) !! taken
    decreases |a|
  {
    if a != [] {
      assert Registered(a) == Registered(a[1..]) + (if a[0].Reg? then {a[0].token} else {});
      if a[0].Reg? {
        NoneTwiceFrom(taken + {a[0].token}, a[1..]);
        NoneTwiceFrom({} + {a[0].token}, a[1..]);
      } else {
        NoneTwiceFrom(taken, a[1..]);
      }
    }
  }

  ghost predicate Separate(b: Builder, taken: set<Token>, ms: seq<Module>) {
    && (forall i :: 0 <= i < |ms| ==> NoneTwice({}, Commands(b, ms[i])) && Registered(Commands(b, ms[i])) !! taken)
    && (forall i, j :: 0 <= i < j < |ms| ==> Registered(Commands(b, ms[i])) !! Registered(Commands(b, ms[j])))
  }

  lemma SeparateCons(b: Builder, taken: set<Token>, ms: seq<Module>)
    requires ms != []
    ensures var first := Registered(Commands(b, ms[0]));
      Separate(b, taken, ms) <==>
        NoneTwice({}, Commands(b, ms[0])) && first !! taken && Separate(b, taken + first, ms[1..])
  {
    var rest := ms[1..];
    var first := Registered(Commands(b, ms[0]));
    assert forall i :: 0 <= i < |rest| ==> rest[i] == ms[i + 1];
    if NoneTwice({}, Commands(b, ms[0])) && first !! taken && Separate(b, taken + first, rest) {
      forall i | 0 <= i < |ms|
        ensures NoneTwice({}, Commands(b, ms[i])) && Registered(Commands(b, ms[i])) !! taken
        ensures forall j :: i < j < |ms| ==> Registered(Commands(b, ms[i])) !! Registered(Commands(b, ms[j]))
      {
        assert i > 0 ==> ms[i] == rest[i - 1];
        forall j | i < j < |ms|
          ensures Registered(Commands(b, ms[i])) !! Registered(Commands(b, ms[j]))
        {
          assert ms[j] == rest[j - 1];
        }
      }
    }
  }

  lemma {:induction false} NoneTwiceIffSeparate(b: Builder, taken: set<Token>, ms: seq<Module>)
    ensures NoneTwice(taken, All(b, ms)) <==> Separate(b, taken, ms)
    decreases |ms|
  {
    if ms != [] {
      var cmds := Commands(b, ms[0]);
      NoneTwiceSplits(taken, cmds, All(b, ms[1..]));
      NoneTwiceFrom(taken, cmds);
      NoneTwiceIffSeparate(b, taken + Registered(cmds), ms[1..]);
      SeparateCons(b, taken, ms);
    }
  }

  ghost predicate AtHome(b: Builder, m: Module, i: nat)
    requires i < |Commands(b, m)|
  {
    Commands(b, m)[i].Reg? ==>
      var t := Commands(b, m)[i].token;
      if m == HttpCoreModule && i == 0 then Some(t) == b.httpToken
      else t.Framework? && Home(b, t.service) == (m, i)
  }

  lemma MiddlewareIsAtHome(b: Builder, i: nat)
    requires i < |Commands(b, MiddlewareModule)|
    ensures AtHome(b, MiddlewareModule, i)
  {
  }

  lemma CqrsIsAtHome(b: Builder, i: nat)
    requires i < |Commands(b, CqrsModule)|
    ensures AtHome(b, CqrsModule, i)
  {
  }

  lemma OthersAreAtHome(b: Builder, m: Module, i: nat)
    requires !IsUser(m) && m != MiddlewareModule && m != CqrsModule
    requires (m == AdapterModule ==> Flag(b.flags, m)) && i < |Commands(b, m)|
    ensures AtHome(b, m, i)
  {
  }

  /** Every framework service is registered by its home, at its position there, and nowhere else. */
  lemma RegistersAtHome(b: Builder, m: Module, i: nat)
    requires !IsUser(m) && (m == AdapterModule ==> Flag(b.flags, m)) && i < |Commands(b, m)|
    ensures AtHome(b, m, i)
  {
    match m
    case MiddlewareModule => MiddlewareIsAtHome(b, i);
    case CqrsModule => CqrsIsAtHome(b, i);
    case _ => OthersAreAtHome(b, m, i);
  }

  /** Distinct tokens at distinct positions are registered once each. */
  lemma {:induction false} DistinctIsOnce(cmds: seq<Command>)
    requires forall i, j :: 0 <= i < j < |cmds| && cmds[i].Reg? && cmds[j].Reg? ==> cmds[i].token != cmds[j].token
    ensures NoneTwice({}, cmds)
    decreases |cmds|
  {
    if cmds != [] {
      DistinctIsOnce(cmds[1..]);
      if cmds[0].Reg? {
        NoneTwiceFrom({} + {cmds[0].token}, cmds[1..]);
      }
    }
  }

  lemma TwiceInList(ms: seq<Module>, i: nat, j: nat)
    requires i < j < |ms| && ms[i] == ms[j]
    ensures multiset(ms)[ms[i]] >= 2
  {
    var a, c := ms[..j], ms[j..];
    assert ms == a + c;
    assert a[i] in multiset(a) && c[0] in multiset(c);
  }

  /** What a queued framework module registers is at home there, or is the HTTP client's token. */
  lemma RegisteredAtHome(b: Builder, m: Module, t: Token)
    requires WellQueued(b.modules, b.flags) && !IsUser(m) && Queued(b, m) && t in Registered(Commands(b, m))
    requires b.httpToken.Some? ==> b.httpToken.value.Custom?
    ensures t.Framework? ==> Home(b, t.service).0 == m && Home(b, t.service).1 >= 0
    ensures t.Custom? ==> m == HttpCoreModule && b.httpToken == Some(t)
  {
    var c :| c in Commands(b, m) && c.Reg? && c.token == t;
    var i :| 0 <= i < |Commands(b, m)| && Commands(b, m)[i] == c;
    AdapterFlag(b, m);
    RegistersAtHome(b, m, i);
  }

  lemma AdapterFlag(b: Builder, m: Module)
    requires WellQueued(b.modules, b.flags) && Queued(b, m)
    ensures m == AdapterModule ==> Flag(b.flags, m)
  {
    assert m == AdapterModule ==> FlagValid(b.modules, b.flags, m);
  }

  /** Different modules of a considerate builder register different tokens. */
  lemma DifferentModulesAreDisjoint(b: Builder, m: Module, n: Module)
    requires Considerate(b) && WellQueued(b.modules, b.flags) && m in b.modules && n in b.modules && m != n
    ensures Registered(Commands(b, m)) !! Registered(Commands(b, n))
  {
    forall t | t in Registered(Commands(b, m)) && t in Registered(Commands(b, n))
      ensures false
    {
      if !IsUser(m) {
        RegisteredAtHome(b, m, t);
      }
      if !IsUser(n) {
        RegisteredAtHome(b, n, t);
      }
    }
  }

  lemma ModuleRegistersEachOnce(b: Builder, m: Module)
    requires Considerate(b) && WellQueued(b.modules, b.flags) && m in b.modules
    ensures NoneTwice({}, Commands(b, m)) && Framework(ConfigurationService) !in Registered(Commands(b, m))
  {
    if !IsUser(m) {
      var cmds := Commands(b, m);
      if Framework(ConfigurationService) in Registered(cmds) {
        RegisteredAtHome(b, m, Framework(ConfigurationService));
      }
      forall i, j | 0 <= i < j < |cmds| && cmds[i].Reg? && cmds[j].Reg?
        ensures cmds[i].token != cmds[j].token
      {
        AdapterFlag(b, m);
        RegistersAtHome(b, m, i);
        RegistersAtHome(b, m, j);
      }
      DistinctIsOnce(cmds);
    }
  }

  /** Two modules in the list register different tokens, unless both are the HTTP core. */
  lemma PairIsDisjoint(b: Builder, ms: seq<Module>, i: nat, j: nat)
    requires Considerate(b) && WellQueued(b.modules, b.flags) && multiset(ms) == multiset(b.modules)
    requires i < j < |ms| && (ms[i] == HttpCoreModule ==> ms[j] != HttpCoreModule)
    ensures Registered(Commands(b, ms[i])) !! Registered(Commands(b, ms[j]))
  {
    SameMembers(ms, b.modules, ms[i]);
    SameMembers(ms, b.modules, ms[j]);
    if ms[i] == ms[j] {
      TwiceInList(ms, i, j);
      assert Once(ms[i]) ==> FlagValid(b.modules, b.flags, ms[i]);
    } else {
      DifferentModulesAreDisjoint(b, ms[i], ms[j]);
    }
  }

  lemma SomebodyClashes(b: Builder, taken: set<Token>, ms: seq<Module>)
    requires !KeepsOff(b, taken) && multiset(ms) == multiset(b.modules)
    ensures !Separate(b, taken, ms)
  {
    var m :| m in b.modules && !(Registered(Commands(b, m)) !! taken);
    SameMembers(ms, b.modules, m);
    var i :| 0 <= i < |ms| && ms[i] == m;
  }

  lemma HttpCoreClashes(b: Builder, taken: set<Token>, ms: seq<Module>, i: nat, j: nat)
    requires i < j < |ms| && ms[i] == HttpCoreModule && ms[j] == HttpCoreModule
    ensures !Separate(b, taken, ms)
  {
    assert Add(ResilienceClient) == Commands(b, HttpCoreModule)[1];
    assert Framework(ResilienceClient) in Registered(Commands(b, ms[i]));
    assert Framework(ResilienceClient) in Registered(Commands(b, ms[j]));
  }

  /** No queued module registers a token that is taken already. */
  ghost predicate KeepsOff(b: Builder, taken: set<Token>) {
    forall m :: m in b.modules ==> Registered(Commands(b, m)) !! taken
  }

  /**
    The modules of a considerate builder are separate exactly if the HTTP core is there at
    most once and nobody registers what is taken.
   */
  lemma SeparateIffOneHttpCore(b: Builder, taken: set<Token>, ms: seq<Module>)
    requires Considerate(b) && WellQueued(b.modules, b.flags) && multiset(ms) == multiset(b.modules)
    ensures Separate(b, taken, ms) <==> multiset(ms)[HttpCoreModule] <= 1 && KeepsOff(b, taken)
  {
    if !KeepsOff(b, taken) {
      SomebodyClashes(b, taken, ms);
    } else if multiset(ms)[HttpCoreModule] <= 1 {
      forall i | 0 <= i < |ms|
        ensures NoneTwice({}, Commands(b, ms[i])) && Registered(Commands(b, ms[i])) !! taken
      {
        SameMembers(ms, b.modules, ms[i]);
        ModuleRegistersEachOnce(b, ms[i]);
      }
      forall i, j | 0 <= i < j < |ms|
        ensures Registered(Commands(b, ms[i])) !! Registered(Commands(b, ms[j]))
      {
        AtMostOneHttpCore(ms, i, j);
        PairIsDisjoint(b, ms, i, j);
      }
    } else {
      var i, j := TwoPositions(ms, HttpCoreModule);
      HttpCoreClashes(b, taken, ms, i, j);
    }
  }

  lemma AtMostOneHttpCore(ms: seq<Module>, i: nat, j: nat)
    requires i < j < |ms| && multiset(ms)[HttpCoreModule] <= 1
    ensures ms[i] == HttpCoreModule ==> ms[j] != HttpCoreModule
  {
    if ms[i] == ms[j] {
      TwiceInList(ms, i, j);
    }
  }

  lemma {:induction false} TwoPositions(ms: seq<Module>, m: Module) returns (i: nat, j: nat)
    requires multiset(ms)[m] >= 2
    ensures i < j < |ms| && ms[i] == m && ms[j] == m
  {
    assert ms == [ms[0]] + ms[1..];
    if ms[0] == m {
      assert m in multiset(ms[1..]);
      var k :| 0 <= k < |ms[1..]| && ms[1..][k] == m;
      i, j := 0, k + 1;
    } else {
      i, j := TwoPositions(ms[1..], m);
      i, j := i + 1, j + 1;
    }
  }

  /**
    With user code that keeps to its own tokens, a build attempt succeeds exactly when every
    queued module accepts its configuration, addHttpCore was called at most once, and no
    module registers a token the container has already.
   */
  lemma {:induction false} BuildSucceedsExactly(start: seq<Op>, calls: seq<Call>)
    requires Prepared(start) && Considerate(After(calls))
    ensures var b := After(calls);
      BuildAttempt(start, b).1.Built? <==>
        && (forall m :: m in b.modules ==> Accepts(b, m))
        && multiset(b.modules)[HttpCoreModule] <= 1
        && KeepsOff(b, Run(start).regs.Keys)
  {
    var b := After(calls);
    var ms := Sort(b.modules);
    BuildOutcome(start, calls);
    QueueIsAlwaysWellFormed(calls);
    SortIsStable(b.modules, 0);
    AllAccept(b, ms);
    NoneTwiceIffSeparate(b, Run(start).regs.Keys, ms);
    SeparateIffOneHttpCore(b, Run(start).regs.Keys, ms);
    forall m
      ensures m in ms <==> m in b.modules
    {
      SameMembers(ms, b.modules, m);
    }
  }

  /** On a container of its own, nothing the framework or a considerate user registers is taken. */
  lemma {:induction false} FreshContainerIsFree(calls: seq<Call>)
    requires Considerate(After(calls))
    ensures KeepsOff(After(calls), {Framework(ConfigurationService)})
  {
    QueueIsAlwaysWellFormed(calls);
    forall m | m in After(calls).modules
      ensures Registered(Commands(After(calls), m)) !! {Framework(ConfigurationService)}
    {
      ModuleRegistersEachOnce(After(calls), m);
    }
  }
}
