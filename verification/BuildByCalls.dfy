/**
  When a build succeeds, read off the calls made on the builder: which of their
  configurations is refused and which of their registrations the container has already.
 */
module BuildByCalls {
  import opened Wrappers
  import opened Tokens
  import opened ContainerHistory
  import opened ContainerGuarantees
  import opened Bootstrap
  import opened BootstrapOrder
  import opened BootstrapSuccess
  import opened BuilderCalls
  import opened BuiltContainer

  /** What is in force is accepted, and the HTTP core was asked for once at most, with a token. */
  ghost predicate AcceptableCalls(calls: seq<Call>) {
    && (forall i: nat :: LastToSet(calls, i, CacheSetting) ==>
      calls[i].cache.value.inMemory || calls[i].cache.value.redis)
    && (forall i: nat :: FirstAuth(calls, i) ==> calls[i].auth.accepted)
    && (forall i: nat :: LastToSet(calls, i, MiddlewareSetting) ==>
      && !(calls[i].middleware.withCredentials && calls[i].middleware.wildcardOrigin)
      && (calls[i].middleware.rateLimited ==> calls[i].middleware.numbersValid))
    && (forall i: nat :: LastToSet(calls, i, PipelineSetting) ==> calls[i].pipeline.value.numbersValid)
    && (forall i: nat :: LastToSet(calls, i, TokenSetting) ==> calls[i].token.Some?)
    && HttpCores(calls) <= 1
  }

  /** Neither a promised service nor anything user code registers is among `taken`. */
  ghost predicate NothingTaken(calls: seq<Call>, taken: set<Token>) {
    && (forall s :: s != ConfigurationService && Promised(calls, s) ==> Framework(s) !in taken)
    && (forall i: nat :: LastToSet(calls, i, TokenSetting) && calls[i].token.Some? ==> calls[i].token.value !in taken)
    && (forall c, k :: c in calls && (c.AddModule? || c.AddServices?) && 0 <= k < |c.script| ==>
      c.script[k].0 !in taken)
  }

  lemma {:induction false} CacheIsInForce(calls: seq<Call>, i: nat)
    requires LastToSet(calls, i, CacheSetting)
    ensures calls[i].cache == Some(After(calls).cache) && Queued(After(calls), CacheModule)
  {
    LastSettingIsInForce(calls, i);
    AskedByMember(calls, CacheModule, calls[i]);
  }

  lemma {:induction false} TokenIsInForce(calls: seq<Call>, i: nat)
    requires LastToSet(calls, i, TokenSetting)
    ensures calls[i].token == After(calls).httpToken && Queued(After(calls), HttpCoreModule)
  {
    LastSettingIsInForce(calls, i);
    AskedByMember(calls, HttpCoreModule, calls[i]);
  }

  ghost predicate AllQueuedAccept(b: Builder) {
    forall m :: m in b.modules ==> Accepts(b, m)
  }

  lemma {:induction false} OnlyAcceptable(calls: seq<Call>)
    requires AllQueuedAccept(After(calls)) && HttpCores(calls) <= 1
    ensures AcceptableCalls(calls)
  {
    forall i: nat
      ensures LastToSet(calls, i, CacheSetting) ==>
        calls[i].cache == Some(After(calls).cache) && Accepts(After(calls), CacheModule)
      ensures LastToSet(calls, i, TokenSetting) ==>
        calls[i].token == After(calls).httpToken && Accepts(After(calls), HttpCoreModule)
      ensures LastToSet(calls, i, MiddlewareSetting) ==>
        calls[i].middleware == After(calls).middleware && Accepts(After(calls), MiddlewareModule)
      ensures LastToSet(calls, i, PipelineSetting) ==>
        calls[i].pipeline == Some(After(calls).pipeline) && Accepts(After(calls), CqrsModule)
      ensures FirstAuth(calls, i) ==> calls[i].auth == After(calls).auth && Accepts(After(calls), AuthModule)
    {
      SettingIsInForce(calls, i);
      if LastToSet(calls, i, CacheSetting) {
        CacheIsInForce(calls, i);
      }
      if LastToSet(calls, i, TokenSetting) {
        TokenIsInForce(calls, i);
      }
    }
  }

  lemma {:induction false} FirstAuthExists(calls: seq<Call>, i: nat) returns (j: nat)
    requires i < |calls| && calls[i].AddAuth?
    ensures FirstAuth(calls, j)
    decreases i
  {
    if k :| 0 <= k < i && calls[k].AddAuth? {
      j := FirstAuthExists(calls, k);
    } else {
      j := i;
    }
  }

  /** What a queued module is configured with comes from a call, or is an accepted default. */
  lemma {:induction false} AcceptableIsAccepted(calls: seq<Call>, m: Module)
    requires AcceptableCalls(calls) && Queued(After(calls), m)
    ensures Accepts(After(calls), m)
  {
    LastSettingIsInForce(calls, 0);
    if m != ContextModule {
      QueuedIffAskedFor(calls, m);
      var i :| 0 <= i < |calls| && AsksFor(calls[i], m);
      if m == AuthModule {
        var j := FirstAuthExists(calls, i);
        FirstAuthIsInForce(calls, j);
      } else {
        SettingIsAccepted(calls, m, i);
      }
    }
  }

  lemma {:induction false} SettingIsAccepted(calls: seq<Call>, m: Module, i: nat)
    requires AcceptableCalls(calls) && i < |calls| && AsksFor(calls[i], m) && m != AuthModule
    ensures Accepts(After(calls), m)
  {
    LastSettingIsInForce(calls, 0);
    var k := match m
      case CacheModule => CacheSetting
      case MiddlewareModule => MiddlewareSetting
      case CqrsModule => PipelineSetting
      case _ => TokenSetting;
    if SetFrom(calls, 0, k) {
      var j := LastExists(calls, 0, k);
      LastSettingIsInForce(calls, j);
    }
  }

  lemma {:induction false} AcceptedIffAcceptable(calls: seq<Call>)
    ensures AllQueuedAccept(After(calls)) && HttpCores(calls) <= 1 <==> AcceptableCalls(calls)
  {
    if AcceptableCalls(calls) {
      forall m | m in After(calls).modules
        ensures Accepts(After(calls), m)
      {
        AcceptableIsAccepted(calls, m);
      }
    }
    if AllQueuedAccept(After(calls)) && HttpCores(calls) <= 1 {
      OnlyAcceptable(calls);
    }
  }

  // ---- Registrations that clash -----------------------------------------------------

  lemma RegistersInModule(b: Builder, m: Module, k: nat)
    requires k < |Commands(b, m)| && Commands(b, m)[k].Reg?
    ensures Commands(b, m)[k].token in Registered(Commands(b, m))
  {
    assert Commands(b, m)[k] in Commands(b, m);
  }

  lemma {:induction false} PromisedIsInQueue(calls: seq<Call>, s: Service)
    requires s != ConfigurationService && Promised(calls, s)
    ensures exists m :: m in After(calls).modules && Framework(s) in Registered(Commands(After(calls), m))
  {
    var b := After(calls);
    var (m, k) := Home(b, s);
    ConfigurationsAreInForce(calls);
    HomeIsQueued(calls, s);
    HomeAdds(b, s);
    RegistersInModule(b, m, k);
  }

  lemma {:induction false} ScriptIsInQueue(calls: seq<Call>, c: Call, k: nat)
    requires c in calls && (c.AddModule? || c.AddServices?) && k < |c.script|
    ensures exists m :: m in After(calls).modules && c.script[k].0 in Registered(Commands(After(calls), m))
  {
    var m := if c.AddModule? then UserModule(c.script) else ServicesModule(c.script);
    AskedByMember(calls, m, c);
    assert Commands(After(calls), m)[k] == Reg(c.script[k].0, c.script[k].1);
    RegistersInModule(After(calls), m, k);
  }

  lemma {:induction false} TokenIsInQueue(calls: seq<Call>, i: nat)
    requires LastToSet(calls, i, TokenSetting) && calls[i].token.Some?
    ensures exists m ::
      m in After(calls).modules && calls[i].token.value in Registered(Commands(After(calls), m))
  {
    TokenIsInForce(calls, i);
    assert Commands(After(calls), HttpCoreModule)[0] == Reg(calls[i].token.value, SingletonOver([]));
    RegistersInModule(After(calls), HttpCoreModule, 0);
  }

  /** Everything a queued module registers is promised, the HTTP client's token, or user code's. */
  lemma {:induction false} QueuedIsAccountedFor(calls: seq<Call>, m: Module, t: Token, taken: set<Token>)
    requires Considerate(After(calls)) && NothingTaken(calls, taken)
    requires Queued(After(calls), m) && t in Registered(Commands(After(calls), m))
    ensures t !in taken
  {
    var b := After(calls);
    if IsUser(m) {
      ScriptOfModule(calls, m, t, taken);
    } else {
      QueueIsAlwaysWellFormed(calls);
      RegisteredAtHome(b, m, t);
      if t.Framework? {
        RegisteredIsPromised(calls, m, t.service);
      } else {
        TokenOfCore(calls, t, taken);
      }
    }
  }

  lemma {:induction false} ScriptOfModule(calls: seq<Call>, m: Module, t: Token, taken: set<Token>)
    requires NothingTaken(calls, taken) && IsUser(m)
    requires Queued(After(calls), m) && t in Registered(Commands(After(calls), m))
    ensures t !in taken
  {
    QueuedIffAskedFor(calls, m);
    var i :| 0 <= i < |calls| && AsksFor(calls[i], m);
    var cmds := Commands(After(calls), m);
    var cmd :| cmd in cmds && cmd.Reg? && cmd.token == t;
    var k :| 0 <= k < |cmds| && cmds[k] == cmd;
    assert calls[i] in calls && calls[i].script[k].0 == t;
  }

  lemma {:induction false} TokenOfCore(calls: seq<Call>, t: Token, taken: set<Token>)
    requires NothingTaken(calls, taken) && After(calls).httpToken == Some(t)
    ensures t !in taken
  {
    LastSettingIsInForce(calls, 0);
    var i := LastExists(calls, 0, TokenSetting);
    LastSettingIsInForce(calls, i);
  }

  lemma {:induction false} KeepsOffIffNothingTaken(calls: seq<Call>, taken: set<Token>)
    requires Considerate(After(calls))
    ensures KeepsOff(After(calls), taken) <==> NothingTaken(calls, taken)
  {
    var b := After(calls);
    if NothingTaken(calls, taken) {
      forall m, t | m in b.modules && t in Registered(Commands(b, m))
        ensures t !in taken
      {
        QueuedIsAccountedFor(calls, m, t, taken);
      }
    }
    if KeepsOff(b, taken) {
      forall s | s != ConfigurationService && Promised(calls, s)
        ensures Framework(s) !in taken
      {
        PromisedIsInQueue(calls, s);
      }
      forall i: nat | LastToSet(calls, i, TokenSetting) && calls[i].token.Some?
        ensures calls[i].token.value !in taken
      {
        TokenIsInQueue(calls, i);
      }
      forall c, k | c in calls && (c.AddModule? || c.AddServices?) && 0 <= k < |c.script|
        ensures c.script[k].0 !in taken
      {
        ScriptIsInQueue(calls, c, k);
      }
    }
  }

  /**
    With user code that keeps to its own tokens, a build succeeds exactly if the configurations
    in force are acceptable and the container has nothing yet of what the calls bring.
   */
  lemma {:induction false} BuildSucceedsByTheCalls(start: seq<Op>, calls: seq<Call>)
    requires Prepared(start) && Considerate(After(calls))
    ensures BuildAttempt(start, After(calls)).1.Built? <==>
      AcceptableCalls(calls) && NothingTaken(calls, Run(start).regs.Keys)
  {
    BuildSucceedsExactly(start, calls);
    HttpCoresAreQueued(calls);
    AcceptedIffAcceptable(calls);
    KeepsOffIffNothingTaken(calls, Run(start).regs.Keys);
  }

  // ---- What a failing build reports ---------------------------------------------------

  /** The verdict names something that really is wrong with the commands. */
  ghost predicate IsTrueOf(verdict: Verdict, cmds: seq<Command>, h: History) {
    match verdict
    case Done => true
    case Duplicate(t) => t in Registered(cmds) && t in h.regs
    case Unresolved(t) => Resolve(t) in cmds
    case BadConfig => Check(false) in cmds
  }

  lemma {:induction false} ExecTellsTheTruth(ops: seq<Op>, cmds: seq<Command>)
    ensures var (ops', verdict) := Exec(ops, cmds); IsTrueOf(verdict, cmds, Run(ops'))
    decreases |cmds|
  {
    if cmds != [] {
      assert cmds[0] in cmds && forall c :: c in cmds[1..] ==> c in cmds;
      match cmds[0]
      case Reg(t, r) =>
        RunExtends(ops, Register(t, r));
        if t !in Run(ops).regs {
          ExecTellsTheTruth(ops + [Register(t, r)], cmds[1..]);
        }
      case Resolve(t) =>
        if RootOutcome(Run(ops).regs, Run(ops).w, t).1.Resolved? {
          ExecTellsTheTruth(ops + [ResolveRoot(t)], cmds[1..]);
        }
      case Check(ok) =>
        if ok {
          ExecTellsTheTruth(ops, cmds[1..]);
        }
      case Skip => ExecTellsTheTruth(ops, cmds[1..]);
    }
  }

  lemma {:induction false} ModulesTellTheTruth(b: Builder, ops: seq<Op>, ms: seq<Module>)
    ensures var (ops', build) := ExecModules(b, ops, ms);
      build.FailedAt? ==>
        && build.module_ in ms && !build.verdict.Done?
        && IsTrueOf(build.verdict, Commands(b, build.module_), Run(ops'))
    decreases |ms|
  {
    if ms != [] {
      ExecTellsTheTruth(ops, Commands(b, ms[0]));
      var (ops1, verdict) := Exec(ops, Commands(b, ms[0]));
      if verdict.Done? {
        ModulesTellTheTruth(b, ops1, ms[1..]);
      }
    }
  }

  /**
    A build that fails names a queued module and what is wrong with it: its configuration is
    not acceptable, or it registers a token that is registered by then.
   */
  lemma {:induction false} FailureIsTrue(start: seq<Op>, calls: seq<Call>)
    requires Prepared(start) && BuildAttempt(start, After(calls)).1.FailedAt?
    ensures var b := After(calls);
      var (ops, build) := BuildAttempt(start, b);
      && Queued(b, build.module_)
      && match build.verdict
         case BadConfig => !Accepts(b, build.module_)
         case Duplicate(t) => t in Registered(Commands(b, build.module_)) && t in Run(ops).regs
         case _ => false
  {
    var b := After(calls);
    BuildOutcome(start, calls);
    ModulesTellTheTruth(b, start, Sort(b.modules));
    var m := BuildAttempt(start, b).1.module_;
    SortIsStable(b.modules, 0);
    SameMembers(Sort(b.modules), b.modules, m);
    ModuleAccepts(b, m);
  }
}
