/**
  The registration graph of the service container: which factory resolves which
  tokens, and which tokens can be built at all.  A factory resolves its
  dependencies in order through the scope it is handed and then either throws or
  returns a fresh object.
 */
module DependencyGraph {
  import opened Tokens

  datatype Lifetime = Singleton | Scoped | Transient

  datatype Factory = Factory(deps: seq<Token>, disposable: bool, throws: bool)

  datatype Registration = Registration(lifetime: Lifetime, factory: Factory)

  type Registry = map<Token, Registration>

  ghost predicate Edge(regs: Registry, u: Token, v: Token) {
    u in regs && v in regs[u].factory.deps
  }

  /** A chain of factory-to-dependency steps. */
  ghost predicate IsPath(regs: Registry, p: seq<Token>) {
    && 0 < |p|
    && forall i, j :: 0 <= i && j == i + 1 && j < |p| ==> Edge(regs, p[i], p[j])
  }

  /** `u` is a singleton and `v` is scoped: `v` would be held captive by `u`. */
  ghost predicate Captures(regs: Registry, u: Token, v: Token) {
    u in regs && v in regs && regs[u].lifetime == Singleton && regs[v].lifetime == Scoped
  }

  ghost predicate Buildable(regs: Registry, u: Token) {
    u in regs && !regs[u].factory.throws
  }

  /** A chain without a missing or throwing registration, a repetition or a captive. */
  ghost predicate Clean(regs: Registry, p: seq<Token>) {
    && (forall i :: 0 <= i < |p| ==> Buildable(regs, p[i]))
    && (forall i, j :: 0 <= i < j < |p| ==> p[i] != p[j])
    && (forall i, j :: 0 <= i < j < |p| ==> !Captures(regs, p[i], p[j]))
  }

  /** Every dependency chain starting at `t` is clean. */
  ghost predicate WellFormed(regs: Registry, t: Token) {
    forall p :: IsPath(regs, p) && p[0] == t ==> Clean(regs, p)
  }

  lemma PathSlice(regs: Registry, p: seq<Token>, lo: nat, hi: nat)
    requires IsPath(regs, p) && lo < hi <= |p|
    ensures IsPath(regs, p[lo..hi])
  {
    forall i, j | 0 <= i && j == i + 1 && j < hi - lo
      ensures Edge(regs, p[lo..hi][i], p[lo..hi][j])
    {
      assert Edge(regs, p[lo + i], p[lo + j]);
    }
  }

  /** Registering a further token changes no chain of a well-formed token. */
  lemma {:induction false} PathSurvivesRegistration(regs: Registry, t: Token, r: Registration, p: seq<Token>)
    requires t !in regs && IsPath(regs[t := r], p) && WellFormed(regs, p[0])
    ensures IsPath(regs, p)
  {
    if |p| == 1 {
    } else {
      var q := p[..|p| - 1];
      PathSlice(regs[t := r], p, 0, |p| - 1);
      PathSurvivesRegistration(regs, t, r, q);
      assert Clean(regs, q);
      assert Buildable(regs, q[|q| - 1]);
      forall i, j | 0 <= i && j == i + 1 && j < |p|
        ensures Edge(regs, p[i], p[j])
      {
        assert Edge(regs[t := r], p[i], p[j]);
        assert p[i] == q[i] && Buildable(regs, q[i]);
      }
    }
  }

  /** What can be built stays buildable whatever is registered later. */
  lemma WellFormedIsStable(regs: Registry, t: Token, r: Registration, u: Token)
    requires t !in regs && WellFormed(regs, u)
    ensures WellFormed(regs[t := r], u)
  {
    var regs' := regs[t := r];
    forall p | IsPath(regs', p) && p[0] == u
      ensures Clean(regs', p)
    {
      PathSurvivesRegistration(regs, t, r, p);
      assert Clean(regs, p);
      assert forall i :: 0 <= i < |p| ==> Buildable(regs, p[i]);
    }
  }
}
