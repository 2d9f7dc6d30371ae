/** Bindable.hpp: the Bindable interface (Bind, Unbind and IsBound over one
    parameter list) and the scoped BindGuard that binds on construction and
    unbinds with the same parameters on destruction. */
module Binding {
  import opened Gl
  import ProgramBinding

  /** A bindable object over state S with parameters P. Unbind may demand
      something of the state (the program stack's must be non-empty). */
  datatype Bindable<!S, !P> = Bindable(
    bind: (S, P) -> Step<S>,
    unbind: (S, P) --> Step<S>,
    isBound: (S, P) -> bool)

  /** The guard holds the bindable and the parameters, nothing else. */
  datatype BindGuard<!S, !P> = BindGuard(bindable: Bindable<S, P>, params: P)

  /** BindGuard::BindGuard: store the parameters and bind once with them. */
  function Construct<S, P>(b: Bindable<S, P>, s: S, params: P): (r: (BindGuard<S, P>, Step<S>))
    ensures r.0.params == params && r.0.bindable == b
    ensures r.1 == b.bind(s, params)
  {
    (BindGuard(b, params), b.bind(s, params))
  }

  /** How the end of a guard's life goes. ~BindGuard has no exception
      specification, so it is implicitly noexcept: an exception escaping its
      Unbind calls std::terminate instead of propagating. */
  datatype Exit<S> =
    | Leaves(step: Step<S>)
    | Terminates(state: S, calls: seq<Call>)

  /** BindGuard::~BindGuard: unbind once with the stored parameters; a
      throwing unbind terminates the program. */
  function Destruct<S, P>(g: BindGuard<S, P>, s: S): (r: Exit<S>)
    requires g.bindable.unbind.requires(s, g.params)
    ensures var left := g.bindable.unbind(s, g.params);
            && (r.Leaves? <==> left.status == Ok)
            && (r.Leaves? ==> r.step == left)
            && (r.Terminates? ==> r.state == left.state && r.calls == left.calls)
  {
    var left := g.bindable.unbind(s, g.params);
    if left.status == Ok then Leaves(left) else Terminates(left.state, left.calls)
  }

  /** A guarded scope: construct the guard, run the body, destroy the guard.
      If binding throws the guard never existed and nothing is unbound. If
      the body throws, the guard is still destroyed while the exception
      unwinds, and the exception then leaves the scope. An unbind that
      throws terminates the program, whether or not the body threw. */
  function Scope<S, P>(b: Bindable<S, P>, s: S, params: P, body: S -> Step<S>): (r: Exit<S>)
    requires b.bind(s, params).status == Ok ==>
               b.unbind.requires(body(b.bind(s, params).state).state, params)
    ensures b.bind(s, params).status != Ok ==> r == Leaves(b.bind(s, params))
    ensures b.bind(s, params).status == Ok ==>
              var entered := b.bind(s, params);
              var inner := body(entered.state);
              var left := b.unbind(inner.state, params);
              var calls := entered.calls + inner.calls + left.calls;
              && (r.Terminates? <==> left.status != Ok)
              && (r.Terminates? ==> r == Terminates(left.state, calls))
              && (r.Leaves? ==> r.step == Step(left.state, calls, inner.status))
  {
    var (guard, entered) := Construct(b, s, params);
    if entered.status != Ok then Leaves(entered)
    else
      var inner := body(entered.state);
      match Destruct(guard, inner.state)
      case Leaves(left) => Leaves(Step(left.state, entered.calls + inner.calls + left.calls, inner.status))
      case Terminates(state, calls) => Terminates(state, entered.calls + inner.calls + calls)
  }

  /** Unbind undoes bind from state s, and neither of them throws. */
  ghost predicate UnbindUndoesBind<S(!new), P>(b: Bindable<S, P>, s: S, params: P) {
    var entered := b.bind(s, params);
    entered.status == Ok
    && b.unbind.requires(entered.state, params)
    && b.unbind(entered.state, params).status == Ok
    && b.unbind(entered.state, params).state == s
  }

  /** For a bindable whose unbind undoes its bind, a guarded scope whose body
      leaves the state as it found it leaves normally, with the state as the
      guard found it and the body's status. */
  lemma ScopeRestores<S(!new), P>(b: Bindable<S, P>, s: S, params: P, body: S -> Step<S>)
    requires UnbindUndoesBind(b, s, params)
    requires body(b.bind(s, params).state).state == b.bind(s, params).state
    ensures var r := Scope(b, s, params, body);
            r.Leaves? && r.step.state == s && r.step.status == body(b.bind(s, params).state).status
  {
  }

  /** A program as a bindable over the program bind stack: bind pushes it,
      unbind runs program::unbind, is_bound searches the stack. */
  function ProgramBindable(idOf: ProgramBinding.ProgramRef -> Handle)
    : (b: Bindable<ProgramBinding.BindStack, ProgramBinding.ProgramRef>)
    ensures forall stack, p :: b.bind(stack, p) == ProgramBinding.Bind(stack, p, idOf(p))
    ensures forall stack: ProgramBinding.BindStack, p | |stack| > 0 ::
              b.unbind.requires(stack, p) && b.unbind(stack, p) == ProgramBinding.Unbind(stack, p, idOf)
  {
    Bindable(
      (stack, p) => ProgramBinding.Bind(stack, p, idOf(p)),
      (stack: ProgramBinding.BindStack, p) requires |stack| > 0 => ProgramBinding.Unbind(stack, p, idOf),
      (stack, p) => ProgramBinding.IsBound(stack, p))
  }

  /** On the program stack unbind always undoes bind. */
  lemma ProgramUnbindUndoesBind(idOf: ProgramBinding.ProgramRef -> Handle,
                                stack: ProgramBinding.BindStack, p: ProgramBinding.ProgramRef)
    ensures UnbindUndoesBind(ProgramBindable(idOf), stack, p)
  {
    ProgramBinding.BindUnbindRoundTrip(stack, p, idOf);
  }

  /** A guarded program scope around a body that is itself balanced: the
      stack ends as it began, the guarded program was active inside, and the
      last call re-activates the program that was on top before (or 0). */
  lemma ProgramScopeRestoresTop(idOf: ProgramBinding.ProgramRef -> Handle, stack: ProgramBinding.BindStack,
                                p: ProgramBinding.ProgramRef, body: ProgramBinding.BindStack -> Step<ProgramBinding.BindStack>)
    requires body(stack + [p]).state == stack + [p]
    ensures var r := Scope(ProgramBindable(idOf), stack, p, body);
            && r.Leaves?
            && r.step.state == stack
            && |r.step.calls| >= 2
            && r.step.calls[0] == UseProgram(idOf(p))
            && r.step.calls[|r.step.calls| - 1] == UseProgram(ProgramBinding.ActiveHandle(stack, idOf))
  {
    var b := ProgramBindable(idOf);
    ProgramUnbindUndoesBind(idOf, stack, p);
    ScopeRestores(b, stack, p, body);
    ProgramBinding.BindUnbindRoundTrip(stack, p, idOf);
  }

  /** A scope body that unbinds program p (and does nothing on an empty
      stack). */
  function UnbindingBody(idOf: ProgramBinding.ProgramRef -> Handle, p: ProgramBinding.ProgramRef)
    : ProgramBinding.BindStack -> Step<ProgramBinding.BindStack>
  {
    (s: ProgramBinding.BindStack) => if |s| > 0 then ProgramBinding.Unbind(s, p, idOf) else Step(s, [], Ok)
  }

  /** A body that unbinds the guarded program itself leaves nothing for the
      guard to unbind when the program was not bound before: the guard's
      unbind throws inside its destructor and the program terminates. */
  lemma ProgramScopeTerminatesWhenBodyUnbinds(idOf: ProgramBinding.ProgramRef -> Handle,
                                              stack: ProgramBinding.BindStack, p: ProgramBinding.ProgramRef)
    requires |stack| > 0 && p !in stack
    ensures var b := ProgramBindable(idOf);
            && UnbindingBody(idOf, p)(b.bind(stack, p).state).state == stack
            && Scope(b, stack, p, UnbindingBody(idOf, p)).Terminates?
  {
    ProgramBinding.BindUnbindRoundTrip(stack, p, idOf);
    assert !ProgramBinding.IsBound(stack, p);
  }
}
