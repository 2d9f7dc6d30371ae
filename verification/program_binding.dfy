/** The global program bind stack of program.cpp (PROGRAM_BIND_STACK): a
    LIFO sequence of programs whose last element is the active program.
    Entries are program identities (the shared pointers compare by
    identity); the handle of a program is looked up when it is activated. */
module ProgramBinding {
  import opened Gl

  /** Identity of a program object. */
  type ProgramRef = nat

  /** Bottom first, active program last. */
  type BindStack = seq<ProgramRef>

  function Top(stack: BindStack): ProgramRef
    requires |stack| > 0
  {
    stack[|stack| - 1]
  }

  /** The handle glUseProgram is given once the stack has changed: the new
      top's handle, or 0 when nothing is left. */
  function ActiveHandle(stack: BindStack, idOf: ProgramRef -> Handle): Handle {
    if |stack| == 0 then INVALID else idOf(Top(stack))
  }

  /** t is s with the most recent occurrence of p taken out. */
  ghost predicate RemovesLastOccurrence(s: BindStack, p: ProgramRef, t: BindStack) {
    exists k :: 0 <= k < |s| && s[k] == p && p !in s[k + 1..] && t == s[..k] + s[k + 1..]
  }

  /** program::bind: push the program, with no check for a duplicate, and
      make it the active program. */
  function Bind(stack: BindStack, p: ProgramRef, id: Handle): (r: Step<BindStack>)
    ensures r.status == Ok
    ensures |r.state| == |stack| + 1 && r.state[..|stack|] == stack
    ensures IsCurrentlyBound(r.state, p)
    ensures multiset(r.state) == multiset(stack) + multiset{p}
    ensures r.calls == [UseProgram(id)]
  {
    Step(stack + [p], [UseProgram(id)], Ok)
  }

  /** program::unbind. The source reads back() before anything else, which
      is undefined on an empty stack; hence the precondition. */
  function Unbind(stack: BindStack, p: ProgramRef, idOf: ProgramRef -> Handle): (r: Step<BindStack>)
    requires |stack| > 0
    // unbinding a program that is nowhere on the stack
    ensures p !in stack <==> r.status == Thrown(ProgramNotBound)
    ensures p !in stack ==> r.state == stack && r.calls == []
    // unbinding a program that is on the stack
    ensures p in stack ==> r.status == Ok && RemovesLastOccurrence(stack, p, r.state)
    ensures p in stack ==> multiset(r.state) == multiset(stack) - multiset{p}
    // unbinding the top: pop it and re-activate the new top, or 0
    ensures Top(stack) == p ==> r.state == stack[..|stack| - 1]
    ensures Top(stack) == p ==> r.calls == [UseProgram(ActiveHandle(r.state, idOf))]
    // unbinding a buffered entry: silent, and the top stays in place
    ensures Top(stack) != p ==> r.calls == []
    ensures Top(stack) != p && p in stack ==> |r.state| > 0 && Top(r.state) == Top(stack)
  {
    if Top(stack) == p then
      var popped := stack[..|stack| - 1];
      assert stack == popped + [p];
      Step(popped, [UseProgram(ActiveHandle(popped, idOf))], Ok)
    else
      match LastIndexOf(stack, p)
      case None => Step(stack, [], Thrown(ProgramNotBound))
      case Some(k) => Step(RemoveAt(stack, k), [], Ok)
  }

  /** program::is_bound: a linear search from the bottom. */
  function IsBound(stack: BindStack, p: ProgramRef): (r: bool)
    ensures r <==> exists i :: 0 <= i < |stack| && stack[i] == p
  {
    FirstIndexOf(stack, p).Some?
  }

  /** program::is_currently_bound; back() needs a non-empty stack. The
      program is current exactly when its last occurrence is the top, and a
      current program is bound. */
  function IsCurrentlyBound(stack: BindStack, p: ProgramRef): (b: bool)
    requires |stack| > 0
    ensures b <==> LastIndexOf(stack, p) == Some(|stack| - 1)
    ensures b ==> IsBound(stack, p)
  {
    Top(stack) == p
  }

  /** Binding then unbinding the same program restores the stack and
      re-activates the program that was on top before (or 0). */
  lemma BindUnbindRoundTrip(stack: BindStack, p: ProgramRef, idOf: ProgramRef -> Handle)
    ensures Unbind(Bind(stack, p, idOf(p)).state, p, idOf)
            == Step(stack, [UseProgram(ActiveHandle(stack, idOf))], Ok)
  {
    var pushed := Bind(stack, p, idOf(p)).state;
    assert pushed[..|pushed| - 1] == stack;
  }

  /** Binding a program that is already on top pushes a second entry, so
      one unbind leaves it bound and still active, and re-issues its handle. */
  lemma DoubleBindNeedsTwoUnbinds(stack: BindStack, p: ProgramRef, idOf: ProgramRef -> Handle)
    ensures var once := Bind(stack, p, idOf(p)).state;
            var twice := Bind(once, p, idOf(p)).state;
            var r := Unbind(twice, p, idOf);
            r.state == once && IsBound(r.state, p) && IsCurrentlyBound(r.state, p)
            && r.calls == [UseProgram(idOf(p))]
  {
    var once := Bind(stack, p, idOf(p)).state;
    var twice := Bind(once, p, idOf(p)).state;
    assert twice[..|twice| - 1] == once;
    assert once[|once| - 1] == p;
  }

  /** Bind p, bind q over it, then unbind p while it is buffered: p's entry
      goes, q stays active and no glUseProgram is issued. */
  lemma UnbindBufferedUnderTop(stack: BindStack, p: ProgramRef, q: ProgramRef, idOf: ProgramRef -> Handle)
    requires p != q && p !in stack
    ensures var s := Bind(Bind(stack, p, idOf(p)).state, q, idOf(q)).state;
            var r := Unbind(s, p, idOf);
            r.status == Ok && r.calls == [] && r.state == stack + [q] && !IsBound(r.state, p)
  {
    var s := Bind(Bind(stack, p, idOf(p)).state, q, idOf(q)).state;
    assert s == stack + [p, q];
    assert s[|stack|] == p;
    assert p !in s[|stack| + 1..];
    assert LastIndexOf(s, p) == Some(|stack|);
    assert s[..|stack|] + s[|stack| + 1..] == stack + [q];
  }
}
