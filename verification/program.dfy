/** The program object of program.cpp, apart from binding: the list of
    attached shaders, linking (create) with its rollback, and destroy. */
module Programs {
  import opened Gl

  /** Identity of an attached shader object (a shared pointer). */
  type ShaderRef = nat

  datatype Program = Program(id: Handle, shaders: seq<ShaderRef>)

  /** A freshly constructed program: uncreated, no shaders. */
  function New(): (p: Program)
    ensures !IsCreated(p.id) && ShaderCount(p) == 0
  {
    Program(INVALID, [])
  }

  /** program::attach: only before the program is linked. */
  function Attach(p: Program, s: ShaderRef): (r: Step<Program>)
    ensures r.calls == []
    ensures IsCreated(p.id) ==> r == Step(p, [], Thrown(AttachAfterLink))
    ensures !IsCreated(p.id) ==> r.status == Ok && r.state.id == p.id
    ensures !IsCreated(p.id) ==> ShaderCount(r.state) == ShaderCount(p) + 1
    ensures !IsCreated(p.id) ==> GetShader(r.state, ShaderCount(p)) == Some(s)
    ensures !IsCreated(p.id) ==> forall i :: 0 <= i < ShaderCount(p) ==> GetShader(r.state, i) == GetShader(p, i)
  {
    if IsCreated(p.id) then Step(p, [], Thrown(AttachAfterLink))
    else Step(p.(shaders := p.shaders + [s]), [], Ok)
  }

  /** program::detach: only before the program is linked; erases the first
      matching shader, and does nothing when the shader is absent. */
  function Detach(p: Program, s: ShaderRef): (r: Step<Program>)
    ensures r.calls == []
    ensures IsCreated(p.id) ==> r == Step(p, [], Thrown(DetachAfterLink))
    ensures !IsCreated(p.id) ==> r.status == Ok && r.state.id == p.id
    ensures !IsCreated(p.id) && s !in p.shaders ==> r.state == p
    ensures !IsCreated(p.id) && s in p.shaders ==>
              exists k :: 0 <= k < |p.shaders| && p.shaders[k] == s && s !in p.shaders[..k]
                          && r.state.shaders == p.shaders[..k] + p.shaders[k + 1..]
    ensures !IsCreated(p.id) && s in p.shaders ==>
              multiset(r.state.shaders) == multiset(p.shaders) - multiset{s}
  {
    if IsCreated(p.id) then Step(p, [], Thrown(DetachAfterLink))
    else
      match FirstIndexOf(p.shaders, s)
      case None => Step(p, [], Ok)
      case Some(k) => Step(p.(shaders := RemoveAt(p.shaders, k)), [], Ok)
  }

  /** program::shader_count: the number of attached entries, a shader
      attached twice counting twice. */
  function ShaderCount(p: Program): (n: nat)
    ensures n == |multiset(p.shaders)|
  {
    |p.shaders|
  }

  /** program::get_shader: empty for an index past the end. */
  function GetShader(p: Program, i: nat): (r: Option<ShaderRef>)
    ensures r.None? <==> i >= ShaderCount(p)
    ensures r.Some? ==> r.value in p.shaders
  {
    if i >= |p.shaders| then None else Some(p.shaders[i])
  }

  /** One glAttachShader per attached shader, in order. */
  function AttachCalls(program: Handle, shaders: seq<ShaderRef>, idOf: ShaderRef -> Handle): (r: seq<Call>)
    ensures |r| == |shaders|
    ensures forall i :: 0 <= i < |shaders| ==> r[i] == AttachShader(program, idOf(shaders[i]))
  {
    seq(|shaders|, i requires 0 <= i < |shaders| => AttachShader(program, idOf(shaders[i])))
  }

  /** One glDetachShader per attached shader, in order. */
  function DetachCalls(program: Handle, shaders: seq<ShaderRef>, idOf: ShaderRef -> Handle): (r: seq<Call>)
    ensures |r| == |shaders|
    ensures forall i :: 0 <= i < |shaders| ==> r[i] == DetachShader(program, idOf(shaders[i]))
  {
    seq(|shaders|, i requires 0 <= i < |shaders| => DetachShader(program, idOf(shaders[i])))
  }

  /** program::destroy: an error on an uncreated program. */
  function Destroy(p: Program): (r: Step<Program>)
    ensures !IsCreated(p.id) <==> r.status == Thrown(ProgramNotLinked)
    ensures !IsCreated(p.id) ==> r.state == p && r.calls == []
    ensures IsCreated(p.id) ==> r.calls == [DeleteProgram(p.id)]
    ensures !IsCreated(r.state.id) && r.state.shaders == p.shaders
  {
    if !IsCreated(p.id) then Step(p, [], Thrown(ProgramNotLinked))
    else Step(p.(id := INVALID), [DeleteProgram(p.id)], Ok)
  }

  /** The calls `create` issues before asking for a handle: a program that
      is already created is destroyed first. */
  function Release(p: Program): (r: seq<Call>)
    ensures IsCreated(p.id) ==> r == [DeleteProgram(p.id)]
    ensures !IsCreated(p.id) ==> r == []
  {
    if IsCreated(p.id) then Destroy(p).calls else []
  }

  /** The calls of a link attempt on a fresh handle: glCreateProgram,
      one glAttachShader per shader in order, glLinkProgram, and the query
      of the link status. */
  function LinkCalls(issued: Handle, shaders: seq<ShaderRef>, idOf: ShaderRef -> Handle): (r: seq<Call>)
    ensures |r| == |shaders| + 3
    ensures r[0] == CreateProgram(issued)
    ensures forall i :: 0 <= i < |shaders| ==> r[1 + i] == AttachShader(issued, idOf(shaders[i]))
    ensures r[|shaders| + 1] == LinkProgram(issued)
  {
    [CreateProgram(issued)] + AttachCalls(issued, shaders, idOf)
    + [LinkProgram(issued), GetProgramLinkStatus(issued)]
  }

  /** program::create. The handle glCreateProgram returns, the link status
      and the info log are inputs; `idOf` gives each attached shader's
      current handle. */
  function Create(p: Program, issued: Handle, linked: bool, log: string,
                  idOf: ShaderRef -> Handle): (r: Step<Program>)
    ensures r.state.shaders == p.shaders
    ensures r.status == Ok <==> issued != INVALID && linked
    ensures r.status == Ok ==> r.state.id == issued
    ensures r.status != Ok ==> !IsCreated(r.state.id)
    // an already-created program is released first
    ensures |r.calls| > |Release(p)| && r.calls[..|Release(p)|] == Release(p)
    ensures r.calls[|Release(p)|] == CreateProgram(issued)
    // the allocator returned 0
    ensures issued == INVALID ==> r.status == Thrown(CreateProgramReturnedZero)
    ensures issued == INVALID ==> |r.calls| == |Release(p)| + 1
    // every shader is attached, in order, and then the program is linked
    ensures issued != INVALID ==> |r.calls| > |Release(p)| + |p.shaders| + 1
    ensures issued != INVALID ==>
              forall i :: 0 <= i < |p.shaders| ==>
                r.calls[|Release(p)| + 1 + i] == AttachShader(issued, idOf(p.shaders[i]))
    ensures issued != INVALID ==> r.calls[|Release(p)| + |p.shaders| + 1] == LinkProgram(issued)
    // link failure rolls back: the new handle is released and the log reported
    ensures issued != INVALID && !linked ==> r.status == Thrown(LinkError(log))
    ensures issued != INVALID && !linked ==> r.calls[|r.calls| - 1] == DeleteProgram(issued)
    // after a successful link every shader is detached again, in order
    ensures r.status == Ok ==> |r.calls| == |Release(p)| + 2 * |p.shaders| + 3
    ensures r.status == Ok ==>
              forall i :: 0 <= i < |p.shaders| ==>
                r.calls[|Release(p)| + |p.shaders| + 3 + i] == DetachShader(issued, idOf(p.shaders[i]))
  {
    var released := Release(p);
    if issued == INVALID then
      Step(p.(id := INVALID), released + [CreateProgram(issued)], Thrown(CreateProgramReturnedZero))
    else
      var linking := LinkCalls(issued, p.shaders, idOf);
      if !linked then
        var rollback := Destroy(p.(id := issued));
        var tail := [GetProgramInfoLogLength(issued), GetProgramInfoLog(issued)] + rollback.calls;
        assert (released + linking + tail)[..|released|] == released;
        Step(rollback.state, released + linking + tail, Thrown(LinkError(log)))
      else
        var detaching := DetachCalls(issued, p.shaders, idOf);
        assert (released + linking + detaching)[..|released|] == released;
        Step(p.(id := issued), released + linking + detaching, Ok)
  }

  /** The object destructor: a program that is still created is destroyed;
      the guard keeps destroy's error from ever being raised. */
  function Finalize(p: Program): (r: Step<Program>)
    ensures r.status == Ok && !IsCreated(r.state.id)
    ensures DeleteProgram(p.id) in r.calls <==> IsCreated(p.id)
    ensures !IsCreated(p.id) ==> r.calls == []
  {
    if IsCreated(p.id) then Destroy(p) else Step(p, [], Ok)
  }

  /** Unlike the other objects, destroying a program twice is an error. */
  lemma DestroyTwiceThrows(p: Program)
    requires IsCreated(p.id)
    ensures Destroy(p).status == Ok
    ensures Destroy(Destroy(p).state).status == Thrown(ProgramNotLinked)
  {
  }

  /** A failed link leaves nothing to destroy: the rollback already
      released the handle, so a later destroy is an error. */
  lemma LinkFailureLeavesNothingToDestroy(p: Program, issued: Handle, log: string, idOf: ShaderRef -> Handle)
    requires issued != INVALID
    ensures var r := Create(p, issued, false, log, idOf);
            Destroy(r.state).status == Thrown(ProgramNotLinked) && Finalize(r.state).calls == []
  {
  }

  /** Once linked, the shader list is frozen until the program is destroyed. */
  lemma LinkedProgramRejectsShaderChanges(p: Program, issued: Handle, log: string,
                                          idOf: ShaderRef -> Handle, s: ShaderRef)
    requires issued != INVALID
    ensures var r := Create(p, issued, true, log, idOf).state;
            Attach(r, s).status == Thrown(AttachAfterLink) && Detach(r, s).status == Thrown(DetachAfterLink)
            && Attach(Destroy(r).state, s).status == Ok
  {
  }
}
