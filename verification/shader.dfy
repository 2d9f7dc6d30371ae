/** shader.cpp: the shader object's lifecycle (create, compile via `link`,
    destroy) and the fixed type each concrete shader class reports. */
module Shaders {
  import opened Gl

  /** The concrete shader classes. */
  datatype ShaderKind =
    | FragmentShader
    | VertexShader
    | GeometryShader
    | ComputeShader
    | TessellationControlShader
    | TessellationEvaluationShader

  datatype Shader = Shader(kind: ShaderKind, id: Handle, linked: bool)

  /** shader::shader: uncreated and not linked. */
  function New(kind: ShaderKind): (s: Shader)
    ensures s.kind == kind && !IsCreated(s.id) && !IsLinked(s)
  {
    Shader(kind, INVALID, false)
  }

  /** The six GL shader types. */
  const ShaderTypes: set<Enum> := {GL_FRAGMENT_SHADER, GL_VERTEX_SHADER, GL_GEOMETRY_SHADER,
                                   GL_COMPUTE_SHADER, GL_TESS_CONTROL_SHADER, GL_TESS_EVALUATION_SHADER}

  /** get_type of each concrete class: always one of the GL shader types. */
  function TypeOf(kind: ShaderKind): (t: Enum)
    ensures t in ShaderTypes
  {
    match kind
    case FragmentShader => GL_FRAGMENT_SHADER
    case VertexShader => GL_VERTEX_SHADER
    case GeometryShader => GL_GEOMETRY_SHADER
    case ComputeShader => GL_COMPUTE_SHADER
    case TessellationControlShader => GL_TESS_CONTROL_SHADER
    case TessellationEvaluationShader => GL_TESS_EVALUATION_SHADER
  }

  /** A reference inverse of TypeOf, which the source does not have: the
      shader class a GL shader type belongs to, if any. */
  function KindOf(shaderType: Enum): (r: Option<ShaderKind>)
    ensures r.Some? <==> shaderType in ShaderTypes
    ensures r.Some? ==> TypeOf(r.value) == shaderType
  {
    if shaderType == GL_FRAGMENT_SHADER then Some(FragmentShader)
    else if shaderType == GL_VERTEX_SHADER then Some(VertexShader)
    else if shaderType == GL_GEOMETRY_SHADER then Some(GeometryShader)
    else if shaderType == GL_COMPUTE_SHADER then Some(ComputeShader)
    else if shaderType == GL_TESS_CONTROL_SHADER then Some(TessellationControlShader)
    else if shaderType == GL_TESS_EVALUATION_SHADER then Some(TessellationEvaluationShader)
    else None
  }

  /** Every class reports its own type, so the type tells the class apart:
      fragment, vertex and geometry report FRAGMENT, VERTEX and GEOMETRY. */
  lemma TypeIdentifiesKind(kind: ShaderKind)
    ensures KindOf(TypeOf(kind)) == Some(kind)
    ensures kind == FragmentShader <==> TypeOf(kind) == GL_FRAGMENT_SHADER
    ensures kind == VertexShader <==> TypeOf(kind) == GL_VERTEX_SHADER
    ensures kind == GeometryShader <==> TypeOf(kind) == GL_GEOMETRY_SHADER
  {
  }

  /** shader::is_linked: the flag that link sets and destroy clears. */
  function IsLinked(s: Shader): (b: bool)
    ensures b == s.linked
  {
    s.linked
  }

  /** shader::destroy: a no-op on an uncreated shader. */
  function Destroy(s: Shader): (r: Step<Shader>)
    ensures r.status == Ok && r.state.kind == s.kind && !IsCreated(r.state.id)
    ensures !IsCreated(s.id) ==> r.state == s && r.calls == []
    ensures IsCreated(s.id) ==> r.calls == [DeleteShader(s.id)] && !IsLinked(r.state)
  {
    if IsCreated(s.id) then Step(s.(id := INVALID, linked := false), [DeleteShader(s.id)], Ok)
    else Step(s, [], Ok)
  }

  /** shader::create: destroy first if created, then ask for a handle of
      the class's type; `issued` is what glCreateShader returns. */
  function Create(s: Shader, issued: Handle): (r: Step<Shader>)
    ensures r.state.kind == s.kind && r.state.id == issued
    ensures r.status == Ok <==> issued != INVALID
    ensures r.status != Ok ==> r.status == Thrown(CreateShaderReturnedZero)
    ensures IsCreated(s.id) ==> r.calls == [DeleteShader(s.id), CreateShader(TypeOf(s.kind), issued)]
                                && !IsLinked(r.state)
    ensures !IsCreated(s.id) ==> r.calls == [CreateShader(TypeOf(s.kind), issued)]
                                 && r.state.linked == s.linked
  {
    var released := Destroy(s);
    var created := released.state.(id := issued);
    var calls := released.calls + [CreateShader(TypeOf(s.kind), issued)];
    if issued == INVALID then Step(created, calls, Thrown(CreateShaderReturnedZero))
    else Step(created, calls, Ok)
  }

  /** shader::link: upload the source and compile it. Whether compilation
      succeeds and the info log are inputs. A failure destroys the shader
      and raises the log. */
  function Link(s: Shader, source: string, compiled: bool, log: string): (r: Step<Shader>)
    ensures r.state.kind == s.kind
    ensures |r.calls| >= 3
    ensures r.calls[..3] == [ShaderSource(s.id, source), CompileShader(s.id), GetShaderCompileStatus(s.id)]
    ensures compiled ==> r == Step(s.(linked := true), r.calls, Ok) && |r.calls| == 3
    ensures !compiled ==> r.status == Thrown(CompilationError(log))
    ensures !compiled ==> !IsCreated(r.state.id)
    ensures !compiled && IsCreated(s.id) ==> !IsLinked(r.state) && r.calls[|r.calls| - 1] == DeleteShader(s.id)
  {
    var compiling := [ShaderSource(s.id, source), CompileShader(s.id), GetShaderCompileStatus(s.id)];
    if compiled then Step(s.(linked := true), compiling, Ok)
    else
      var rollback := Destroy(s);
      var calls := compiling + [GetShaderInfoLogLength(s.id), GetShaderInfoLog(s.id)] + rollback.calls;
      assert calls[..3] == compiling;
      Step(rollback.state, calls, Thrown(CompilationError(log)))
  }

  /** The object destructor: destroy a shader that is still created. */
  function Finalize(s: Shader): (r: Step<Shader>)
    ensures r.status == Ok && !IsCreated(r.state.id)
    ensures DeleteShader(s.id) in r.calls <==> IsCreated(s.id)
  {
    if IsCreated(s.id) then Destroy(s) else Step(s, [], Ok)
  }

  /** Destroying twice is the same as destroying once. */
  lemma DestroyIdempotent(s: Shader)
    ensures var once := Destroy(s);
            Destroy(once.state) == Step(once.state, [], Ok)
  {
  }

  /** A successful create followed by a successful compile yields a
      created, linked shader; a failed compile leaves it uncreated with
      its handle released. */
  lemma CreateThenLink(s: Shader, issued: Handle, source: string, compiled: bool, log: string)
    requires issued != INVALID
    ensures var c := Create(s, issued).state;
            var l := Link(c, source, compiled, log);
            (compiled ==> IsCreated(l.state.id) && IsLinked(l.state) && l.state.id == issued)
            && (!compiled ==> !IsCreated(l.state.id) && !IsLinked(l.state)
                              && DeleteShader(issued) in l.calls)
  {
    var c := Create(s, issued).state;
    var l := Link(c, source, compiled, log);
    if !compiled {
      assert l.calls[|l.calls| - 1] == DeleteShader(issued);
    }
  }
}
