/** Shared vocabulary of the OpenGL wrapper model: object handles, the GL
    enumerants the wrapper uses, the GL calls it issues (recorded as trace
    events instead of being executed), and the outcome of one wrapper
    operation. */
module Gl {

  /** A GLuint object name issued by the driver; 0 means "no object". */
  type Handle = nat

  /** object::INVALID_ID */
  const INVALID: Handle := 0

  /** A GLenum value. */
  type Enum = nat

  /** is_created: an object is created iff its handle is not INVALID. The
      source declares it without a definition; this is the test of the bool
      conversion. */
  predicate IsCreated(h: Handle) {
    h != INVALID
  }

  // GL enumerants, with the values of the OpenGL headers.
  const GL_INVALID_ENUM: Enum := 0x0500
  const GL_FLOAT: Enum := 0x1406
  const GL_RGB: Enum := 0x1907
  const GL_TEXTURE_2D: Enum := 0x0DE1
  const GL_TEXTURE_BORDER_COLOR: Enum := 0x1004
  const GL_TEXTURE_MAG_FILTER: Enum := 0x2800
  const GL_TEXTURE_MIN_FILTER: Enum := 0x2801
  const GL_TEXTURE_WRAP_S: Enum := 0x2802
  const GL_TEXTURE_WRAP_T: Enum := 0x2803
  const GL_LINEAR: Enum := 0x2601
  const GL_CLAMP_TO_BORDER: Enum := 0x812D
  const GL_ARRAY_BUFFER: Enum := 0x8892
  const GL_LIGHT0: Enum := 0x4000
  /** The glGet token for the light limit (not the limit itself). */
  const GL_MAX_LIGHTS: nat := 0x0D31
  const GL_FRAGMENT_SHADER: Enum := 0x8B30
  const GL_VERTEX_SHADER: Enum := 0x8B31
  const GL_GEOMETRY_SHADER: Enum := 0x8DD9
  const GL_TESS_EVALUATION_SHADER: Enum := 0x8E87
  const GL_TESS_CONTROL_SHADER: Enum := 0x8E88
  const GL_COMPUTE_SHADER: Enum := 0x91B9

  datatype Option<T> = None | Some(value: T)

  /** A 32-bit float, kept as its IEEE-754 bit pattern: the model never
      does arithmetic on it. */
  type FloatBits = bv32

  const FLOAT_ZERO: FloatBits := 0
  const FLOAT_ONE: FloatBits := 0x3F80_0000

  /** vec4f used as a colour (texture border colour). */
  datatype Colour = Colour(r: FloatBits, g: FloatBits, b: FloatBits, a: FloatBits)

  /** vertex_array::vertex_attribute; the pointer is an opaque offset. */
  datatype Attribute = Attribute(size: int, componentType: Enum, normalised: bool, stride: int, pointer: nat)

  /** One call into the GL, as issued by the wrapper. Queries are recorded
      too; the values they return are inputs of the model. */
  datatype Call =
    | UseProgram(program: Handle)
    | CreateProgram(returned: Handle)
    | AttachShader(program: Handle, shader: Handle)
    | DetachShader(program: Handle, shader: Handle)
    | LinkProgram(program: Handle)
    | GetProgramLinkStatus(program: Handle)
    | GetProgramInfoLogLength(program: Handle)
    | GetProgramInfoLog(program: Handle)
    | DeleteProgram(program: Handle)
    | CreateShader(shaderType: Enum, returned: Handle)
    | ShaderSource(shader: Handle, source: string)
    | CompileShader(shader: Handle)
    | GetShaderCompileStatus(shader: Handle)
    | GetShaderInfoLogLength(shader: Handle)
    | GetShaderInfoLog(shader: Handle)
    | DeleteShader(shader: Handle)
    | GenTextures(returned: Handle)
    | BindTexture(target: Enum, texture: Handle)
    | TexParameteri(target: Enum, pname: Enum, value: int)
    | TexParameterBorderColour(target: Enum, colour: Colour)
    | GenerateMipmap(target: Enum)
    | TexImage2D(target: Enum, level: int, internalFormat: int, width: int, height: int,
                 border: int, format: Enum, pixelType: Enum)
    | DeleteTextures(texture: Handle)
    | GenVertexArrays(returned: Handle)
    | BindVertexArray(array: Handle)
    | DeleteVertexArrays(array: Handle)
    | BindBuffer(target: Enum, buffer: Handle)
    | VertexAttribPointer(index: nat, attribute: Attribute)
    | EnableVertexAttribArray(index: nat)
    | DisableVertexAttribArray(index: nat)
    | DrawArrays(mode: Enum, first: int, count: int)
    | Enable(capability: Enum)
    | Disable(capability: Enum)

  /** The std::runtime_error messages the wrapper throws, one per site. */
  datatype Error =
    | AttachAfterLink
    | DetachAfterLink
    | ProgramNotBound
    | CreateProgramReturnedZero
    | LinkError(log: string)
    | ProgramNotLinked
    | CreateShaderReturnedZero
    | CompilationError(log: string)
    | GenVertexArraysReturnedZero
    | ArrayBufferMapped
    | UnexpectedCharacter

  datatype Status = Ok | Thrown(error: Error)

  /** The result of one wrapper operation: the object state it leaves
      behind (also when it throws part-way), the GL calls it issued in
      order, and whether it returned or threw. */
  datatype Step<S> = Step(state: S, calls: seq<Call>, status: Status)

  /** std::find: the first position of x in s. */
  function FirstIndexOf<T(==)>(s: seq<T>, x: T): (r: Option<nat>)
    ensures r.None? <==> x !in s
    ensures r.Some? ==> r.value < |s| && s[r.value] == x && x !in s[..r.value]
  {
    if |s| == 0 then None
    else if s[0] == x then Some(0)
    else
      match FirstIndexOf(s[1..], x)
      case None => None
      case Some(k) => assert s[1..][..k] == s[1..k + 1]; Some(k + 1)
  }

  /** std::find over reverse iterators: the last position of x in s. */
  function LastIndexOf<T(==)>(s: seq<T>, x: T): (r: Option<nat>)
    ensures r.None? <==> x !in s
    ensures r.Some? ==> r.value < |s| && s[r.value] == x && x !in s[r.value + 1..]
  {
    if |s| == 0 then None
    else if s[|s| - 1] == x then Some(|s| - 1)
    else LastIndexOf(s[..|s| - 1], x)
  }

  /** vector::erase at position k. */
  function RemoveAt<T>(s: seq<T>, k: nat): (r: seq<T>)
    requires k < |s|
    ensures |r| == |s| - 1
    ensures multiset(r) == multiset(s) - multiset{s[k]}
    ensures forall i :: 0 <= i < k ==> r[i] == s[i]
    ensures forall i :: k <= i < |r| ==> r[i] == s[i + 1]
  {
    assert s == s[..k] + [s[k]] + s[k + 1..];
    s[..k] + s[k + 1..]
  }
}
