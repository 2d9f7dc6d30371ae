/** core.hpp: the configured OpenGL version and the comparison macros
    against it, and the shader classes compiled in for a version. */
module GlVersion {
  import opened Gl
  import Shaders

  datatype Version = Version(major: int, minor: int)

  /** The version used when none is configured. */
  const DEFAULT: Version := Version(4, 0)

  /** ASMITH_GL_VERSION_MAJOR/MINOR: the configured pair, or the default. */
  function Configured(defined: Option<Version>): (v: Version)
    ensures defined.None? ==> v == Version(4, 0)
    ensures defined.Some? ==> v == defined.value
  {
    if defined.Some? then defined.value else DEFAULT
  }

  /** ASMITH_GL_VERSION_GT(major, minor) */
  predicate GT(v: Version, major: int, minor: int) {
    v.major > major || (v.major == major && v.minor > minor)
  }

  /** ASMITH_GL_VERSION_GE(major, minor) */
  predicate GE(v: Version, major: int, minor: int) {
    v.major > major || (v.major == major && v.minor >= minor)
  }

  /** ASMITH_GL_VERSION_LT(major, minor) */
  predicate LT(v: Version, major: int, minor: int) {
    v.major < major || (v.major == major && v.minor < minor)
  }

  /** ASMITH_GL_VERSION_LE(major, minor) */
  predicate LE(v: Version, major: int, minor: int) {
    v.major < major || (v.major == major && v.minor <= minor)
  }

  /** ASMITH_GL_VERSION_EQ(major, minor) */
  predicate EQ(v: Version, major: int, minor: int) {
    v.major == major && v.minor == minor
  }

  /** ASMITH_GL_VERSION_NEQ(major, minor) */
  predicate NEQ(v: Version, major: int, minor: int) {
    v.major != major || v.minor != minor
  }

  /** Lexicographic order on (major, minor), stated independently of the
      macros: compare majors, and minors only when the majors agree. */
  predicate Before(a: Version, b: Version) {
    if a.major != b.major then a.major < b.major else a.minor < b.minor
  }

  /** The six macros are the six comparisons of one total order, and each
      negated macro is its opposite. */
  lemma ComparisonsConsistent(v: Version, major: int, minor: int)
    ensures GT(v, major, minor) <==> Before(Version(major, minor), v)
    ensures LT(v, major, minor) <==> Before(v, Version(major, minor))
    ensures EQ(v, major, minor) <==> v == Version(major, minor)
    ensures GE(v, major, minor) <==> GT(v, major, minor) || EQ(v, major, minor)
    ensures LT(v, major, minor) <==> !GE(v, major, minor)
    ensures LE(v, major, minor) <==> !GT(v, major, minor)
    ensures NEQ(v, major, minor) <==> !EQ(v, major, minor)
    ensures GT(v, major, minor) || EQ(v, major, minor) || LT(v, major, minor)
  {
  }

  /** Before is a strict order: irreflexive and transitive. */
  lemma BeforeIsStrictOrder(a: Version, b: Version, c: Version)
    ensures !Before(a, a)
    ensures Before(a, b) && Before(b, c) ==> Before(a, c)
    ensures Before(a, b) ==> !Before(b, a)
  {
  }

  /** Whether a shader class is compiled in: compute needs 4.3 or later,
      the tessellation stages 4.0 or later, the rest are always there. */
  predicate KindAvailable(v: Version, kind: Shaders.ShaderKind) {
    match kind
    case ComputeShader => GE(v, 4, 3)
    case TessellationControlShader => GE(v, 4, 0)
    case TessellationEvaluationShader => GE(v, 4, 0)
    case _ => true
  }

  /** With the default version the tessellation shaders are compiled in and
      the compute shader is not; a later version never loses a class. */
  lemma DefaultAvailability(later: Version, kind: Shaders.ShaderKind)
    ensures KindAvailable(Configured(None), Shaders.TessellationControlShader)
    ensures KindAvailable(Configured(None), Shaders.TessellationEvaluationShader)
    ensures !KindAvailable(Configured(None), Shaders.ComputeShader)
    ensures !Before(later, Configured(None)) && KindAvailable(Configured(None), kind) ==>
              KindAvailable(later, kind)
  {
  }
}
