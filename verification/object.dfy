/** object.cpp: the base object holding a handle. The kind-specific
    destructors (`Finalize` in each object module) model the base
    destructor's "destroy if still created". */
module GlObject {
  import opened Gl
  import Programs
  import Shaders
  import Textures
  import VertexArrays

  /** The base object: just its handle. */
  datatype Object = Object(id: Handle)

  /** object::object: starts with INVALID_ID, i.e. uncreated. */
  function New(): (o: Object)
    ensures !IsCreated(GetId(o)) && !AsBool(o)
  {
    Object(INVALID)
  }

  /** object::get_id: the handle, unchanged, as the id_t type. */
  function GetId(o: Object): Handle {
    o.id
  }

  /** operator bool: whether the handle is valid. */
  function AsBool(o: Object): bool {
    o.id != INVALID
  }

  /** Across the object kinds, the bool conversion follows the lifecycle: a
      create that returns normally leaves the object true (the texture's
      create does not check the handle, so it is true exactly when the
      driver issued one), and every destroy that returns normally and every
      destructor leaves it false. */
  lemma LifecycleDecidesBool(p: Programs.Program, s: Shaders.Shader, t: Textures.Texture,
                             va: VertexArrays.VertexArray, issued: Handle, linked: bool, log: string,
                             idOf: Programs.ShaderRef -> Handle)
    ensures var c := Programs.Create(p, issued, linked, log, idOf);
            c.status == Ok ==> AsBool(Object(c.state.id))
    ensures var c := Shaders.Create(s, issued);
            c.status == Ok ==> AsBool(Object(c.state.id))
    ensures AsBool(Object(Textures.Create(t, issued).state.id)) <==> issued != INVALID
    ensures AsBool(Object(VertexArrays.New(issued).state.id)) <==> VertexArrays.New(issued).status == Ok
    ensures Programs.Destroy(p).status == Ok ==> !AsBool(Object(Programs.Destroy(p).state.id))
    ensures !AsBool(Object(Shaders.Destroy(s).state.id)) && !AsBool(Object(Textures.Destroy(t).state.id))
    ensures !AsBool(Object(Programs.Finalize(p).state.id)) && !AsBool(Object(Shaders.Finalize(s).state.id))
    ensures !AsBool(Object(Textures.Finalize(t).state.id)) && !AsBool(Object(VertexArrays.Finalize(va).state.id))
  {
  }
}
