/** vertex_buffer.cpp as it stands: a stub. It records a usage, a data
    pointer and a size; binding always fails and create/destroy do nothing. */
module VertexBuffers {
  import opened Gl

  /** A client data pointer, kept opaque. */
  datatype Pointer = Null | Address(at: nat)

  datatype VertexBuffer = VertexBuffer(target: Enum, data: Pointer, size: int, usage: Enum)

  /** vertex_buffer::vertex_buffer() */
  function New(): (b: VertexBuffer)
    ensures b.target == GL_INVALID_ENUM && b.data == Null && b.size == 0
    ensures GetUsage(b) == GL_INVALID_ENUM
  {
    VertexBuffer(GL_INVALID_ENUM, Null, 0, GL_INVALID_ENUM)
  }

  /** vertex_buffer::vertex_buffer(GLenum usage) */
  function NewWithUsage(usage: Enum): (b: VertexBuffer)
    ensures b.target == GL_INVALID_ENUM && b.data == Null && b.size == 0
    ensures GetUsage(b) == usage
  {
    VertexBuffer(GL_INVALID_ENUM, Null, 0, usage)
  }

  /** vertex_buffer::set_usage: reports failure whether or not the buffer is
      created, and never stores the usage. */
  function SetUsage(b: VertexBuffer, usage: Enum): (r: (bool, VertexBuffer))
    ensures !r.0 && r.1 == b
  {
    (false, b)
  }

  /** vertex_buffer::get_usage: the usage stored at construction. */
  function GetUsage(b: VertexBuffer): (u: Enum)
    ensures u == b.usage
  {
    b.usage
  }

  /** vertex_buffer::set_data: stores the pointer and size only. */
  function SetData(b: VertexBuffer, data: Pointer, size: int): (r: VertexBuffer)
    ensures r.data == data && r.size == size
    ensures r.target == b.target && GetUsage(r) == GetUsage(b)
  {
    b.(data := data, size := size)
  }

  /** The four members vertex_buffer.cpp leaves as stubs. */
  datatype StubOperation = BindTo(target: Enum) | UnbindFrom(target: Enum) | Create | Destroy

  /** vertex_buffer::bind and vertex_buffer::unbind return false;
      vertex_buffer::create and vertex_buffer::destroy have empty bodies.
      None of them issues a call, throws or changes the buffer. The boolean
      is the reported success; the two void members report none, which is
      written as false. */
  function RunStub(b: VertexBuffer, op: StubOperation): (r: (bool, Step<VertexBuffer>))
    ensures !r.0 && r.1.state == b && r.1.calls == [] && r.1.status == Ok
  {
    (false, Step(b, [], Ok))
  }

  /** Whatever sequence of stub calls is made, usage is never changed after
      construction: set_usage cannot alter it, set_data leaves it and so do the stubs. */
  lemma UsageFixedAtConstruction(usage: Enum, data: Pointer, size: int, other: Enum)
    ensures var b := SetData(SetUsage(NewWithUsage(usage), other).1, data, size);
            GetUsage(b) == usage && b.size == size && b.data == data
            && GetUsage(RunStub(b, BindTo(other)).1.state) == usage
            && GetUsage(RunStub(b, Destroy).1.state) == usage
  {
  }
}
