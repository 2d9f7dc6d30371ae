/** vertex_array.cpp: the vertex array object, its attribute/buffer lists,
    add_attribute with its save/restore of the ARRAY_BUFFER binding, and
    draw_arrays with its enable/disable bracket. */
module VertexArrays {
  import opened Gl

  /** Identity of a vertex buffer object (a shared pointer). */
  type BufferRef = nat

  datatype VertexArray = VertexArray(id: Handle, attributes: seq<Attribute>, buffers: seq<BufferRef>)

  /** What vertex_buffer::get_buffer_bound_to reports for ARRAY_BUFFER: the
      bound buffer's handle and whether it is mapped. */
  datatype BoundBuffer = BoundBuffer(id: Handle, mapped: bool)

  /** vertex_array::vertex_array: `issued` is what glGenVertexArrays
      returns; 0 is an error. */
  function New(issued: Handle): (r: Step<VertexArray>)
    ensures r.state.id == issued && r.state.attributes == [] && r.state.buffers == []
    ensures r.calls == [GenVertexArrays(issued)]
    ensures r.status == Ok <==> IsCreated(issued)
    ensures r.status != Ok ==> r.status == Thrown(GenVertexArraysReturnedZero)
  {
    var va := VertexArray(issued, [], []);
    if issued == INVALID then Step(va, [GenVertexArrays(issued)], Thrown(GenVertexArraysReturnedZero))
    else Step(va, [GenVertexArrays(issued)], Ok)
  }

  /** vertex_array::~vertex_array */
  function Finalize(va: VertexArray): (r: Step<VertexArray>)
    ensures r.status == Ok && !IsCreated(r.state.id)
    ensures !IsCreated(va.id) ==> r.calls == []
    ensures IsCreated(va.id) ==> r.calls == [DeleteVertexArrays(va.id)]
  {
    if va.id == INVALID then Step(va, [], Ok)
    else Step(va.(id := INVALID), [DeleteVertexArrays(va.id)], Ok)
  }

  /** vertex_array::add_attribute. `bufferId` is the handle of the buffer
      stored at the new index (the new buffer, since the two lists grow in
      lockstep) and `previous` what is bound to ARRAY_BUFFER on entry. The
      lists grow before the mapped check, so they have grown even when it
      throws. */
  function AddAttribute(va: VertexArray, buffer: BufferRef, bufferId: Handle, attribute: Attribute,
                        previous: Option<BoundBuffer>): (r: (nat, Step<VertexArray>))
    ensures var (index, step) := r;
            && index == |va.attributes|
            && (|va.attributes| == |va.buffers| ==> |step.state.attributes| == |step.state.buffers|)
            && step.state.id == va.id
            && step.state.attributes == va.attributes + [attribute]
            && step.state.buffers == va.buffers + [buffer]
            && (previous.Some? && previous.value.mapped <==> step.status == Thrown(ArrayBufferMapped))
            && (step.status != Ok ==> step.calls == [])
    ensures var (index, step) := r;
            step.status == Ok ==>
              && |step.calls| == 5
              && step.calls[0] == BindVertexArray(va.id)
              && step.calls[1] == BindBuffer(GL_ARRAY_BUFFER, bufferId)
              && step.calls[2] == VertexAttribPointer(index, attribute)
              // the ARRAY_BUFFER binding found on entry is restored, and the array unbound
              && step.calls[3] == BindBuffer(GL_ARRAY_BUFFER, if previous.Some? then previous.value.id else INVALID)
              && step.calls[4] == BindVertexArray(INVALID)
  {
    var grown := va.(attributes := va.attributes + [attribute], buffers := va.buffers + [buffer]);
    var index := |grown.attributes| - 1;
    if previous.Some? && previous.value.mapped then
      (index, Step(grown, [], Thrown(ArrayBufferMapped)))
    else
      var restored := if previous.Some? then previous.value.id else INVALID;
      (index, Step(grown, [BindVertexArray(va.id), BindBuffer(GL_ARRAY_BUFFER, bufferId),
                           VertexAttribPointer(index, grown.attributes[index]),
                           BindBuffer(GL_ARRAY_BUFFER, restored), BindVertexArray(INVALID)], Ok))
  }

  /** The call sequence of draw_arrays on a created array with n
      attributes: bind it, enable attributes 0..n-1, draw once, disable
      0..n-1, unbind. */
  ghost predicate DrawBracket(va: VertexArray, mode: Enum, first: int, count: int, calls: seq<Call>) {
    var n := |va.attributes|;
    && |calls| == 2 * n + 3
    && calls[0] == BindVertexArray(va.id)
    && (forall i :: 0 <= i < n ==> calls[1 + i] == EnableVertexAttribArray(i))
    && calls[n + 1] == DrawArrays(mode, first, count)
    && (forall i :: 0 <= i < n ==> calls[n + 2 + i] == DisableVertexAttribArray(i))
    && calls[2 * n + 2] == BindVertexArray(INVALID)
  }

  /** vertex_array::draw_arrays: nothing for an uncreated array, otherwise
      the bracket above. */
  method Draw(va: VertexArray, mode: Enum, first: int, count: int) returns (calls: seq<Call>)
    ensures va.id == INVALID ==> calls == []
    ensures va.id != INVALID ==> DrawBracket(va, mode, first, count, calls)
  {
    if va.id == INVALID {
      return [];
    }
    var n := |va.attributes|;
    calls := [BindVertexArray(va.id)];
    var i := 0;
    while i < n
      invariant 0 <= i <= n
      invariant |calls| == 1 + i && calls[0] == BindVertexArray(va.id)
      invariant forall k :: 0 <= k < i ==> calls[1 + k] == EnableVertexAttribArray(k)
    {
      calls := calls + [EnableVertexAttribArray(i)];
      i := i + 1;
    }
    calls := calls + [DrawArrays(mode, first, count)];
    i := 0;
    while i < n
      invariant 0 <= i <= n
      invariant |calls| == n + 2 + i && calls[0] == BindVertexArray(va.id)
      invariant forall k :: 0 <= k < n ==> calls[1 + k] == EnableVertexAttribArray(k)
      invariant calls[n + 1] == DrawArrays(mode, first, count)
      invariant forall k :: 0 <= k < i ==> calls[n + 2 + k] == DisableVertexAttribArray(k)
    {
      calls := calls + [DisableVertexAttribArray(i)];
      i := i + 1;
    }
    calls := calls + [BindVertexArray(INVALID)];
  }

  /** The bracket is balanced: an attribute index is enabled exactly when it
      is disabled again, exactly the indices below the attribute count are,
      and there is exactly one draw call. */
  lemma DrawBracketBalanced(va: VertexArray, mode: Enum, first: int, count: int, calls: seq<Call>, a: nat)
    requires DrawBracket(va, mode, first, count, calls)
    ensures EnableVertexAttribArray(a) in calls <==> a < |va.attributes|
    ensures DisableVertexAttribArray(a) in calls <==> a < |va.attributes|
    ensures forall j :: 0 <= j < |calls| && calls[j].DrawArrays? ==> j == |va.attributes| + 1
  {
    var n := |va.attributes|;
    forall j | 0 <= j < |calls|
      ensures calls[j] == EnableVertexAttribArray(a) ==> 1 <= j <= n && j - 1 == a
      ensures calls[j] == DisableVertexAttribArray(a) ==> n + 2 <= j < 2 * n + 2 && j - n - 2 == a
      ensures calls[j].DrawArrays? ==> j == n + 1
    {
      if 1 <= j <= n {
        assert calls[1 + (j - 1)] == EnableVertexAttribArray(j - 1);
      } else if n + 2 <= j < 2 * n + 2 {
        assert calls[n + 2 + (j - n - 2)] == DisableVertexAttribArray(j - n - 2);
      }
    }
    if a < n {
      assert calls[1 + a] == EnableVertexAttribArray(a);
      assert calls[n + 2 + a] == DisableVertexAttribArray(a);
    }
  }
}
