# ObjectGL core, modelled in Dafny

ObjectGL is a thin C++ wrapper over OpenGL. Each GL resource (program, shader,
2D texture, vertex array, vertex buffer, light) is held by an object with a
handle, where handle 0 means "not created". Each object has create/destroy
lifecycle methods, and the program objects share a global bind stack. The
repository also has some small pure helpers: a Wavefront OBJ reader, a packed
colour-format bit copier, a byte-count to storage-type table, and
version-comparison macros.

The model is written in these terms:

- **OpenGL calls.** Every call is an abstract `Call` event appended to a
  trace. Operations return `Step(state, calls, status)`. When an exception is
  thrown part-way, the step still carries the state and the calls made up to
  the throw, with `status == Thrown(error)`.
- **Inputs from the GL.** These are parameters rather than behaviour: the
  handle the allocator returns (`issued`, 0 = failure), link or compile
  success, the info log, and the buffer bound to `GL_ARRAY_BUFFER`.
- **The program bind stack** is a sequence of program references. `idOf` maps
  each reference to its current handle.
- **Numbers in OBJ files and colours** are opaque 32-bit patterns. No
  floating-point arithmetic is modelled.

Modules, one per source file:

| module | file | source |
|---|---|---|
| `Gl` | gl.dfy | shared handles, GL constants, the call trace, errors |
| `GlObject` | object.dfy | src/asmith/open_gl/object.cpp |
| `ProgramBinding` | program_binding.dfy | program bind stack in src/asmith/open_gl/program.cpp |
| `Programs` | program.dfy | the rest of src/asmith/open_gl/program.cpp |
| `Shaders` | shader.dfy | src/asmith/open_gl/shader.cpp |
| `Textures` | texture_2d.dfy | src/asmith/open_gl/texture_2d.cpp |
| `VertexArrays` | vertex_array.dfy | src/asmith/open_gl/vertex_array.cpp |
| `VertexBuffers` | vertex_buffer.dfy | src/asmith/open_gl/vertex_buffer.cpp |
| `Lights` | light.dfy | src/asmith/open_gl/light.cpp |
| `Binding` | bindable.dfy | Include/ObjectGL/Bindable.hpp |
| `ObjFormat` | obj.dfy | src/asmith/open_gl/obj.cpp |
| `ColourFormat` | colour_format.dfy | Include/ObjectGL/ColourFormat.hpp |
| `BinaryData` | binary_data.dfy | Include/ObjectGL/BinaryData.hpp |
| `GlVersion` | version.dfy | include/asmith/open_gl/core.hpp |

Several quirks of the sources are modelled as follows:

- **Lines that do not compile.** program.cpp:32, :57 and :62, object.cpp:32
  and BinaryData.hpp:41 do not compile as written. The model follows what each
  line evidently means:
  - detach takes the shader reference;
  - unbind uses `empty() ? 0 : back()->mID`;
  - unbind erases the found reverse position;
  - the bool conversion operator is modelled;
  - the `Large` constructor fills with its parameter `aBytes`;
  - `BindGuard` (Bindable.hpp:58-63) names the parameter pack `PARAMS`
    without expanding it (`Bindable<PARAMS>&`, `PARAMS mParams`). The model's
    guard holds one parameter value of type `P`; several parameters become a
    tuple.
- **Destructors.** The program, shader and texture destructors have empty
  bodies (program.cpp:23-25, shader.cpp:25-27, texture_2d.cpp:35-37). The
  base destructor `object::~object` (object.cpp:24-26) then calls
  `is_created()` and `destroy()`. Inside a base-class destructor a virtual
  call resolves to the base class's own member. `destroy` is pure virtual in
  `object` (object.hpp:44), so the call is undefined behaviour and never
  reaches the derived destroy. The `Finalize` members of those three kinds
  model the evident intent, "destroy if still created", and "## Left out"
  says so for each. The vertex array's own destructor deletes its handle
  (vertex_array.cpp:27-31); `VertexArrays.Finalize` models that destructor.
- **The bindable program.** `asmith::gl::program` (program.hpp:28) derives
  only from `object`. The source's bindable program is `ObjectGL::Program`
  (Include/ObjectGL/Program.hpp:46), and its `Bind` and `Unbind` are not part
  of this model. `Binding.ProgramBindable` is the model's own instance: it
  plugs program.cpp's bind, unbind and is_bound into the interface, so that
  the guard can be studied over the program bind stack.
- **OBJ end of text.** obj::load tests end-of-file before it reads the next
  character. After a last line that ends in a newline, the read fails, the
  character of the previous pass stays, and the loop body runs once more.
  `ObjFormat.LoadAsWritten` models that. `ObjFormat.Load` is the evidently
  intended loop, with one pass per record; see "## Findings".
- **Behaviour that may surprise a reader.** The model keeps these as the code
  has them:
  - `bind` pushes without a duplicate check;
  - destroying an uncreated program throws, so it is not idempotent;
  - `add_attribute` appends to both lists before the mapped-buffer check, so
    the lists have grown even when that check throws;
  - re-creating an uncreated shader keeps its `linked` flag.
- **Version macros.** The macros in core.hpp lack outer parentheses. Every
  use in the sources is a bare `#if`, so this does not change any result. The
  compute shader class is compiled in only from version 4.3, while the
  default version is 4.0.

## Model

| member | source | states |
|---|---|---|
| GlObject.New | src/asmith/open_gl/object.cpp:20-22 | a new object starts with the invalid handle, so it is uncreated and converts to false |
| GlObject.LifecycleDecidesBool | src/asmith/open_gl/object.cpp:32-34 | over every object kind, a program or shader create that returns normally makes the object true. A texture create makes it true exactly when the driver issued a handle, and a vertex array's construction exactly when it does not throw. Every destroy that returns normally, and every destructor, makes it false |
| ProgramBinding.Bind | src/asmith/open_gl/program.cpp:48-51 | bind pushes the program on top without a duplicate check, keeps everything below, adds exactly one occurrence, and issues one glUseProgram of its handle |
| ProgramBinding.Unbind | src/asmith/open_gl/program.cpp:53-64 | unbinding a program that is not on the stack throws and changes nothing; a program on top is popped and the new top's handle (or 0) is made active; a program buffered lower down loses its last occurrence, the top stays, and no GL call is made; each successful unbind removes exactly one occurrence |
| ProgramBinding.IsBound | src/asmith/open_gl/program.cpp:66-70 | is_bound is true exactly when the program occurs somewhere in the stack |
| ProgramBinding.BindUnbindRoundTrip | src/asmith/open_gl/program.cpp:48-64 | bind then unbind of the same program restores the stack and re-activates the handle that was on top before (or 0) |
| ProgramBinding.DoubleBindNeedsTwoUnbinds | src/asmith/open_gl/program.cpp:48-57 | binding a program twice takes two unbinds: after one, it is still bound and current, and its handle is re-issued |
| ProgramBinding.IsCurrentlyBound | src/asmith/open_gl/program.cpp:72-74 | on a non-empty stack a program is current exactly when its last occurrence is the top; a current program is bound |
| ProgramBinding.UnbindBufferedUnderTop | src/asmith/open_gl/program.cpp:58-63 | unbinding a program buffered under another removes its entry, leaves the other on top, and issues no glUseProgram |
| Programs.New | src/asmith/open_gl/object.cpp:20-22 | a new program is uncreated with no shaders |
| Programs.Attach | src/asmith/open_gl/program.cpp:27-30 | attach throws on a created (linked) program; otherwise it appends the shader at index shader_count and keeps the earlier shaders |
| Programs.Detach | src/asmith/open_gl/program.cpp:32-37 | detach throws on a created program; otherwise it removes the first occurrence of the shader, removing exactly one copy, or changes nothing when the shader is absent |
| Programs.ShaderCount | src/asmith/open_gl/program.cpp:39-41 | shader_count is the number of attached entries, a shader attached twice counting twice |
| Programs.GetShader | src/asmith/open_gl/program.cpp:39-46 | get_shader is empty exactly for an index at or past shader_count, and otherwise returns one of the attached shaders |
| Programs.Destroy | src/asmith/open_gl/program.cpp:107-111 | destroy throws exactly when the program is uncreated; otherwise it deletes the handle and leaves the program uncreated |
| Programs.Create | src/asmith/open_gl/program.cpp:76-105 | create releases a created program first, then creates a handle. A 0 handle throws. Otherwise every shader is attached in order and the program linked. A link failure deletes the new handle and throws with the log; on success every shader is detached again in order. Exactly one of created-and-Ok or uncreated-and-thrown holds |
| Programs.Finalize | src/asmith/open_gl/object.cpp:24-26 | the destructor deletes the handle exactly when the program is still created and never raises destroy's error |
| Programs.DestroyTwiceThrows | src/asmith/open_gl/program.cpp:107-111 | a second destroy of the same program throws |
| Programs.LinkFailureLeavesNothingToDestroy | src/asmith/open_gl/program.cpp:90-100 | after a failed link the program is uncreated: destroy throws and the destructor issues nothing |
| Programs.LinkedProgramRejectsShaderChanges | src/asmith/open_gl/program.cpp:27-37 | after a successful create, attach and detach throw; after destroy, attach succeeds again |
| Shaders.New | src/asmith/open_gl/shader.cpp:21-23 | a new shader is uncreated and not linked |
| Shaders.TypeOf | src/asmith/open_gl/shader.cpp:70-204 | each concrete class's get_type reports one of the six GL shader types |
| Shaders.KindOf | src/asmith/open_gl/shader.cpp:70-204 | a reference inverse of the six get_type bodies (the source has none): a GL type maps to a class exactly when it is one of the six shader types, and then to the class that reports it |
| Shaders.TypeIdentifiesKind | src/asmith/open_gl/shader.cpp:70-204 | each shader class reports its own GL type, and no two classes share one, so the type determines the class |
| Shaders.IsLinked | src/asmith/open_gl/shader.cpp:50-52 | is_linked reports the linked flag, which a new shader has clear, a successful link sets, and destroying a created shader clears |
| Shaders.Destroy | src/asmith/open_gl/shader.cpp:60-66 | destroy is a no-op on an uncreated shader; otherwise it deletes the handle and clears the linked flag |
| Shaders.Create | src/asmith/open_gl/shader.cpp:54-58 | create destroys a created shader first, then asks for a handle of the class's type; it succeeds exactly when the handle is non-zero |
| Shaders.Link | src/asmith/open_gl/shader.cpp:29-48 | link uploads the source, compiles and queries the status. Success sets linked. Failure reads the log, destroys the shader and throws the log |
| Shaders.Finalize | src/asmith/open_gl/object.cpp:24-26 | the destructor deletes the handle exactly when the shader is created |
| Shaders.DestroyIdempotent | src/asmith/open_gl/shader.cpp:60-66 | destroying twice equals destroying once: the second call changes nothing and issues nothing |
| Shaders.CreateThenLink | src/asmith/open_gl/shader.cpp:29-58 | a successful create then compile gives a created, linked shader; a failed compile leaves it uncreated, unlinked and its handle deleted |
| Textures.New | src/asmith/open_gl/texture_2d.cpp:19-33 | the defaults: TEXTURE_2D, RGB internal format and format, FLOAT pixels, CLAMP_TO_BORDER, LINEAR, level and border 0, size 0, no mipmaps, border colour (0,0,0,1) |
| Textures.Get | src/asmith/open_gl/texture_2d.cpp:39-85 | every getter returns a value of its parameter's kind |
| Textures.Set | src/asmith/open_gl/texture_2d.cpp:87-125 | each setter makes its getter return the value set and leaves every other parameter, the handle and the size |
| Textures.SettersIndependent | src/asmith/open_gl/texture_2d.cpp:87-125 | setting a parameter twice keeps the last value; setters of different parameters commute |
| Textures.Destroy | src/asmith/open_gl/texture_2d.cpp:140-144 | destroy is a no-op on an uncreated texture; otherwise it deletes the handle, and no parameter changes |
| Textures.SetupCalls | src/asmith/open_gl/texture_2d.cpp:129-137 | the create sequence, call by call: generate, bind, wrap S, wrap T, the border colour exactly when wrapping clamps to border, min filter, mag filter, generate mipmaps exactly when enabled, unbind; 7 calls plus one for each optional call |
| Textures.SetupCallsOptional | src/asmith/open_gl/texture_2d.cpp:129-137 | both wrap and both filter parameters are always pushed; the border colour is pushed if and only if wrapping clamps to border, and mipmaps are generated if and only if they are enabled |
| Textures.Create | src/asmith/open_gl/texture_2d.cpp:127-138 | create releases a created texture first, then runs the setup sequence on the new handle, and changes no parameter |
| Textures.Bind | src/asmith/open_gl/texture_2d.cpp:146-148 | bind binds the handle to the target the getter reports |
| Textures.BindAfterCreate | src/asmith/open_gl/texture_2d.cpp:127-148 | after create, bind issues one glBindTexture of the stored target and the issued handle, the same call create made during setup |
| Textures.Size | src/asmith/open_gl/texture_2d.cpp:47-53 | get_width and get_height report the size: 0 by 0 for a new texture, the last size given to load_raw afterwards, and no setter changes it |
| Textures.LoadRaw | src/asmith/open_gl/texture_2d.cpp:150-154 | load_raw records the size and uploads with the stored target, level, formats, border and pixel type, changing no other parameter |
| Textures.Finalize | src/asmith/open_gl/object.cpp:24-26 | the destructor deletes the handle exactly when the texture is created |
| Textures.DefaultCreate | src/asmith/open_gl/texture_2d.cpp:19-33 | with the defaults, create pushes the border colour and generates no mipmaps |
| VertexArrays.New | src/asmith/open_gl/vertex_array.cpp:20-25 | construction generates a handle and throws exactly when it is 0; both lists start empty |
| VertexArrays.Finalize | src/asmith/open_gl/vertex_array.cpp:27-31 | the destructor deletes the handle exactly when it is non-zero |
| VertexArrays.AddAttribute | src/asmith/open_gl/vertex_array.cpp:33-49 | the `bufferId` parameter stands for `mBuffers[attrib]->get_id()`, the handle of the buffer just appended. add_attribute returns the new attribute's index and appends the attribute and the buffer in lockstep. It throws, with no GL call, exactly when the buffer on ARRAY_BUFFER is mapped. Otherwise it binds, points the attribute, then restores the previous ARRAY_BUFFER binding (or 0) and unbinds the array |
| VertexArrays.Draw | src/asmith/open_gl/vertex_array.cpp:51-59 | draw_arrays does nothing on an uncreated array. Otherwise it binds, enables attributes 0..n-1, draws once, disables 0..n-1 and unbinds |
| VertexArrays.DrawBracketBalanced | src/asmith/open_gl/vertex_array.cpp:51-59 | in the draw sequence an attribute index is enabled exactly when it is disabled, exactly for indices below the attribute count, and the one draw call sits between the two |
| VertexBuffers.New | src/asmith/open_gl/vertex_buffer.cpp:19-24 | the default buffer has no target, no data, size 0 and usage GL_INVALID_ENUM |
| VertexBuffers.NewWithUsage | src/asmith/open_gl/vertex_buffer.cpp:26-31 | the usage constructor stores the usage and nothing else |
| VertexBuffers.SetUsage | src/asmith/open_gl/vertex_buffer.cpp:37-40 | set_usage always reports failure and changes nothing |
| VertexBuffers.GetUsage | src/asmith/open_gl/vertex_buffer.cpp:42-44 | get_usage reports the stored usage: GL_INVALID_ENUM by default, the constructor's argument otherwise, and no member changes it |
| VertexBuffers.SetData | src/asmith/open_gl/vertex_buffer.cpp:46-49 | set_data stores the pointer and size and leaves target and usage |
| VertexBuffers.RunStub | src/asmith/open_gl/vertex_buffer.cpp:51-65 | bind and unbind report failure; none of bind, unbind, create and destroy issues a call, throws or changes the buffer |
| VertexBuffers.UsageFixedAtConstruction | src/asmith/open_gl/vertex_buffer.cpp:26-65 | the usage given at construction survives set_usage, set_data, bind and destroy |
| Lights.NewLight | src/asmith/open_gl/light.cpp:29-32 | a new light has its id and is disabled |
| Lights.GetLight | src/asmith/open_gl/light.cpp:22-26 | ids outside [LIGHT0, LIGHT0 + GL_MAX_LIGHTS) give nothing and change nothing. A valid id returns its light, constructing it disabled on first request and keeping every other entry. The registry stays keyed by id |
| Lights.GetLightStable | src/asmith/open_gl/light.cpp:22-26 | a second request for the same id returns the same light and leaves the registry unchanged |
| Lights.IsEnabled | src/asmith/open_gl/light.cpp:50-52 | is_enabled reports the flag that a new light has clear, enable sets and disable clears |
| Lights.EnableLight | src/asmith/open_gl/light.cpp:38-42 | enable issues one glEnable of the light's id only when the light was disabled, leaves it enabled, and touches no other light |
| Lights.DisableLight | src/asmith/open_gl/light.cpp:44-48 | disable issues one glDisable only when the light was enabled, leaves it disabled, and touches no other light |
| Lights.EnableDisableIdempotent | src/asmith/open_gl/light.cpp:38-48 | enabling (disabling) twice gives the state and trace of doing it once |
| Lights.EnableThenDisable | src/asmith/open_gl/light.cpp:38-48 | enabling a disabled light and disabling it again restores the registry and issues exactly one glEnable and one glDisable |
| Lights.GetLightFromArray | src/asmith/open_gl/light.cpp:18-26 | as written, the array has GL_MAX_LIGHTS entries and is indexed by the raw id: the access is out of bounds exactly for the ids the range check accepts |
| Lights.ArrayIndexAlwaysOutOfBounds | src/asmith/open_gl/light.cpp:18-23 | every accepted id, GL_LIGHT0 included, is at least the array length |
| Binding.Construct | Include/ObjectGL/Bindable.hpp:61-66 | the guard stores the bindable and the parameters and binds once with them |
| Binding.Destruct | Include/ObjectGL/Bindable.hpp:68-70 | the guard's destructor unbinds once with the stored parameters. Because the destructor is implicitly noexcept, it terminates the program exactly when that unbind throws |
| Binding.Scope | Include/ObjectGL/Bindable.hpp:55-71 | a guarded scope does nothing more if binding throws. Otherwise it runs the body and always unbinds, even when the body throws. A throwing unbind terminates the program, whether or not the body threw. Otherwise the scope leaves with the body's status, and the traces are concatenated in order |
| Binding.ScopeRestores | Include/ObjectGL/Bindable.hpp:55-71 | for a bindable whose unbind undoes its bind without throwing, a scope around a balanced body leaves normally with the body's status and the state as it found it |
| Binding.ProgramScopeTerminatesWhenBodyUnbinds | Include/ObjectGL/Bindable.hpp:68-70 | a guarded scope around a body that unbinds the guarded program itself, on a stack where it was not bound before, ends in std::terminate |
| Binding.ProgramBindable | Include/ObjectGL/Bindable.hpp:38-47 | a program over the bind stack implements the interface: bind pushes, unbind is program unbind on any non-empty stack |
| Binding.ProgramUnbindUndoesBind | src/asmith/open_gl/program.cpp:48-64 | on the program stack unbind always undoes bind |
| Binding.ProgramScopeRestoresTop | Include/ObjectGL/Bindable.hpp:55-71 | a guarded program scope restores the stack, makes the guarded program active first, and ends by re-activating the previous top (or 0) |
| ObjFormat.KindOf | src/asmith/open_gl/obj.cpp:142-162 | a record is a face exactly for `f`, a texture coordinate for `vt`, a normal for `vn`, a vertex for any other `v`, and unexpected for any other leading character |
| ObjFormat.ReadCorner | src/asmith/open_gl/obj.cpp:95-103 | a corner keeps its vertex and normal indices; an empty texture slot reads as 1 |
| ObjFormat.ReadTriangle | src/asmith/open_gl/obj.cpp:95-123 | a face reads its three corners in order |
| ObjFormat.Dispatch | src/asmith/open_gl/obj.cpp:142-160 | each record appends one entry to the list of its kind and changes no other list |
| ObjFormat.ParseCounts | src/asmith/open_gl/obj.cpp:140-165 | with one pass of the loop body per record, each list holds exactly one entry per record of its kind |
| ObjFormat.ParseExtends | src/asmith/open_gl/obj.cpp:140-165 | reading further records only appends: the lists after a prefix are prefixes of the final lists |
| ObjFormat.ParsePosition | src/asmith/open_gl/obj.cpp:140-165 | the record at position i lands in its kind's list at the index given by the number of earlier records of that kind |
| ObjFormat.WithDefaults | src/asmith/open_gl/obj.cpp:167-169 | an empty vertex list gets (0,0,0), empty texture coordinates (0,0), empty normals (0,0,1); non-empty lists and faces are untouched |
| ObjFormat.Load | src/asmith/open_gl/obj.cpp:20-170 | load as intended, with one pass per record, discards the previous contents. It succeeds exactly when no record has an unexpected leading character, and then every list is non-empty. The first unexpected record throws, leaving exactly what the earlier records produced, with no defaults |
| ObjFormat.LoadDefaults | src/asmith/open_gl/obj.cpp:134-169 | after a successful intended load a list holds its default exactly when no record of its kind was read, and otherwise one entry per such record; the face count equals the number of face records |
| ObjFormat.LoadAsWritten | src/asmith/open_gl/obj.cpp:134-169 | load as written agrees with the intended load when an unexpected record throws, and when the text ends inside the last number. After a final newline the last line is dispatched again: a `v` line appends one more vertex, a `vt` or `vn` line throws, an `f` line is undefined behaviour. With no record at all it is undefined behaviour |
| ObjFormat.TrailingNewlineRunsLastLineAgain | src/asmith/open_gl/obj.cpp:140-165 | "v 0 0 0" and a newline loads two vertices as written and one as intended; "vn 0 0 1" and a newline throws as written and loads as intended |
| ObjFormat.Lookup | src/asmith/open_gl/obj.cpp:184-186 | a corner's vertex takes its position, texture coordinate and normal from the entries at the corner's 1-based indices, index k being the entry with k - 1 entries before it |
| ObjFormat.LookupFindsRecords | src/asmith/open_gl/obj.cpp:140-186 | after a successful load, a corner whose vertex index is k takes the numbers of the k-th `v` record of the file, and likewise for `vt` and `vn` records |
| ObjFormat.Flatten | src/asmith/open_gl/obj.cpp:179-188 | create_vao builds exactly three vertices per face; vertex 3i+j takes the entries at the 1-based indices of corner j of face i |
| ColourFormat.WithBitOf | Include/ObjectGL/ColourFormat.hpp:59-64 | clearing the destination mask and setting it when the tested bit is 1 makes that bit equal the tested bit and leaves the other seven |
| ColourFormat.CopyBitsAsWritten | Include/ObjectGL/ColourFormat.hpp:49-68 | the bit loop as written runs BITS iterations. Iteration k writes only destination bit dstOffset+k, from the source byte at the running offset under the mask of the initial offset's bit position. Every other destination bit is unchanged |
| ColourFormat.AsWrittenDropsSecondBit | Include/ObjectGL/ColourFormat.hpp:55-58 | copying two bits from offset 0 of the byte 0b10 writes 0 into destination bit 1 although source bit 1 is 1 |
| ColourFormat.CopyBits | Include/ObjectGL/ColourFormat.hpp:36-70 | the intended copy: each destination bit in [dstOffset, dstOffset+BITS) equals the source bit at the same distance from srcOffset, and all other destination bits are unchanged |
| ColourFormat.FormatFits | Include/ObjectGL/ColourFormat.hpp:85-123 | each format's BitDepth fits its Type (R 8/8, RG 16/16, RGB 24/32, RGBA 32/32) and is a whole number of bytes |
| ColourFormat.ReadWriteAlwaysAligned | Include/ObjectGL/ColourFormat.hpp:73-83 | Read and Write always satisfy the byte-aligned test, so they always take the memcpy branch |
| ColourFormat.Write | Include/ObjectGL/ColourFormat.hpp:80-83 | Write puts the value's BitDepth low bits at bit offset aOffset*BitDepth and leaves every other bit of the buffer; the value is taken as little-endian bytes |
| ColourFormat.Read | Include/ObjectGL/ColourFormat.hpp:73-78 | Read takes BitDepth bits from bit offset aOffset*BitDepth into a zeroed element, as its little-endian low bytes; the bits above BitDepth stay 0 |
| ColourFormat.ReadAfterWrite | Include/ObjectGL/ColourFormat.hpp:73-83 | reading the element just written returns every bit written |
| ColourFormat.ReadOtherAfterWrite | Include/ObjectGL/ColourFormat.hpp:73-83 | writing one element leaves every bit of every other element |
| BinaryData.ContainerFor | Include/ObjectGL/BinaryData.hpp:45-93 | 0 bytes map to no storage, 1 to 8 bytes to a fixed-width integer, more than 8 to Large |
| BinaryData.ContainerFits | Include/ObjectGL/BinaryData.hpp:45-93 | the chosen container holds at least the requested bytes (1, 2, 4 or 8 for 1, 2, 3-4 and 5-8) and is the narrowest fixed-width type that does; above 8 it holds exactly that many |
| BinaryData.NewLarge | Include/ObjectGL/BinaryData.hpp:35-43 | the Large constructor makes exactly BYTES bytes, each equal to the given value |
| BinaryData.LargeFillsContainer | Include/ObjectGL/BinaryData.hpp:35-48 | above 8 bytes the Large block's size is the container width and every byte is the fill value |
| GlVersion.Configured | include/asmith/open_gl/core.hpp:19-22 | with no configured version the version is 4.0; otherwise it is the configured one |
| GlVersion.ComparisonsConsistent | include/asmith/open_gl/core.hpp:24-29 | GT and LT are lexicographic (major, then minor) strict orders, and EQ is equality. GE is GT or EQ, LT is not GE, LE is not GT, NEQ is not EQ, and exactly one of GT, EQ, LT holds |
| GlVersion.BeforeIsStrictOrder | include/asmith/open_gl/core.hpp:24 | the lexicographic order behind the macros is irreflexive, transitive and asymmetric |
| GlVersion.DefaultAvailability | src/asmith/open_gl/shader.cpp:146-173 | with the default version 4.0 the tessellation shader classes are compiled in and the compute class is not; a version no earlier than the default keeps every class the default has |

## Left out

- GL side effects: every GL call is an opaque trace event. Link and compile
  success, the info log and allocated handles are inputs.
- The aligned `memcpy` branch of CopyBits (ColourFormat.hpp:43-47): its
  source and destination are swapped, and it writes through the const source
  pointer. Every format takes this branch, so `ColourFormat.Read` and
  `ColourFormat.Write` state the copy the functions evidently intend.
- ColourFormat.Read: the source returns CopyBits's void result instead of
  the temporary (ColourFormat.hpp:76). The model returns the temporary. It
  fills the element byte by byte, so it reads little-endian like
  `ColourFormat.Write`.
- ColourFormat.CopyBitsAsWritten: offsets are unbounded naturals, not 32-bit
  GLuint, and source and destination are separate buffers (no aliasing).
- Number tokenisation in obj.cpp (`>>` into floats and integers,
  `tellg`/`seekg`/`peek` within a line). Records arrive pre-split with opaque
  numbers, and a malformed number inside a line is not modelled. The failed
  reads at the end of the text are modelled by `ObjFormat.LoadAsWritten`.
- `end_line` (obj.cpp:22-27) when the end of the text is reached inside its
  loop. The condition `aStream.eof() || buf != '\n'` then stays true for
  ever. This happens for a last line with text after its final number and no
  newline; `ObjFormat.Ending` has no case for such text. When the end-of-file
  flag is already set on entry, end_line returns at once, and the model
  follows that.
- A stream handed to obj::load with its end-of-file flag already set. The
  loop body then never runs. The model takes a stream that has not been read
  to its end.
- The GPU-upload half of `create_vao` (obj.cpp:190-200).
- ObjFormat.Flatten: requires every face index to lie in 1..length. The
  source indexes the vectors without a check, which is undefined behaviour
  otherwise.
- Shader limit queries (shader.cpp:74-224 apart from get_type): they return
  GL enum constants.
- material.cpp, float parameters of lights, and colour arithmetic:
  floating-point values pushed to GL. The border colour is kept as opaque
  bits.
- `vertex_array::create`/`destroy`: their definitions are not part of this
  model.
- The context/registry lookup `vertex_buffer::get_buffer_bound_to`: its
  result is the `previous` input of `VertexArrays.AddAttribute`.
- ProgramBinding.Unbind: requires a non-empty stack, because `back()` on an
  empty stack is undefined behaviour in the source.
- ProgramBinding.IsCurrentlyBound: requires a non-empty stack, for the same
  reason.
- Lights.EnableLight: operates on a light already in the registry, as
  obtained from `GetLight`. The source calls it on the light object itself.
- Lights.DisableLight: the same as `Lights.EnableLight`.
- Programs.Finalize: models the evident intent, "destroy if still created".
  As written, `program::~program` (program.cpp:23-25) is empty. Then
  `object::~object` (object.cpp:24-26) calls the pure virtual `destroy()`,
  which is undefined behaviour. Program's destroy is the only one that can
  throw, and the intended destructor calls it only on a created program.
- Shaders.Finalize: the same intent; `shader::~shader` (shader.cpp:25-27) is
  empty, and the base destructor's call of `destroy()` is undefined
  behaviour.
- Textures.Finalize: the same intent; `texture_2d::~texture_2d`
  (texture_2d.cpp:35-37) is empty, and the base destructor's call of
  `destroy()` is undefined behaviour.
- `object::is_created`: it is declared (object.hpp:45) but defined nowhere
  in the sources. The model takes it to be `mID != INVALID_ID` (`Gl.IsCreated`),
  the same test as the bool conversion.
- Binding.Scope: requires the guard's unbind to be defined on the state the
  body leaves. For the program stack that means a non-empty stack, because
  `back()` on an empty stack is undefined behaviour.
- ColourFormat.Write: it copies from `&aValue` byte by byte, so "the value's
  low bits" holds on a little-endian machine. A big-endian layout is not
  modelled.
- The 32-bit truncation of handles, attribute indices and `GLsizei` values:
  integers are unbounded.
- BinaryData.ContainerFor: requires BYTES to fit in 32 bits, the width of
  the template parameter.

## Findings

| source | as written | input that shows it | evidently intended | confidence | as-written member | corrected member |
|---|---|---|---|---|---|---|
| src/asmith/open_gl/light.cpp:18-25 | `LIGHTS` has `GL_MAX_LIGHTS` entries (0x0D31, a query token, not the limit) and is indexed by the raw id, which is at least `GL_LIGHT0` = 0x4000 | `get_light(GL_LIGHT0)` indexes entry 0x4000 of a 0x0D31-entry array | one registry slot per light, indexed by `aID - GL_LIGHT0` | not executed | Lights.GetLightFromArray | Lights.GetLight |
| src/asmith/open_gl/obj.cpp:140-165 | `while(! aStream.eof())` tests end-of-file before `aStream >> c` reads. After a last line that ends in a newline, that read fails and leaves `c` as the previous pass set it, and the body runs again | "v 0 0 0" and a newline gives two vertices; "vn 0 0 1" and a newline throws "Unexpected character found" | `while(aStream >> c)`: one pass per record | not executed | ObjFormat.LoadAsWritten | ObjFormat.Load |
| Include/ObjectGL/ColourFormat.hpp:58 | the source mask is `1 << (aSrcOffset & 7)`, using the initial offset, so every iteration tests the same bit position | BITS = 2, offset 0, source byte 0b10: destination bit 1 becomes 0 | `1 << (srcOffset & 7)`, the running offset | not executed | ColourFormat.CopyBitsAsWritten | ColourFormat.CopyBits |
