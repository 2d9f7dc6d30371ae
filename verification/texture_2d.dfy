/** texture_2d.cpp: the 2D texture's parameter record, its getters and
    setters, and the GL calls of create, destroy, bind and load_raw. */
module Textures {
  import opened Gl

  datatype Texture = Texture(
    id: Handle,
    borderColour: Colour,
    target: Enum,
    internalFormat: int,
    level: int,
    width: int,
    height: int,
    border: int,
    format: Enum,
    pixelType: Enum,
    wrap: Enum,
    filter: Enum,
    mipmaps: bool)

  /** The parameters that have a setter (width and height are only set by
      load_raw). */
  datatype Param =
    | Target | Level | Border | Format | PixelType | BorderColour
    | Filter | Mipmaps | InternalFormat | Wrap

  /** A parameter value: GLenum, GLint, bool or vec4f. */
  datatype Value =
    | EnumValue(e: Enum)
    | IntValue(i: int)
    | FlagValue(b: bool)
    | ColourValue(c: Colour)

  /** The value kind each setter takes. */
  predicate Fits(p: Param, v: Value) {
    match p
    case Target => v.EnumValue?
    case Format => v.EnumValue?
    case PixelType => v.EnumValue?
    case Filter => v.EnumValue?
    case Wrap => v.EnumValue?
    case Level => v.IntValue?
    case Border => v.IntValue?
    case InternalFormat => v.IntValue?
    case Mipmaps => v.FlagValue?
    case BorderColour => v.ColourValue?
  }

  /** texture_2d::texture_2d */
  function New(): (t: Texture)
    ensures !IsCreated(t.id)
    ensures Get(t, Target) == EnumValue(GL_TEXTURE_2D)
    ensures Get(t, InternalFormat) == IntValue(GL_RGB) && Get(t, Format) == EnumValue(GL_RGB)
    ensures Get(t, PixelType) == EnumValue(GL_FLOAT)
    ensures Get(t, Wrap) == EnumValue(GL_CLAMP_TO_BORDER) && Get(t, Filter) == EnumValue(GL_LINEAR)
    ensures Get(t, Level) == IntValue(0) && Get(t, Border) == IntValue(0)
    ensures Size(t) == (0, 0)
    ensures Get(t, Mipmaps) == FlagValue(false)
    ensures Get(t, BorderColour) == ColourValue(Colour(FLOAT_ZERO, FLOAT_ZERO, FLOAT_ZERO, FLOAT_ONE))
  {
    Texture(INVALID, Colour(FLOAT_ZERO, FLOAT_ZERO, FLOAT_ZERO, FLOAT_ONE),
            GL_TEXTURE_2D, GL_RGB, 0, 0, 0, 0, GL_RGB, GL_FLOAT, GL_CLAMP_TO_BORDER, GL_LINEAR, false)
  }

  /** The getters. */
  function Get(t: Texture, p: Param): (v: Value)
    ensures Fits(p, v)
  {
    match p
    case Target => EnumValue(t.target)
    case Level => IntValue(t.level)
    case Border => IntValue(t.border)
    case Format => EnumValue(t.format)
    case PixelType => EnumValue(t.pixelType)
    case BorderColour => ColourValue(t.borderColour)
    case Filter => EnumValue(t.filter)
    case Mipmaps => FlagValue(t.mipmaps)
    case InternalFormat => IntValue(t.internalFormat)
    case Wrap => EnumValue(t.wrap)
  }

  /** The setters: each changes its own field and nothing else. */
  function Set(t: Texture, p: Param, v: Value): (r: Texture)
    requires Fits(p, v)
    ensures Get(r, p) == v
    ensures forall q :: q != p ==> Get(r, q) == Get(t, q)
    ensures r.id == t.id && Size(r) == Size(t)
  {
    match p
    case Target => t.(target := v.e)
    case Level => t.(level := v.i)
    case Border => t.(border := v.i)
    case Format => t.(format := v.e)
    case PixelType => t.(pixelType := v.e)
    case BorderColour => t.(borderColour := v.c)
    case Filter => t.(filter := v.e)
    case Mipmaps => t.(mipmaps := v.b)
    case InternalFormat => t.(internalFormat := v.i)
    case Wrap => t.(wrap := v.e)
  }

  /** The last value set is the one read back, and setters of different
      parameters commute. */
  lemma SettersIndependent(t: Texture, p: Param, v: Value, q: Param, w: Value)
    requires Fits(p, v) && Fits(q, w)
    ensures p == q ==> Set(Set(t, p, v), q, w) == Set(t, q, w)
    ensures p != q ==> Set(Set(t, p, v), q, w) == Set(Set(t, q, w), p, v)
  {
  }

  /** texture_2d::destroy: a no-op when uncreated. */
  function Destroy(t: Texture): (r: Step<Texture>)
    ensures r.status == Ok && !IsCreated(r.state.id)
    ensures forall p :: Get(r.state, p) == Get(t, p)
    ensures !IsCreated(t.id) ==> r.state == t && r.calls == []
    ensures IsCreated(t.id) ==> r.calls == [DeleteTextures(t.id)]
  {
    if !IsCreated(t.id) then Step(t, [], Ok)
    else Step(t.(id := INVALID), [DeleteTextures(t.id)], Ok)
  }

  /** The calls of texture_2d::create once any previous texture is gone:
      generate, bind, push wrap, border colour and filter parameters,
      generate mipmaps, unbind. */
  function SetupCalls(t: Texture, issued: Handle): (r: seq<Call>)
    ensures var border := if t.wrap == GL_CLAMP_TO_BORDER then 1 else 0;
            var mipmaps := if t.mipmaps then 1 else 0;
            && |r| == 7 + border + mipmaps
            && r[0] == GenTextures(issued) && r[1] == BindTexture(t.target, issued)
            && r[2] == TexParameteri(t.target, GL_TEXTURE_WRAP_S, t.wrap)
            && r[3] == TexParameteri(t.target, GL_TEXTURE_WRAP_T, t.wrap)
            && (border == 1 ==> r[4] == TexParameterBorderColour(t.target, t.borderColour))
            && r[4 + border] == TexParameteri(t.target, GL_TEXTURE_MIN_FILTER, t.filter)
            && r[5 + border] == TexParameteri(t.target, GL_TEXTURE_MAG_FILTER, t.filter)
            && (mipmaps == 1 ==> r[6 + border] == GenerateMipmap(t.target))
            && r[|r| - 1] == BindTexture(t.target, INVALID)
  {
    var generate := GenTextures(issued);
    var bind := BindTexture(t.target, issued);
    var wrapS := TexParameteri(t.target, GL_TEXTURE_WRAP_S, t.wrap);
    var wrapT := TexParameteri(t.target, GL_TEXTURE_WRAP_T, t.wrap);
    var border := TexParameterBorderColour(t.target, t.borderColour);
    var minFilter := TexParameteri(t.target, GL_TEXTURE_MIN_FILTER, t.filter);
    var magFilter := TexParameteri(t.target, GL_TEXTURE_MAG_FILTER, t.filter);
    var mipmap := GenerateMipmap(t.target);
    var unbind := BindTexture(t.target, INVALID);
    // the two optional calls, border colour and mipmaps, give four sequences
    if t.wrap == GL_CLAMP_TO_BORDER && t.mipmaps then
      [generate, bind, wrapS, wrapT, border, minFilter, magFilter, mipmap, unbind]
    else if t.wrap == GL_CLAMP_TO_BORDER then
      [generate, bind, wrapS, wrapT, border, minFilter, magFilter, unbind]
    else if t.mipmaps then
      [generate, bind, wrapS, wrapT, minFilter, magFilter, mipmap, unbind]
    else
      [generate, bind, wrapS, wrapT, minFilter, magFilter, unbind]
  }

  /** The create sequence pushes the border colour exactly when wrapping
      clamps to the border, generates mipmaps exactly when they are enabled,
      and always pushes both wrap and both filter parameters. */
  lemma SetupCallsOptional(t: Texture, issued: Handle)
    ensures var r := SetupCalls(t, issued);
            && (TexParameterBorderColour(t.target, t.borderColour) in r <==> t.wrap == GL_CLAMP_TO_BORDER)
            && (GenerateMipmap(t.target) in r <==> t.mipmaps)
            && TexParameteri(t.target, GL_TEXTURE_WRAP_S, t.wrap) in r
            && TexParameteri(t.target, GL_TEXTURE_WRAP_T, t.wrap) in r
            && TexParameteri(t.target, GL_TEXTURE_MIN_FILTER, t.filter) in r
            && TexParameteri(t.target, GL_TEXTURE_MAG_FILTER, t.filter) in r
  {
    var r := SetupCalls(t, issued);
    var border := if t.wrap == GL_CLAMP_TO_BORDER then 1 else 0;
    assert r[2] == TexParameteri(t.target, GL_TEXTURE_WRAP_S, t.wrap);
    assert r[3] == TexParameteri(t.target, GL_TEXTURE_WRAP_T, t.wrap);
    assert r[4 + border] == TexParameteri(t.target, GL_TEXTURE_MIN_FILTER, t.filter);
    assert r[5 + border] == TexParameteri(t.target, GL_TEXTURE_MAG_FILTER, t.filter);
    if t.wrap == GL_CLAMP_TO_BORDER {
      assert r[4] == TexParameterBorderColour(t.target, t.borderColour);
    } else {
      assert forall i :: 0 <= i < |r| ==> !r[i].TexParameterBorderColour?;
    }
    if t.mipmaps {
      assert r[6 + border] == GenerateMipmap(t.target);
    } else {
      assert forall i :: 0 <= i < |r| ==> !r[i].GenerateMipmap?;
    }
  }

  /** texture_2d::create: destroy first if created; `issued` is what
      glGenTextures returns (the source does not check it). */
  function Create(t: Texture, issued: Handle): (r: Step<Texture>)
    ensures r.status == Ok && r.state.id == issued
    ensures forall p :: Get(r.state, p) == Get(t, p)
    ensures IsCreated(t.id) ==> r.calls == [DeleteTextures(t.id)] + SetupCalls(t, issued)
    ensures !IsCreated(t.id) ==> r.calls == SetupCalls(t, issued)
    ensures r.calls[|r.calls| - 1] == BindTexture(t.target, INVALID)
  {
    var state := t.(id := issued);
    assert forall p :: Get(state, p) == Get(t, p);
    var setup := SetupCalls(t, issued);
    assert setup[|setup| - 1] == BindTexture(t.target, INVALID);
    if IsCreated(t.id) then
      var calls := [DeleteTextures(t.id)] + setup;
      assert calls[|calls| - 1] == setup[|setup| - 1];
      Step(state, calls, Ok)
    else
      Step(state, setup, Ok)
  }

  /** texture_2d::bind */
  function Bind(t: Texture): (calls: seq<Call>)
    ensures calls == [BindTexture(Get(t, Target).e, t.id)]
  {
    [BindTexture(t.target, t.id)]
  }

  /** After create, bind makes the same glBindTexture that create made while
      setting the texture up: the stored target and the handle issued. */
  lemma BindAfterCreate(t: Texture, issued: Handle)
    ensures var created := Create(t, issued).state;
            Bind(created) == [BindTexture(t.target, issued)]
            && Bind(created)[0] == SetupCalls(t, issued)[1]
            && Bind(created)[0] in Create(t, issued).calls
  {
    var setup := SetupCalls(t, issued);
    var created := Create(t, issued);
    assert created.state.id == issued && Get(created.state, Target) == Get(t, Target);
    assert setup[1] == BindTexture(t.target, issued);
    if IsCreated(t.id) {
      assert created.calls == [DeleteTextures(t.id)] + setup;
      assert created.calls[2] == setup[1];
    } else {
      assert created.calls[1] == setup[1];
    }
  }

  /** texture_2d::get_width and texture_2d::get_height. */
  function Size(t: Texture): (r: (int, int))
    ensures r.0 == t.width && r.1 == t.height
  {
    (t.width, t.height)
  }

  /** texture_2d::load_raw: record the size and upload with the stored
      parameters; the pixel pointer is not modelled. */
  function LoadRaw(t: Texture, width: int, height: int): (r: Step<Texture>)
    ensures r.status == Ok && Size(r.state) == (width, height)
    ensures r.state.id == t.id && forall p :: Get(r.state, p) == Get(t, p)
    ensures r.calls == [TexImage2D(t.target, t.level, t.internalFormat, width, height,
                                   t.border, t.format, t.pixelType)]
  {
    Step(t.(width := width, height := height),
         [TexImage2D(t.target, t.level, t.internalFormat, width, height, t.border, t.format, t.pixelType)], Ok)
  }

  /** The object destructor: destroy a texture that is still created. */
  function Finalize(t: Texture): (r: Step<Texture>)
    ensures r.status == Ok && !IsCreated(r.state.id)
    ensures DeleteTextures(t.id) in r.calls <==> IsCreated(t.id)
  {
    if IsCreated(t.id) then Destroy(t) else Step(t, [], Ok)
  }

  /** With the default parameters, create pushes the border colour (the
      default wrap is CLAMP_TO_BORDER) and generates no mipmaps. */
  lemma DefaultCreate(issued: Handle)
    ensures var r := Create(New(), issued);
            TexParameterBorderColour(GL_TEXTURE_2D, New().borderColour) in r.calls
            && GenerateMipmap(GL_TEXTURE_2D) !in r.calls
  {
    SetupCallsOptional(New(), issued);
  }
}
