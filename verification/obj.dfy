/** obj.cpp: the Wavefront OBJ reader's record dispatch, the defaults it
    inserts for empty lists, and the face-to-vertex flattening of create_vao.
    The stream is taken as already split into records; every number is an
    opaque 32-bit pattern. */
module ObjFormat {
  import opened Gl

  datatype Vec2 = Vec2(x: FloatBits, y: FloatBits)
  datatype Vec3 = Vec3(x: FloatBits, y: FloatBits, z: FloatBits)

  /** One `v/t/n` corner as it appears in the text; `texture` is None for
      the `v//n` form. */
  datatype CornerToken = CornerToken(vertex: nat, texture: Option<nat>, normal: nat)

  /** obj::face: 1-based indices into the three lists. */
  datatype FaceCorner = FaceCorner(vertex: nat, textureCoordinate: nat, normal: nat)

  /** obj::triangle */
  datatype Triangle = Triangle(p0: FaceCorner, p1: FaceCorner, p2: FaceCorner)

  /** One line of the file: its leading character, the character after it
      (what peek sees), the numbers the stream extraction yields and the
      three corner tokens. Which fields are read depends on the kind. */
  datatype Record = Record(lead: char, next: char, numbers: Vec3,
                           c0: CornerToken, c1: CornerToken, c2: CornerToken)

  /** obj: the four lists the reader fills. */
  datatype Obj = Obj(vertices: seq<Vec3>, normals: seq<Vec3>,
                     textureCoordinates: seq<Vec2>, faces: seq<Triangle>)

  datatype Kind = FaceLine | TextureLine | NormalLine | VertexLine | Unexpected

  /** The dispatch on the leading character, and for `v` on the next one. */
  function KindOf(r: Record): (k: Kind)
    ensures k == FaceLine <==> r.lead == 'f'
    ensures k == TextureLine <==> r.lead == 'v' && r.next == 't'
    ensures k == NormalLine <==> r.lead == 'v' && r.next == 'n'
    ensures k == VertexLine <==> r.lead == 'v' && r.next != 't' && r.next != 'n'
    ensures k == Unexpected <==> r.lead != 'f' && r.lead != 'v'
  {
    match r.lead
    case 'f' => FaceLine
    case 'v' => if r.next == 't' then TextureLine else if r.next == 'n' then NormalLine else VertexLine
    case _ => Unexpected
  }

  /** Corner j of a triangle. */
  function Point(t: Triangle, j: nat): (c: FaceCorner)
    requires j < 3
    ensures c == [t.p0, t.p1, t.p2][j]
  {
    if j == 0 then t.p0 else if j == 1 then t.p1 else t.p2
  }

  /** Reading one corner: an empty texture slot reads as index 1. */
  function ReadCorner(c: CornerToken): (f: FaceCorner)
    ensures f.vertex == c.vertex && f.normal == c.normal
    ensures c.texture.None? ==> f.textureCoordinate == 1
    ensures c.texture.Some? ==> f.textureCoordinate == c.texture.value
  {
    FaceCorner(c.vertex, if c.texture.None? then 1 else c.texture.value, c.normal)
  }

  /** read_read_triangle: the three corners in order. */
  function ReadTriangle(r: Record): (t: Triangle)
    ensures forall j :: 0 <= j < 3 ==> Point(t, j) == ReadCorner([r.c0, r.c1, r.c2][j])
  {
    Triangle(ReadCorner(r.c0), ReadCorner(r.c1), ReadCorner(r.c2))
  }

  /** One pass of the loop body for a record that is not unexpected: append
      to the list its kind selects; an unexpected record changes nothing
      here (the loop throws before reaching it). */
  function Dispatch(o: Obj, r: Record): (o': Obj)
    ensures KindOf(r) == FaceLine ==> o' == o.(faces := o.faces + [ReadTriangle(r)])
    ensures KindOf(r) == TextureLine ==>
              o' == o.(textureCoordinates := o.textureCoordinates + [Vec2(r.numbers.x, r.numbers.y)])
    ensures KindOf(r) == NormalLine ==> o' == o.(normals := o.normals + [r.numbers])
    ensures KindOf(r) == VertexLine ==> o' == o.(vertices := o.vertices + [r.numbers])
    ensures KindOf(r) == Unexpected ==> o' == o
  {
    match KindOf(r)
    case FaceLine => o.(faces := o.faces + [ReadTriangle(r)])
    case TextureLine => o.(textureCoordinates := o.textureCoordinates + [Vec2(r.numbers.x, r.numbers.y)])
    case NormalLine => o.(normals := o.normals + [r.numbers])
    case VertexLine => o.(vertices := o.vertices + [r.numbers])
    case Unexpected => o
  }

  const Empty := Obj([], [], [], [])

  /** The lists after reading every record of rs in order, starting cleared. */
  function Parse(rs: seq<Record>): Obj
  {
    if |rs| == 0 then Empty else Dispatch(Parse(rs[..|rs| - 1]), rs[|rs| - 1])
  }

  /** How many records of rs have kind k. */
  function Count(rs: seq<Record>, k: Kind): nat
  {
    if |rs| == 0 then 0
    else Count(rs[..|rs| - 1], k) + (if KindOf(rs[|rs| - 1]) == k then 1 else 0)
  }

  /** Each list holds one entry per record of its kind. */
  lemma {:induction false} ParseCounts(rs: seq<Record>)
    ensures |Parse(rs).vertices| == Count(rs, VertexLine)
    ensures |Parse(rs).textureCoordinates| == Count(rs, TextureLine)
    ensures |Parse(rs).normals| == Count(rs, NormalLine)
    ensures |Parse(rs).faces| == Count(rs, FaceLine)
  {
    if |rs| > 0 {
      ParseCounts(rs[..|rs| - 1]);
    }
  }

  /** Reading more records only appends: the lists after a prefix are
      prefixes of the lists after the whole. */
  lemma {:induction false} ParseExtends(rs: seq<Record>, n: nat)
    requires n <= |rs|
    ensures Parse(rs[..n]).vertices <= Parse(rs).vertices
    ensures Parse(rs[..n]).textureCoordinates <= Parse(rs).textureCoordinates
    ensures Parse(rs[..n]).normals <= Parse(rs).normals
    ensures Parse(rs[..n]).faces <= Parse(rs).faces
    decreases |rs| - n
  {
    if n < |rs| {
      ParseExtends(rs, n + 1);
      assert rs[..n + 1][..n] == rs[..n];
    } else {
      assert rs[..n] == rs;
    }
  }

  /** The record at position i lands in its kind's list at the position
      given by the number of records of that kind before it. */
  lemma ParsePosition(rs: seq<Record>, i: nat)
    requires i < |rs|
    ensures KindOf(rs[i]) == VertexLine ==>
              && Count(rs[..i], VertexLine) < |Parse(rs).vertices|
              && Parse(rs).vertices[Count(rs[..i], VertexLine)] == rs[i].numbers
    ensures KindOf(rs[i]) == NormalLine ==>
              && Count(rs[..i], NormalLine) < |Parse(rs).normals|
              && Parse(rs).normals[Count(rs[..i], NormalLine)] == rs[i].numbers
    ensures KindOf(rs[i]) == TextureLine ==>
              && Count(rs[..i], TextureLine) < |Parse(rs).textureCoordinates|
              && Parse(rs).textureCoordinates[Count(rs[..i], TextureLine)] == Vec2(rs[i].numbers.x, rs[i].numbers.y)
    ensures KindOf(rs[i]) == FaceLine ==>
              && Count(rs[..i], FaceLine) < |Parse(rs).faces|
              && Parse(rs).faces[Count(rs[..i], FaceLine)] == ReadTriangle(rs[i])
  {
    assert rs[..i + 1][..i] == rs[..i];
    ParseCounts(rs[..i]);
    ParseCounts(rs[..i + 1]);
    ParseExtends(rs, i + 1);
  }

  /** No record of kind k is counted exactly when none is present. */
  lemma {:induction false} CountZero(rs: seq<Record>, k: Kind)
    ensures Count(rs, k) == 0 <==> forall i :: 0 <= i < |rs| ==> KindOf(rs[i]) != k
  {
    if |rs| > 0 {
      CountZero(rs[..|rs| - 1], k);
      assert forall i :: 0 <= i < |rs| - 1 ==> rs[..|rs| - 1][i] == rs[i];
    }
  }

  /** The kind of every record, in order. */
  function Kinds(rs: seq<Record>): (ks: seq<Kind>)
    ensures |ks| == |rs| && forall i :: 0 <= i < |rs| ==> ks[i] == KindOf(rs[i])
  {
    seq(|rs|, i requires 0 <= i < |rs| => KindOf(rs[i]))
  }

  /** The defaults of obj.cpp:167-169 for lists left empty. */
  function WithDefaults(o: Obj): (d: Obj)
    ensures d.faces == o.faces
    ensures |o.vertices| > 0 ==> d.vertices == o.vertices
    ensures |o.vertices| == 0 ==> d.vertices == [Vec3(FLOAT_ZERO, FLOAT_ZERO, FLOAT_ZERO)]
    ensures |o.textureCoordinates| > 0 ==> d.textureCoordinates == o.textureCoordinates
    ensures |o.textureCoordinates| == 0 ==> d.textureCoordinates == [Vec2(FLOAT_ZERO, FLOAT_ZERO)]
    ensures |o.normals| > 0 ==> d.normals == o.normals
    ensures |o.normals| == 0 ==> d.normals == [Vec3(FLOAT_ZERO, FLOAT_ZERO, FLOAT_ONE)]
  {
    Obj(if |o.vertices| == 0 then [Vec3(FLOAT_ZERO, FLOAT_ZERO, FLOAT_ZERO)] else o.vertices,
        if |o.normals| == 0 then [Vec3(FLOAT_ZERO, FLOAT_ZERO, FLOAT_ONE)] else o.normals,
        if |o.textureCoordinates| == 0 then [Vec2(FLOAT_ZERO, FLOAT_ZERO)] else o.textureCoordinates,
        o.faces)
  }

  /** obj::load as evidently intended: one pass of the loop body per record
      (a loop that stops once no character can be read). `previous` is what
      the object held before; it is cleared first and never reaches the
      result. The first unexpected record throws, leaving the lists as the
      records before it made them and inserting no defaults; otherwise every
      record is read and the defaults fill any empty list. */
  function Load(previous: Obj, rs: seq<Record>): (r: (Obj, Status))
    ensures r.1 == Ok <==> forall i :: 0 <= i < |rs| ==> KindOf(rs[i]) != Unexpected
    ensures r.1 == Ok ==> r.0 == WithDefaults(Parse(rs))
    ensures r.1 == Ok ==> |r.0.vertices| > 0 && |r.0.textureCoordinates| > 0 && |r.0.normals| > 0
    ensures r.1 != Ok ==> r.1 == Thrown(UnexpectedCharacter)
                           && exists k :: 0 <= k < |rs| && KindOf(rs[k]) == Unexpected
                                          && (forall i :: 0 <= i < k ==> KindOf(rs[i]) != Unexpected)
                                          && r.0 == Parse(rs[..k])
  {
    match FirstIndexOf(Kinds(rs), Unexpected)
    case None => (WithDefaults(Parse(rs)), Ok)
    case Some(k) => (Parse(rs[..k]), Thrown(UnexpectedCharacter))
  }

  /** A default appears exactly when no record of its kind was read;
      otherwise the list holds one entry per record of its kind. */
  lemma LoadDefaults(previous: Obj, rs: seq<Record>)
    requires Load(previous, rs).1 == Ok
    ensures var o := Load(previous, rs).0;
            && ((forall i :: 0 <= i < |rs| ==> KindOf(rs[i]) != VertexLine) ==>
                  o.vertices == [Vec3(FLOAT_ZERO, FLOAT_ZERO, FLOAT_ZERO)])
            && ((exists i :: 0 <= i < |rs| && KindOf(rs[i]) == VertexLine) ==>
                  |o.vertices| == Count(rs, VertexLine))
    ensures var o := Load(previous, rs).0;
            && ((forall i :: 0 <= i < |rs| ==> KindOf(rs[i]) != TextureLine) ==>
                  o.textureCoordinates == [Vec2(FLOAT_ZERO, FLOAT_ZERO)])
            && ((exists i :: 0 <= i < |rs| && KindOf(rs[i]) == TextureLine) ==>
                  |o.textureCoordinates| == Count(rs, TextureLine))
    ensures var o := Load(previous, rs).0;
            && ((forall i :: 0 <= i < |rs| ==> KindOf(rs[i]) != NormalLine) ==>
                  o.normals == [Vec3(FLOAT_ZERO, FLOAT_ZERO, FLOAT_ONE)])
            && ((exists i :: 0 <= i < |rs| && KindOf(rs[i]) == NormalLine) ==>
                  |o.normals| == Count(rs, NormalLine))
    ensures |Load(previous, rs).0.faces| == Count(rs, FaceLine)
  {
    ParseCounts(rs);
    CountZero(rs, VertexLine);
    CountZero(rs, TextureLine);
    CountZero(rs, NormalLine);
  }

  /** How the text ends after the last record. */
  datatype Ending =
    | AtLastNumber   // the last record's final number runs into the end of the text
    | AfterNewline   // a newline, perhaps with more white space, follows the last record

  /** How a call of obj::load ends. */
  datatype Outcome = Returned | Threw(error: Error) | Undefined

  /** obj::load as written. The loop tests end-of-file before it reads the
      next character, so after a last record followed by a newline the
      extraction of line 141 fails, leaves the character of the last pass in
      place and the body runs once more:
      - after a `v` line, peek fails and read_v3 appends the vector its three
        failed extractions leave behind (`stale`; vec3f is not part of this
        model);
      - after a `vt` or `vn` line, line 149 or 153 has overwritten the
        character with `t` or `n`, which throws;
      - after an `f` line, read_read_triangle copies an uninitialised
        triangle, and its seekg clears the end-of-file flag, so end_line
        loops on an uninitialised character: undefined behaviour.
      With no record at all the very first extraction fails and the
      uninitialised character is dispatched: undefined behaviour. */
  function LoadAsWritten(previous: Obj, rs: seq<Record>, ending: Ending, stale: Vec3): (r: (Obj, Outcome))
    ensures r.1 == Returned <==>
              Load(previous, rs).1 == Ok && |rs| > 0
              && (ending == AfterNewline ==> KindOf(rs[|rs| - 1]) == VertexLine)
    ensures Load(previous, rs).1 != Ok ==> r == (Load(previous, rs).0, Threw(UnexpectedCharacter))
    ensures Load(previous, rs).1 == Ok && |rs| == 0 ==> r == (Empty, Undefined)
    ensures Load(previous, rs).1 == Ok && |rs| > 0 && ending == AtLastNumber ==>
              r == (Load(previous, rs).0, Returned)
    ensures Load(previous, rs).1 == Ok && |rs| > 0 && ending == AfterNewline ==>
              var loaded := Load(previous, rs).0;
              && (KindOf(rs[|rs| - 1]) == VertexLine ==>
                    r == (loaded.(vertices := loaded.vertices + [stale]), Returned))
              && (KindOf(rs[|rs| - 1]) in {TextureLine, NormalLine} ==>
                    r == (Parse(rs), Threw(UnexpectedCharacter)))
              && (KindOf(rs[|rs| - 1]) == FaceLine ==> r == (Parse(rs), Undefined))
  {
    match FirstIndexOf(Kinds(rs), Unexpected)
    case Some(k) => (Parse(rs[..k]), Threw(UnexpectedCharacter))
    case None =>
      assert Load(previous, rs).1 == Ok;
      if |rs| == 0 then (Empty, Undefined)
      else if ending == AtLastNumber then (WithDefaults(Parse(rs)), Returned)
      else
        var parsed := Parse(rs);
        assert ending == AfterNewline;
        match KindOf(rs[|rs| - 1])
        case VertexLine => (WithDefaults(parsed.(vertices := parsed.vertices + [stale])), Returned)
        case FaceLine => (parsed, Undefined)
        case _ => (parsed, Threw(UnexpectedCharacter))
  }

  /** The text "v 0 0 0" and a newline loads two vertices as written and one
      as intended; "vn 0 0 1" and a newline throws as written although its
      only record is expected. */
  lemma TrailingNewlineRunsLastLineAgain(previous: Obj, v: Record, n: Record, stale: Vec3)
    requires KindOf(v) == VertexLine && KindOf(n) == NormalLine
    ensures |LoadAsWritten(previous, [v], AfterNewline, stale).0.vertices| == 2
    ensures |Load(previous, [v]).0.vertices| == 1
    ensures LoadAsWritten(previous, [n], AfterNewline, stale).1 == Threw(UnexpectedCharacter)
    ensures Load(previous, [n]).1 == Ok
  {
    assert [v][..0] == [] && Kinds([v]) == [VertexLine];
    assert [n][..0] == [] && Kinds([n]) == [NormalLine];
    assert Parse([v]).vertices == [v.numbers];
  }

  /** The vertex layout create_vao uploads: position, texture coordinate,
      normal. */
  datatype ModelVertex = ModelVertex(v: Vec3, t: Vec2, n: Vec3)

  /** Every face index lies in 1..length of its list. */
  predicate IndicesInRange(o: Obj) {
    forall i, j :: 0 <= i < |o.faces| && 0 <= j < 3 ==>
      && 1 <= Point(o.faces[i], j).vertex <= |o.vertices|
      && 1 <= Point(o.faces[i], j).textureCoordinate <= |o.textureCoordinates|
      && 1 <= Point(o.faces[i], j).normal <= |o.normals|
  }

  /** The vertex for corner c, looked up by its 1-based indices: index k
      names the list entry with k - 1 entries before it. */
  function Lookup(o: Obj, c: FaceCorner): (m: ModelVertex)
    requires 1 <= c.vertex <= |o.vertices| && 1 <= c.textureCoordinate <= |o.textureCoordinates|
    requires 1 <= c.normal <= |o.normals|
    ensures m.v == o.vertices[c.vertex - 1] && |o.vertices[..c.vertex - 1]| == c.vertex - 1
    ensures m.t == o.textureCoordinates[c.textureCoordinate - 1]
    ensures m.n == o.normals[c.normal - 1]
  {
    ModelVertex(o.vertices[c.vertex - 1], o.textureCoordinates[c.textureCoordinate - 1], o.normals[c.normal - 1])
  }

  /** A corner's indices count records: after a successful load, a corner
      whose vertex index is one more than the number of `v` records before
      record i takes the numbers of record i, and likewise for its texture
      coordinate (`vt` record j) and its normal (`vn` record k). */
  lemma LookupFindsRecords(previous: Obj, rs: seq<Record>, c: FaceCorner, i: nat, j: nat, k: nat)
    requires Load(previous, rs).1 == Ok
    requires i < |rs| && KindOf(rs[i]) == VertexLine && c.vertex == Count(rs[..i], VertexLine) + 1
    requires j < |rs| && KindOf(rs[j]) == TextureLine && c.textureCoordinate == Count(rs[..j], TextureLine) + 1
    requires k < |rs| && KindOf(rs[k]) == NormalLine && c.normal == Count(rs[..k], NormalLine) + 1
    ensures var o := Load(previous, rs).0;
            && 1 <= c.vertex <= |o.vertices|
            && 1 <= c.textureCoordinate <= |o.textureCoordinates|
            && 1 <= c.normal <= |o.normals|
            && Lookup(o, c) == ModelVertex(rs[i].numbers, Vec2(rs[j].numbers.x, rs[j].numbers.y), rs[k].numbers)
  {
    ParsePosition(rs, i);
    ParsePosition(rs, j);
    ParsePosition(rs, k);
  }

  /** create_vao, lines 179-188: three vertices per face, vertex 3i+j built
      from corner j of face i. */
  method Flatten(o: Obj) returns (model: seq<ModelVertex>)
    requires IndicesInRange(o)
    ensures |model| == 3 * |o.faces|
    ensures forall i, j :: 0 <= i < |o.faces| && 0 <= j < 3 ==>
              model[3 * i + j] == Lookup(o, Point(o.faces[i], j))
  {
    model := [];
    var i := 0;
    while i < |o.faces|
      invariant 0 <= i <= |o.faces|
      invariant |model| == 3 * i
      invariant forall a, b :: 0 <= a < i && 0 <= b < 3 ==> model[3 * a + b] == Lookup(o, Point(o.faces[a], b))
    {
      var j := 0;
      while j < 3
        invariant 0 <= j <= 3
        invariant |model| == 3 * i + j
        invariant forall a, b :: 0 <= a < i && 0 <= b < 3 ==> model[3 * a + b] == Lookup(o, Point(o.faces[a], b))
        invariant forall b :: 0 <= b < j ==> model[3 * i + b] == Lookup(o, Point(o.faces[i], b))
      {
        model := model + [Lookup(o, Point(o.faces[i], j))];
        j := j + 1;
      }
      i := i + 1;
    }
  }
}
