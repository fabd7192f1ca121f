/** The asset builder's OBJ-to-mesh converter (`buildMesh`). It reads the OBJ
    text line by line, collects positions, texture coordinates and normals,
    turns every face corner into a vertex (sharing one vertex between corners
    with the same index triple inside a group), splits quads into two
    triangles, cuts groups at `g` lines and writes the mesh file.

    Lines arrive as the chunks `fgets` returns, each with the values `sscanf`
    would read from it already parsed (`ObjLine`); the number parsing itself
    is not modelled. */
module ObjMesh {
  import opened HResults
  import opened MeshFormat
  import opened ObjKey

  /** `std::numeric_limits<uint16_t>::max()`: a group is asserted to stay below
      this many vertices before each new one is added. */
  const MaxVertices: nat := 65535

  /** `strncmp(line, prefix, |prefix|) == 0`. */
  predicate StartsWith(text: string, prefix: string) {
    |prefix| <= |text| && forall i | 0 <= i < |prefix| :: text[i] == prefix[i]
  }

  /** Which branch of the line dispatch a line takes. */
  datatype Kind =
    | Skip | MaterialLibrary | PositionLine | TexCoordLine | NormalLine
    | GroupLine | MaterialUse | SmoothingGroup | FaceLine | Unrecognised

  /** Comments and empty lines (LF or CRLF). */
  predicate IsSkipped(text: string) {
    StartsWith(text, "#") || StartsWith(text, "\r\n") || StartsWith(text, "\n")
  }

  /** The first characters of every keyword, which tell them apart. */
  lemma KeywordHeads(text: string)
    ensures StartsWith(text, "#") ==> text[0] == '#'
    ensures StartsWith(text, "\r\n") ==> text[0] == '\r'
    ensures StartsWith(text, "\n") ==> text[0] == '\n'
    ensures StartsWith(text, "mtllib ") ==> text[0] == 'm'
    ensures StartsWith(text, "v ") ==> text[0] == 'v' && text[1] == ' '
    ensures StartsWith(text, "vt ") ==> text[0] == 'v' && text[1] == 't'
    ensures StartsWith(text, "vn ") ==> text[0] == 'v' && text[1] == 'n'
    ensures StartsWith(text, "g ") ==> text[0] == 'g'
    ensures StartsWith(text, "usemtl ") ==> text[0] == 'u'
    ensures StartsWith(text, "s ") ==> text[0] == 's'
    ensures StartsWith(text, "f ") ==> text[0] == 'f'
  {
  }

  /** The keyword tests, in the converter's order. No keyword is a prefix of
      another, so each kind is exactly the lines that start with its keyword:
      the order of the tests does not matter. */
  function Classify(text: string): (k: Kind)
    ensures k == Skip <==> IsSkipped(text)
    ensures k == MaterialLibrary <==> StartsWith(text, "mtllib ")
    ensures k == PositionLine <==> StartsWith(text, "v ")
    ensures k == TexCoordLine <==> StartsWith(text, "vt ")
    ensures k == NormalLine <==> StartsWith(text, "vn ")
    ensures k == GroupLine <==> StartsWith(text, "g ")
    ensures k == MaterialUse <==> StartsWith(text, "usemtl ")
    ensures k == SmoothingGroup <==> StartsWith(text, "s ")
    ensures k == FaceLine <==> StartsWith(text, "f ")
  {
    KeywordHeads(text);
    if IsSkipped(text) then Skip
    else if StartsWith(text, "mtllib ") then MaterialLibrary
    else if StartsWith(text, "v ") then PositionLine
    else if StartsWith(text, "vt ") then TexCoordLine
    else if StartsWith(text, "vn ") then NormalLine
    else if StartsWith(text, "g ") then GroupLine
    else if StartsWith(text, "usemtl ") then MaterialUse
    else if StartsWith(text, "s ") then SmoothingGroup
    else if StartsWith(text, "f ") then FaceLine
    else Unrecognised
  }

  /** One line and what `sscanf` reads from it: the vector of a `v`/`vt`/`vn`
      line, the name of a `g` line, and the corners of an `f` line whose three
      indices were all read (`count / 3` of them). */
  datatype ObjLine = ObjLine(text: string, xyz: Vec3, uv: Vec2, name: string, corners: seq<Key>)

  /** A face line names at most four corners. */
  predicate ValidLines(lines: seq<ObjLine>) {
    forall i | 0 <= i < |lines| :: |lines[i].corners| <= 4
  }

  /** The attribute lists read so far. */
  datatype Attributes = Attributes(positions: seq<Vec3>, texcoords: seq<Vec2>, normals: seq<Vec3>)

  /** The group being built: the deduplication table (corner key to vertex
      index), its vertices and its indices. */
  datatype Table = Table(vertexIndices: map<Key, nat>, vertices: seq<Vertex>, indices: seq<nat>)

  /** The converter's state between lines. */
  datatype Converter = Converter(attributes: Attributes, groupName: string, groups: seq<Group>, current: Table)

  const EmptyTable := Table(map[], [], [])

  const Initial := Converter(Attributes([], [], []), "", [], EmptyTable)

  /** The 1-based indices of a corner all name an attribute read so far. */
  predicate InRange(a: Attributes, key: Key) {
    && 1 <= key.position <= |a.positions|
    && 1 <= key.normal <= |a.normals|
    && 1 <= key.texcoord <= |a.texcoords|
  }

  const Zero := Float(0)

  /** The vertex a corner stands for. A corner out of range is undefined
      behaviour in the converter; the model gives it a zero vertex and the
      converter's callers are required to avoid it (`WellIndexed`). */
  function Resolve(a: Attributes, key: Key): (v: Vertex)
    ensures InRange(a, key) ==>
      v == Vertex(a.positions[key.position - 1], a.normals[key.normal - 1], a.texcoords[key.texcoord - 1])
  {
    if InRange(a, key) then Vertex(a.positions[key.position - 1], a.normals[key.normal - 1], a.texcoords[key.texcoord - 1])
    else Vertex(Vec3(Zero, Zero, Zero), Vec3(Zero, Zero, Zero), Vec2(Zero, Zero))
  }

  /** The attribute lists after some lines: every `v`, `vt` and `vn` line
      appends its vector. */
  function AttributesAfter(lines: seq<ObjLine>): Attributes {
    if lines == [] then Attributes([], [], [])
    else
      var a := AttributesAfter(lines[..|lines| - 1]);
      var line := lines[|lines| - 1];
      match Classify(line.text)
      case PositionLine => a.(positions := a.positions + [line.xyz])
      case TexCoordLine => a.(texcoords := a.texcoords + [line.uv])
      case NormalLine => a.(normals := a.normals + [line.xyz])
      case _ => a
  }

  /** Every face refers only to attributes that precede it. */
  predicate WellIndexed(lines: seq<ObjLine>) {
    forall i | 0 <= i < |lines| && Classify(lines[i].text) == FaceLine ::
      forall key | key in lines[i].corners :: InRange(AttributesAfter(lines[..i]), key)
  }

  /** One corner: the vertex already made for its key, or a new one appended
      (None when the group already holds `MaxVertices` vertices, where the
      converter's assertion fails). */
  function AddCorner(a: Attributes, t: Table, key: Key): Option<(Table, nat)> {
    if key in t.vertexIndices then Some((t, t.vertexIndices[key]))
    else if |t.vertices| >= MaxVertices then None
    else Some((Table(t.vertexIndices[key := |t.vertices|], t.vertices + [Resolve(a, key)], t.indices), |t.vertices|))
  }

  /** The corners of a face, left to right, and the vertex index of each. */
  function AddCorners(a: Attributes, t: Table, keys: seq<Key>): (r: Option<(Table, seq<nat>)>)
    ensures r.Some? ==> |r.value.1| == |keys| && r.value.0.indices == t.indices
  {
    if keys == [] then Some((t, []))
    else
      match AddCorners(a, t, keys[..|keys| - 1])
      case None => None
      case Some((t1, face)) =>
        match AddCorner(a, t1, keys[|keys| - 1])
        case None => None
        case Some((t2, index)) => Some((t2, face + [index]))
  }

  /** A triangle, or a quad split into (0, 1, 2) and (2, 3, 0). */
  function Triangulate<T>(face: seq<T>): (r: seq<T>)
    requires 3 <= |face| <= 4
  {
    face[..3] + (if |face| == 4 then [face[2], face[3], face[0]] else [])
  }

  /** The face indices the converter as written emits for the vertex indices
      of the complete corners: `faceIndices` starts as four zeros, the first
      `count / 3` entries are filled in, and the first three entries are always
      pushed, even when fewer than three corners were read. */
  function FaceIndicesAsWritten(face: seq<nat>): (r: seq<nat>)
    requires |face| <= 4
    ensures |r| == if |face| == 4 then 6 else 3
    ensures forall j | 0 <= j < |r| :: r[j] in face || (|face| < 3 && r[j] == 0)
  {
    var padded := face + seq(4 - |face|, _ => 0);
    padded[..3] + (if |face| == 4 then [padded[2], padded[3], padded[0]] else [])
  }

  /** A face line: the vertex index of every complete corner, then the face
      indices as the converter writes them (`FaceIndicesAsWritten`), so a face
      with fewer than three complete corners is padded with index 0. */
  function AddFace(a: Attributes, t: Table, corners: seq<Key>): Option<Table>
    requires |corners| <= 4
  {
    match AddCorners(a, t, corners)
    case None => None
    case Some((t1, face)) => Some(t1.(indices := t1.indices + FaceIndicesAsWritten(face)))
  }

  /** One line of the read loop. A `g` line names the group that follows it and
      closes the group before it, which is kept only if it has vertices. */
  function Step(c: Converter, line: ObjLine): Option<Converter>
    requires |line.corners| <= 4
  {
    match Classify(line.text)
    case PositionLine => Some(c.(attributes := c.attributes.(positions := c.attributes.positions + [line.xyz])))
    case TexCoordLine => Some(c.(attributes := c.attributes.(texcoords := c.attributes.texcoords + [line.uv])))
    case NormalLine => Some(c.(attributes := c.attributes.(normals := c.attributes.normals + [line.xyz])))
    case GroupLine =>
      if c.current.vertices == [] then
        Some(c.(groupName := line.name, current := c.current.(vertices := [], indices := [])))
      else
        Some(c.(groupName := line.name,
                groups := c.groups + [Group(c.groupName, c.current.vertices, c.current.indices)],
                current := EmptyTable))
    case FaceLine =>
      (match AddFace(c.attributes, c.current, line.corners)
       case None => None
       case Some(t) => Some(c.(current := t)))
    case _ => Some(c)
  }

  /** The state after some lines, None once an assertion has failed. */
  function Run(lines: seq<ObjLine>): Option<Converter>
    requires ValidLines(lines)
  {
    if lines == [] then Some(Initial)
    else
      match Run(lines[..|lines| - 1])
      case None => None
      case Some(c) => Step(c, lines[|lines| - 1])
  }

  /** A face line with fewer than three complete corners. */
  predicate ShortFace(line: ObjLine) {
    Classify(line.text) == FaceLine && |line.corners| < 3
  }

  /** The line step evidently intended: a face line with fewer than three
      complete corners is skipped instead of padded. */
  function StepIntended(c: Converter, line: ObjLine): (r: Option<Converter>)
    requires |line.corners| <= 4
    ensures !ShortFace(line) ==> r == Step(c, line)
  {
    if ShortFace(line) then Some(c) else Step(c, line)
  }

  /** The state after some lines under the intended face rule. */
  function RunIntended(lines: seq<ObjLine>): Option<Converter>
    requires ValidLines(lines)
  {
    if lines == [] then Some(Initial)
    else
      match RunIntended(lines[..|lines| - 1])
      case None => None
      case Some(c) => StepIntended(c, lines[|lines| - 1])
  }

  /** After the loop the group being built is always appended, even when it is empty. */
  function Finish(c: Converter): seq<Group> {
    c.groups + [Group(c.groupName, c.current.vertices, c.current.indices)]
  }

  /** Outcome of `buildMesh`: an assertion failure, or a status with the mesh
      file when the target could be opened. */
  datatype Conversion = Aborted | Converted(status: HResult, file: Option<seq<Record>>)

  /** `buildMesh` on the lines read before the loop stopped; `readError` says
      whether it stopped on a read error, `targetOpens` whether the target
      file can be created. */
  function Convert(lines: seq<ObjLine>, readError: bool, targetOpens: bool): Conversion
    requires ValidLines(lines)
  {
    match Run(lines)
    case None => Aborted
    case Some(c) =>
      if !targetOpens then Converted(ERROR_FILE_NOT_FOUND, None)
      else Converted(if readError then ERROR_FILE_CORRUPT else S_OK, Some(Encode(Finish(c))))
  }

  /** Once a corner fails, the whole face fails. */
  lemma {:induction false} AddCornersFailureSticks(a: Attributes, t: Table, keys: seq<Key>, i: nat)
    requires i <= |keys| && AddCorners(a, t, keys[..i]).None?
    ensures AddCorners(a, t, keys).None?
    decreases |keys| - i
  {
    if i < |keys| {
      assert keys[..i + 1][..i] == keys[..i];
      AddCornersFailureSticks(a, t, keys, i + 1);
    } else {
      assert keys[..i] == keys;
    }
  }

  /** Once an assertion has failed, the run stays failed. */
  lemma {:induction false} RunFailureSticks(lines: seq<ObjLine>, i: nat)
    requires ValidLines(lines) && i <= |lines| && Run(lines[..i]).None?
    ensures Run(lines).None?
    decreases |lines| - i
  {
    if i < |lines| {
      assert lines[..i + 1][..i] == lines[..i];
      RunFailureSticks(lines, i + 1);
    } else {
      assert lines[..i] == lines;
    }
  }

  lemma {:induction false} RunKeepsAttributes(lines: seq<ObjLine>)
    requires ValidLines(lines)
    ensures Run(lines).Some? ==> Run(lines).value.attributes == AttributesAfter(lines)
  {
    if lines != [] {
      RunKeepsAttributes(lines[..|lines| - 1]);
    }
  }

  /** The face branch of `buildMesh`: look each complete corner up in the
      table, make a vertex for a new key, then push the face indices. `ok` is
      false where the vertex-count assertion fails. */
  method AddFaceCorners(a: Attributes, vertexIndices: map<Key, nat>, vertices: seq<Vertex>, indices: seq<nat>, corners: seq<Key>)
    returns (ok: bool, vertexIndices': map<Key, nat>, vertices': seq<Vertex>, indices': seq<nat>)
    requires |corners| <= 4
    requires forall key | key in corners :: InRange(a, key)
    ensures ok <==> AddFace(a, Table(vertexIndices, vertices, indices), corners).Some?
    ensures ok ==> AddFace(a, Table(vertexIndices, vertices, indices), corners) == Some(Table(vertexIndices', vertices', indices'))
  {
    var face;
    ok, vertexIndices', vertices', face := LookUpCorners(a, vertexIndices, vertices, indices, corners);
    indices' := indices;
    if ok {
      indices' := PushFaceIndices(indices, face);
    }
  }

  /** The corner loop of the face: `faceIndices` receives the vertex index of
      each corner, a new key getting the next vertex. */
  method LookUpCorners(a: Attributes, vertexIndices: map<Key, nat>, vertices: seq<Vertex>, indices: seq<nat>, corners: seq<Key>)
    returns (ok: bool, vertexIndices': map<Key, nat>, vertices': seq<Vertex>, face: seq<nat>)
    requires |corners| <= 4
    requires forall key | key in corners :: InRange(a, key)
    ensures ok <==> AddCorners(a, Table(vertexIndices, vertices, indices), corners).Some?
    ensures ok ==> AddCorners(a, Table(vertexIndices, vertices, indices), corners) == Some((Table(vertexIndices', vertices', indices), face))
  {
    vertexIndices', vertices', face := vertexIndices, vertices, [];
    var numVertices := |corners|;
    var faceIndices := new nat[4](_ => 0);
    for i := 0 to numVertices
      invariant AddCorners(a, Table(vertexIndices, vertices, indices), corners[..i])
        == Some((Table(vertexIndices', vertices', indices), faceIndices[..i]))
    {
      assert corners[..i + 1][..i] == corners[..i];
      assert corners[i] in corners;
      var found, index;
      found, vertexIndices', vertices', index := LookUpCorner(a, vertexIndices', vertices', indices, corners[i]);
      if !found {
        AddCornersFailureSticks(a, Table(vertexIndices, vertices, indices), corners, i + 1);
        return false, vertexIndices', vertices', face;
      }
      ghost var before := faceIndices[..i];
      faceIndices[i] := index;
      assert faceIndices[..i + 1] == before + [index];
    }
    assert corners[..numVertices] == corners;
    ok, face := true, faceIndices[..numVertices];
  }

  /** One corner of the face: the index already given to its key, or a new
      vertex made from its attributes. */
  method LookUpCorner(a: Attributes, vertexIndices: map<Key, nat>, vertices: seq<Vertex>, indices: seq<nat>, key: Key)
    returns (ok: bool, vertexIndices': map<Key, nat>, vertices': seq<Vertex>, index: nat)
    requires InRange(a, key)
    ensures ok <==> AddCorner(a, Table(vertexIndices, vertices, indices), key).Some?
    ensures ok ==> AddCorner(a, Table(vertexIndices, vertices, indices), key) == Some((Table(vertexIndices', vertices', indices), index))
  {
    vertexIndices', vertices' := vertexIndices, vertices;
    if key in vertexIndices {
      return true, vertexIndices', vertices', vertexIndices[key];
    }
    if |vertices| >= MaxVertices {
      return false, vertexIndices', vertices', 0;
    }
    var v := Vertex(a.positions[key.position - 1], a.normals[key.normal - 1], a.texcoords[key.texcoord - 1]);
    index := |vertices|;
    vertices' := vertices + [v];
    vertexIndices' := vertexIndices[key := index];
    ok := true;
  }

  /** The index loops of the face over `faceIndices`, four entries that start
      at zero: the first three entries, then for a quad entries 2, 3 and 0. */
  method PushFaceIndices(indices: seq<nat>, face: seq<nat>) returns (indices': seq<nat>)
    requires |face| <= 4
    ensures indices' == indices + FaceIndicesAsWritten(face)
  {
    var faceIndices := face + seq(4 - |face|, _ => 0);
    indices' := indices;
    for i := 0 to 3
      invariant indices' == indices + faceIndices[..i]
    {
      assert faceIndices[..i + 1] == faceIndices[..i] + [faceIndices[i]];
      indices' := indices' + [faceIndices[i]];
    }
    if |face| == 4 {
      for i := 2 to 5
        invariant indices' == indices + faceIndices[..3] + seq(i - 2, j requires 0 <= j < i - 2 => faceIndices[(j + 2) % 4])
      {
        indices' := indices' + [faceIndices[i % 4]];
      }
    }
  }

  /** `buildMesh`: the read loop over the lines, the final group, and the write. */
  method BuildMesh(lines: seq<ObjLine>, readError: bool, targetOpens: bool) returns (result: Conversion)
    requires ValidLines(lines) && WellIndexed(lines)
    ensures result == Convert(lines, readError, targetOpens)
  {
    var positions: seq<Vec3> := [];
    var texcoords: seq<Vec2> := [];
    var normals: seq<Vec3> := [];
    var groupName := "";
    var groups: seq<Group> := [];
    var vertexIndices: map<Key, nat> := map[];
    var vertices: seq<Vertex> := [];
    var indices: seq<nat> := [];

    for i := 0 to |lines|
      invariant Run(lines[..i]) == Some(Converter(Attributes(positions, texcoords, normals), groupName, groups,
                                                  Table(vertexIndices, vertices, indices)))
    {
      var line := lines[i];
      assert lines[..i + 1][..i] == lines[..i];
      assert Run(lines[..i + 1]) == Step(Converter(Attributes(positions, texcoords, normals), groupName, groups,
                                                   Table(vertexIndices, vertices, indices)), line);
      match Classify(line.text)
      case PositionLine =>
        positions := positions + [line.xyz];
      case TexCoordLine =>
        texcoords := texcoords + [line.uv];
      case NormalLine =>
        normals := normals + [line.xyz];
      case GroupLine =>
        var oldName := groupName;
        groupName := line.name;
        if vertices != [] {
          groups := groups + [Group(oldName, vertices, indices)];
          vertexIndices := map[];
        }
        vertices, indices := [], [];
      case FaceLine =>
        RunKeepsAttributes(lines[..i]);
        var ok;
        ok, vertexIndices, vertices, indices :=
          AddFaceCorners(Attributes(positions, texcoords, normals), vertexIndices, vertices, indices, line.corners);
        if !ok {
          RunFailureSticks(lines, i + 1);
          return Aborted;
        }
      case _ =>
    }
    assert lines[..|lines|] == lines;

    groups := groups + [Group(groupName, vertices, indices)];
    if !targetOpens {
      return Converted(ERROR_FILE_NOT_FOUND, None);
    }
    var file := WriteMesh(groups);
    result := Converted(if readError then ERROR_FILE_CORRUPT else S_OK, Some(file));
  }

  /** The two write loops: the count, all headers, then each group's vertices
      and indices. */
  method WriteMesh(groups: seq<Group>) returns (file: seq<Record>)
    ensures file == Encode(groups)
  {
    var headers: seq<Record> := [];
    for i := 0 to |groups|
      invariant headers == HeaderRecords(groups[..i])
    {
      assert groups[..i + 1][..i] == groups[..i];
      headers := headers + [Count(|groups[i].vertices|), Count(|groups[i].indices|)];
    }
    var payload: seq<Record> := [];
    for i := 0 to |groups|
      invariant payload == PayloadRecords(groups[..i])
    {
      assert groups[..i + 1][..i] == groups[..i];
      payload := payload + [VertexRun(groups[i].vertices), IndexRun(groups[i].indices)];
    }
    assert groups[..|groups|] == groups;
    file := [Count(|groups|)] + headers + payload;
  }
}
