/** What the converter guarantees about the groups it writes, proved against a
    reference that does no deduplication: the reference keeps, per group, the
    list of triangle corners as vertices. The converter's indexed groups expand
    to exactly those lists, every index names a vertex of its group, every
    vertex is used, and a group never exceeds the 16-bit index range. */
module ObjMeshProofs {
  import opened HResults
  import opened MeshFormat
  import opened ObjKey
  import opened ObjMesh

  /** Every index names a vertex of the group. */
  predicate Indexed(vertices: seq<Vertex>, indices: seq<nat>) {
    forall k | 0 <= k < |indices| :: indices[k] < |vertices|
  }

  /** The triangle corners an indexed group stands for. */
  function Expand(vertices: seq<Vertex>, indices: seq<nat>): (corners: seq<Vertex>)
    requires Indexed(vertices, indices)
    ensures |corners| == |indices|
  {
    seq(|indices|, k requires 0 <= k < |indices| => vertices[indices[k]])
  }

  /** A reference group: its name and its triangle corners, one vertex per corner. */
  datatype RefGroup = RefGroup(name: string, corners: seq<Vertex>)

  /** The reference's state between lines. */
  datatype Reference = Reference(attributes: Attributes, groupName: string, groups: seq<RefGroup>, corners: seq<Vertex>)

  /** The corners of a face, resolved to vertices. */
  function FaceVertices(a: Attributes, keys: seq<Key>): (vs: seq<Vertex>)
    ensures |vs| == |keys|
  {
    seq(|keys|, j requires 0 <= j < |keys| => Resolve(a, keys[j]))
  }

  function RefStep(r: Reference, line: ObjLine): Reference
    requires |line.corners| <= 4
  {
    match Classify(line.text)
    case PositionLine => r.(attributes := r.attributes.(positions := r.attributes.positions + [line.xyz]))
    case TexCoordLine => r.(attributes := r.attributes.(texcoords := r.attributes.texcoords + [line.uv]))
    case NormalLine => r.(attributes := r.attributes.(normals := r.attributes.normals + [line.xyz]))
    case GroupLine =>
      if r.corners == [] then r.(groupName := line.name)
      else r.(groupName := line.name, groups := r.groups + [RefGroup(r.groupName, r.corners)], corners := [])
    case FaceLine =>
      if |line.corners| < 3 then r
      else r.(corners := r.corners + Triangulate(FaceVertices(r.attributes, line.corners)))
    case _ => r
  }

  function RefRun(lines: seq<ObjLine>): Reference
    requires ValidLines(lines)
  {
    if lines == [] then Reference(Attributes([], [], []), "", [], [])
    else RefStep(RefRun(lines[..|lines| - 1]), lines[|lines| - 1])
  }

  function RefFinish(r: Reference): seq<RefGroup> {
    r.groups + [RefGroup(r.groupName, r.corners)]
  }

  /** An indexed group stands for the reference corners: indices in range and
      a multiple of three, the expansion equal to the corners, every vertex
      used, at most `MaxVertices` vertices. */
  predicate Represents(vertices: seq<Vertex>, indices: seq<nat>, corners: seq<Vertex>) {
    && Indexed(vertices, indices)
    && Expand(vertices, indices) == corners
    && |indices| % 3 == 0
    && |vertices| <= MaxVertices
    && (forall v | 0 <= v < |vertices| :: v in indices)
  }

  /** The deduplication table maps each key it holds to a vertex of the group
      made from that key. */
  predicate TableSound(a: Attributes, t: Table) {
    && |t.vertices| <= MaxVertices
    && forall k | k in t.vertexIndices ::
         t.vertexIndices[k] < |t.vertices| && InRange(a, k) && t.vertices[t.vertexIndices[k]] == Resolve(a, k)
  }

  predicate Simulates(c: Converter, r: Reference) {
    && c.attributes == r.attributes
    && c.groupName == r.groupName
    && |c.groups| == |r.groups|
    && (forall i | 0 <= i < |c.groups| ::
          c.groups[i].name == r.groups[i].name
          && Represents(c.groups[i].vertices, c.groups[i].indices, r.groups[i].corners))
    && Represents(c.current.vertices, c.current.indices, r.corners)
    && TableSound(c.attributes, c.current)
  }

  lemma ExpandAppend(vertices: seq<Vertex>, xs: seq<nat>, ys: seq<nat>)
    requires Indexed(vertices, xs) && Indexed(vertices, ys)
    ensures Indexed(vertices, xs + ys)
    ensures Expand(vertices, xs + ys) == Expand(vertices, xs) + Expand(vertices, ys)
  {
  }

  lemma ExpandExtended(vertices: seq<Vertex>, more: seq<Vertex>, indices: seq<nat>)
    requires Indexed(vertices, indices)
    ensures Indexed(vertices + more, indices)
    ensures Expand(vertices + more, indices) == Expand(vertices, indices)
  {
    forall k | 0 <= k < |indices|
      ensures Expand(vertices + more, indices)[k] == Expand(vertices, indices)[k]
    {
      assert (vertices + more)[indices[k]] == vertices[indices[k]];
    }
  }

  /** A group with indices has vertices. */
  lemma IndicesNeedVertices(vertices: seq<Vertex>, indices: seq<nat>)
    requires Indexed(vertices, indices)
    ensures indices != [] ==> vertices != []
  {
    if indices != [] {
      assert indices[0] < |vertices|;
    }
  }

  /** `b` holds `a`'s attributes and possibly more after them. */
  predicate Extends(a: Attributes, b: Attributes) {
    && |a.positions| <= |b.positions| && b.positions[..|a.positions|] == a.positions
    && |a.normals| <= |b.normals| && b.normals[..|a.normals|] == a.normals
    && |a.texcoords| <= |b.texcoords| && b.texcoords[..|a.texcoords|] == a.texcoords
  }

  /** Resolving a corner does not change as more attributes are read. */
  lemma ResolveStable(a: Attributes, b: Attributes, key: Key)
    requires InRange(a, key) && Extends(a, b)
    ensures InRange(b, key) && Resolve(b, key) == Resolve(a, key)
  {
    assert b.positions[key.position - 1] == b.positions[..|a.positions|][key.position - 1];
    assert b.normals[key.normal - 1] == b.normals[..|a.normals|][key.normal - 1];
    assert b.texcoords[key.texcoord - 1] == b.texcoords[..|a.texcoords|][key.texcoord - 1];
  }

  /** One corner keeps the table sound, appends at most the corner's own
      vertex, and yields the index of a vertex made from the corner's key. */
  lemma AddCornerSound(a: Attributes, t: Table, key: Key)
    requires TableSound(a, t) && InRange(a, key)
    ensures AddCorner(a, t, key).Some? ==>
      var (t1, index) := AddCorner(a, t, key).value;
      && TableSound(a, t1)
      && t1.indices == t.indices
      && (t1.vertices == t.vertices || (t1.vertices == t.vertices + [Resolve(a, key)] && index == |t.vertices|))
      && index < |t1.vertices| && t1.vertices[index] == Resolve(a, key)
  {
    if AddCorner(a, t, key).Some? && key !in t.vertexIndices {
      var (t1, index) := AddCorner(a, t, key).value;
      forall k | k in t1.vertexIndices
        ensures t1.vertexIndices[k] < |t1.vertices| && InRange(a, k) && t1.vertices[t1.vertexIndices[k]] == Resolve(a, k)
      {
        if k != key {
          assert t1.vertices[t.vertexIndices[k]] == t.vertices[t.vertexIndices[k]];
        }
      }
    }
  }

  /** What processing a face's corners guarantees: the table stays sound, the
      group's vertices are only appended to, each corner gets the index of a
      vertex made from its key, and each appended vertex is some corner's. */
  predicate CornersSound(a: Attributes, t: Table, keys: seq<Key>, t1: Table, face: seq<nat>) {
    && TableSound(a, t1)
    && t1.indices == t.indices
    && |t.vertices| <= |t1.vertices|
    && t1.vertices[..|t.vertices|] == t.vertices
    && |face| == |keys|
    && (forall j | 0 <= j < |keys| :: face[j] < |t1.vertices| && t1.vertices[face[j]] == Resolve(a, keys[j]))
    && (forall v | |t.vertices| <= v < |t1.vertices| :: v in face)
  }

  lemma {:induction false} AddCornersSound(a: Attributes, t: Table, keys: seq<Key>)
    requires TableSound(a, t)
    requires forall k | k in keys :: InRange(a, k)
    ensures AddCorners(a, t, keys).Some? ==>
      CornersSound(a, t, keys, AddCorners(a, t, keys).value.0, AddCorners(a, t, keys).value.1)
  {
    if keys != [] && AddCorners(a, t, keys).Some? {
      var init := keys[..|keys| - 1];
      var key := keys[|keys| - 1];
      assert forall k | k in init :: k in keys;
      assert key in keys;
      AddCornersSound(a, t, init);
      var (t1, face) := AddCorners(a, t, init).value;
      AddCornerSound(a, t1, key);
      var (t2, index) := AddCorner(a, t1, key).value;
      CornersSoundExtend(a, t, init, key, t1, face, t2, index);
      assert init + [key] == keys;
    }
  }

  /** One more corner after `keys` keeps what `CornersSound` promises. */
  lemma CornersSoundExtend(a: Attributes, t: Table, keys: seq<Key>, key: Key, t1: Table, face: seq<nat>, t2: Table, index: nat)
    requires CornersSound(a, t, keys, t1, face)
    requires TableSound(a, t2) && t2.indices == t1.indices
    requires t2.vertices == t1.vertices || (t2.vertices == t1.vertices + [Resolve(a, key)] && index == |t1.vertices|)
    requires index < |t2.vertices| && t2.vertices[index] == Resolve(a, key)
    ensures CornersSound(a, t, keys + [key], t2, face + [index])
  {
    var keys2, face2 := keys + [key], face + [index];
    assert t2.vertices[..|t1.vertices|] == t1.vertices;
    assert t2.vertices[..|t.vertices|] == t.vertices;
    forall j | 0 <= j < |keys2|
      ensures face2[j] < |t2.vertices| && t2.vertices[face2[j]] == Resolve(a, keys2[j])
    {
      if j < |keys| {
        assert t2.vertices[face[j]] == t1.vertices[face[j]];
      }
    }
    forall v | |t.vertices| <= v < |t2.vertices|
      ensures v in face2
    {
      if v < |t1.vertices| {
        assert v in face;
      } else {
        assert v == index;
      }
    }
  }

  /** The indices of a triangulated face expand to the triangulated vertices. */
  lemma ExpandTriangulate(vertices: seq<Vertex>, face: seq<nat>)
    requires 3 <= |face| <= 4 && forall j | 0 <= j < |face| :: face[j] < |vertices|
    ensures Indexed(vertices, Triangulate(face))
    ensures Expand(vertices, Triangulate(face)) == Triangulate(seq(|face|, j requires 0 <= j < |face| => vertices[face[j]]))
    ensures forall j | 0 <= j < |face| :: face[j] in Triangulate(face)
  {
    assert forall j | 0 <= j < 3 :: Triangulate(face)[j] == face[j];
    if |face| == 4 {
      assert Triangulate(face)[4] == face[3];
    }
  }

  /** Appending a face to an indexed group: the new vertices come after the
      old ones, each face index names the vertex of its corner, and every new
      vertex is one of the face's. */
  lemma AppendFace(vertices: seq<Vertex>, more: seq<Vertex>, indices: seq<nat>, corners: seq<Vertex>,
                   face: seq<nat>, faceVertices: seq<Vertex>)
    requires Represents(vertices, indices, corners)
    requires 3 <= |face| <= 4 && |faceVertices| == |face|
    requires forall j | 0 <= j < |face| :: face[j] < |vertices + more| && (vertices + more)[face[j]] == faceVertices[j]
    requires forall v | |vertices| <= v < |vertices + more| :: v in face
    requires |vertices + more| <= MaxVertices
    ensures Represents(vertices + more, indices + Triangulate(face), corners + Triangulate(faceVertices))
  {
    var all := vertices + more;
    ExpandExtended(vertices, more, indices);
    ExpandTriangulate(all, face);
    assert seq(|face|, j requires 0 <= j < |face| => all[face[j]]) == faceVertices;
    ExpandAppend(all, indices, Triangulate(face));
    forall v | 0 <= v < |all|
      ensures v in indices + Triangulate(face)
    {
      if v < |vertices| {
        assert v in indices;
      } else {
        assert v in face;
        var j :| 0 <= j < |face| && face[j] == v;
        assert v in Triangulate(face);
      }
    }
  }

  lemma FaceSimulates(a: Attributes, t: Table, corners: seq<Key>, refCorners: seq<Vertex>)
    requires 3 <= |corners| <= 4
    requires forall k | k in corners :: InRange(a, k)
    requires Represents(t.vertices, t.indices, refCorners) && TableSound(a, t)
    ensures AddFace(a, t, corners).Some? ==>
      var t2 := AddFace(a, t, corners).value;
      Represents(t2.vertices, t2.indices, refCorners + Triangulate(FaceVertices(a, corners))) && TableSound(a, t2)
  {
    AddCornersSound(a, t, corners);
    if AddFace(a, t, corners).Some? {
      var (t1, face) := AddCorners(a, t, corners).value;
      FaceIndicesAgree(face);
      assert CornersSound(a, t, corners, t1, face);
      var more := t1.vertices[|t.vertices|..];
      assert t1.vertices == t.vertices + more;
      AppendFace(t.vertices, more, t.indices, refCorners, face, FaceVertices(a, corners));
    }
  }

  lemma StepSimulates(c: Converter, r: Reference, line: ObjLine)
    requires |line.corners| <= 4 && Simulates(c, r)
    requires Classify(line.text) == FaceLine ==> forall k | k in line.corners :: InRange(c.attributes, k)
    ensures StepIntended(c, line).Some? ==> Simulates(StepIntended(c, line).value, RefStep(r, line))
  {
    var a := c.attributes;
    if ShortFace(line) {
      return;
    }
    match Classify(line.text)
    case PositionLine =>
      AttributeLineSimulates(c, r, a.(positions := a.positions + [line.xyz]));
    case TexCoordLine =>
      AttributeLineSimulates(c, r, a.(texcoords := a.texcoords + [line.uv]));
    case NormalLine =>
      AttributeLineSimulates(c, r, a.(normals := a.normals + [line.xyz]));
    case GroupLine =>
      GroupLineSimulates(c, r, line.name);
    case FaceLine =>
      FaceLineSimulates(c, r, line);
    case _ =>
  }

  /** A face line of three or four corners keeps the two in step. */
  lemma FaceLineSimulates(c: Converter, r: Reference, line: ObjLine)
    requires Classify(line.text) == FaceLine && 3 <= |line.corners| <= 4 && Simulates(c, r)
    requires forall k | k in line.corners :: InRange(c.attributes, k)
    ensures Step(c, line).Some? ==> Simulates(Step(c, line).value, RefStep(r, line))
  {
    var a := c.attributes;
    FaceSimulates(a, c.current, line.corners, r.corners);
    if AddFace(a, c.current, line.corners).Some? {
      CurrentSimulates(c, r, AddFace(a, c.current, line.corners).value,
        r.corners + Triangulate(FaceVertices(a, line.corners)));
    }
  }

  /** A `v`, `vt` or `vn` line extends the attributes of both sides alike. */
  lemma AttributeLineSimulates(c: Converter, r: Reference, b: Attributes)
    requires Simulates(c, r) && Extends(c.attributes, b)
    ensures Simulates(c.(attributes := b), r.(attributes := b))
  {
    AttributesGrow(c.attributes, b, c.current);
  }

  /** A `g` line closes the current group on both sides, and both keep it
      exactly when it has something in it. */
  lemma GroupLineSimulates(c: Converter, r: Reference, name: string)
    requires Simulates(c, r)
    ensures c.current.vertices == [] ==> r.corners == []
    ensures c.current.vertices == [] ==>
      Simulates(c.(groupName := name, current := c.current.(vertices := [], indices := [])), r.(groupName := name))
    ensures c.current.vertices != [] ==> r.corners != [] && Simulates(
      c.(groupName := name, groups := c.groups + [Group(c.groupName, c.current.vertices, c.current.indices)], current := EmptyTable),
      r.(groupName := name, groups := r.groups + [RefGroup(r.groupName, r.corners)], corners := []))
  {
    IndicesNeedVertices(c.current.vertices, c.current.indices);
    if c.current.vertices == [] {
      assert r.corners == [];
    } else {
      assert 0 in c.current.indices;
      assert r.corners != [];
    }
  }

  /** Replacing the group being built on both sides by tables that correspond. */
  lemma CurrentSimulates(c: Converter, r: Reference, t: Table, corners: seq<Vertex>)
    requires Simulates(c, r)
    requires Represents(t.vertices, t.indices, corners) && TableSound(c.attributes, t)
    ensures Simulates(c.(current := t), r.(corners := corners))
  {
  }

  /** Reading one more attribute keeps the table sound. */
  lemma AttributesGrow(a: Attributes, b: Attributes, t: Table)
    requires TableSound(a, t) && Extends(a, b)
    ensures TableSound(b, t)
  {
    forall k | k in t.vertexIndices
      ensures InRange(b, k) && Resolve(b, k) == Resolve(a, k)
    {
      ResolveStable(a, b, k);
    }
  }

  lemma {:induction false} RunIntendedKeepsAttributes(lines: seq<ObjLine>)
    requires ValidLines(lines)
    ensures RunIntended(lines).Some? ==> RunIntended(lines).value.attributes == AttributesAfter(lines)
  {
    if lines != [] {
      RunIntendedKeepsAttributes(lines[..|lines| - 1]);
    }
  }

  lemma {:induction false} RunSimulates(lines: seq<ObjLine>)
    requires ValidLines(lines) && WellIndexed(lines)
    ensures RunIntended(lines).Some? ==> Simulates(RunIntended(lines).value, RefRun(lines))
  {
    if lines != [] {
      var init := lines[..|lines| - 1];
      var line := lines[|lines| - 1];
      assert WellIndexed(init) by {
        forall i | 0 <= i < |init| ensures init[..i] == lines[..i] && init[i] == lines[i] { }
      }
      RunSimulates(init);
      if RunIntended(lines).Some? {
        RunIntendedKeepsAttributes(init);
        assert init == lines[..|lines| - 1];
        StepSimulates(RunIntended(init).value, RefRun(init), line);
      }
    }
  }

  /** The converter under the intended face rule, read against the reference:
      the same number of groups, the same names, and each written group is an
      indexed form of the reference group's corners, with every index naming
      one of its at most 65535 vertices and every vertex used. */
  lemma IntendedGroupsMatchReference(lines: seq<ObjLine>)
    requires ValidLines(lines) && WellIndexed(lines) && RunIntended(lines).Some?
    ensures |Finish(RunIntended(lines).value)| == |RefFinish(RefRun(lines))|
    ensures forall i | 0 <= i < |Finish(RunIntended(lines).value)| ::
      var g := Finish(RunIntended(lines).value)[i];
      g.name == RefFinish(RefRun(lines))[i].name
      && Represents(g.vertices, g.indices, RefFinish(RefRun(lines))[i].corners)
  {
    RunSimulates(lines);
  }

  /** Every face line names at least three complete corners. */
  predicate CompleteFaces(lines: seq<ObjLine>) {
    forall i | 0 <= i < |lines| :: !ShortFace(lines[i])
  }

  /** Without short faces the converter as written and the intended rule run
      alike, line for line. */
  lemma {:induction false} CompleteFacesRunAlike(lines: seq<ObjLine>)
    requires ValidLines(lines) && CompleteFaces(lines)
    ensures Run(lines) == RunIntended(lines)
  {
    if lines != [] {
      var init := lines[..|lines| - 1];
      assert CompleteFaces(init) by {
        forall i | 0 <= i < |init| ensures init[i] == lines[i] { }
      }
      CompleteFacesRunAlike(init);
      assert !ShortFace(lines[|lines| - 1]);
    }
  }

  /** The converter as written, on a file whose faces all have three or four
      complete corners: its groups match the reference as above. */
  lemma ConvertedGroupsMatchReference(lines: seq<ObjLine>)
    requires ValidLines(lines) && WellIndexed(lines) && CompleteFaces(lines) && Run(lines).Some?
    ensures |Finish(Run(lines).value)| == |RefFinish(RefRun(lines))|
    ensures forall i | 0 <= i < |Finish(Run(lines).value)| ::
      var g := Finish(Run(lines).value)[i];
      g.name == RefFinish(RefRun(lines))[i].name
      && Represents(g.vertices, g.indices, RefFinish(RefRun(lines))[i].corners)
  {
    CompleteFacesRunAlike(lines);
    IntendedGroupsMatchReference(lines);
  }

  /** Looking up corners never takes a group past `MaxVertices` vertices:
      `AddCorner` refuses the vertex that would. */
  lemma {:induction false} AddCornersBounded(a: Attributes, t: Table, keys: seq<Key>)
    requires |t.vertices| <= MaxVertices
    ensures AddCorners(a, t, keys).Some? ==> |AddCorners(a, t, keys).value.0.vertices| <= MaxVertices
  {
    if keys != [] {
      AddCornersBounded(a, t, keys[..|keys| - 1]);
    }
  }

  /** A group's vertex count is within the 16-bit range and its index count
      is a multiple of three. */
  predicate Shaped(vertices: seq<Vertex>, indices: seq<nat>) {
    |indices| % 3 == 0 && |vertices| <= MaxVertices
  }

  /** Every closed group and the group being built are shaped. */
  predicate ConverterShaped(c: Converter) {
    && (forall i | 0 <= i < |c.groups| :: Shaped(c.groups[i].vertices, c.groups[i].indices))
    && Shaped(c.current.vertices, c.current.indices)
  }

  /** A face line as written, short or not, adds three or six indices and
      keeps the vertex bound. */
  lemma FaceShaped(a: Attributes, t: Table, corners: seq<Key>)
    requires |corners| <= 4 && Shaped(t.vertices, t.indices)
    ensures AddFace(a, t, corners).Some? ==> Shaped(AddFace(a, t, corners).value.vertices, AddFace(a, t, corners).value.indices)
  {
    AddCornersBounded(a, t, corners);
  }

  /** Every line keeps the converter shaped. */
  lemma StepShaped(c: Converter, line: ObjLine)
    requires |line.corners| <= 4 && ConverterShaped(c)
    ensures Step(c, line).Some? ==> ConverterShaped(Step(c, line).value)
  {
    if Classify(line.text) == FaceLine {
      FaceShaped(c.attributes, c.current, line.corners);
    }
  }

  /** The converter's state after any lines, short faces included. */
  lemma {:induction false} RunStaysShaped(lines: seq<ObjLine>)
    requires ValidLines(lines) && Run(lines).Some?
    ensures ConverterShaped(Run(lines).value)
  {
    if lines != [] {
      var init := lines[..|lines| - 1];
      RunStaysShaped(init);
      StepShaped(Run(init).value, lines[|lines| - 1]);
    }
  }

  /** Every group the converter as written writes, on every input: at most
      65535 vertices, and whole triangles of indices. */
  lemma RunShape(lines: seq<ObjLine>)
    requires ValidLines(lines) && Run(lines).Some?
    ensures forall g | g in Finish(Run(lines).value) :: |g.indices| % 3 == 0 && |g.vertices| <= MaxVertices
  {
    RunStaysShaped(lines);
  }

  /** Only the last group can be empty: a `g` line drops the group before it
      when it has no vertices. */
  lemma {:induction false} ClosedGroupsNonEmpty(lines: seq<ObjLine>)
    requires ValidLines(lines) && Run(lines).Some?
    ensures forall i | 0 <= i < |Run(lines).value.groups| :: Run(lines).value.groups[i].vertices != []
  {
    if lines != [] {
      ClosedGroupsNonEmpty(lines[..|lines| - 1]);
    }
  }

  /** The status `buildMesh` returns is S_OK or one of two positive Win32 codes,
      never a value `FAILED` recognises. */
  lemma ConvertStatusNeverFails(lines: seq<ObjLine>, readError: bool, targetOpens: bool)
    requires ValidLines(lines)
    ensures Convert(lines, readError, targetOpens).Converted? ==>
      var status := Convert(lines, readError, targetOpens).status;
      && (status == S_OK <==> targetOpens && !readError)
      && (status == ERROR_FILE_NOT_FOUND <==> !targetOpens)
      && (status == ERROR_FILE_CORRUPT <==> targetOpens && readError)
      && !Failed(status)
  {
  }

  /** On faces of three or four corners the converter as written and the
      model agree. */
  lemma FaceIndicesAgree(face: seq<nat>)
    requires 3 <= |face| <= 4
    ensures FaceIndicesAsWritten(face) == Triangulate(face)
  {
    var padded := face + seq(4 - |face|, _ => 0);
    assert padded[..3] == face[..3];
    assert |face| == 4 ==> padded[3] == face[3];
  }

  /** Every face line with fewer than three complete corners (such as
      `f 1 2 3`, where `sscanf` stops after one number, or `f 1/1/1 2/2/2`):
      the converter as written looks its corners up and then still appends a
      whole triangle, padding the corners' vertex indices with zeros that come
      from no corner of the face. */
  lemma ShortFaceEmitsPadding(a: Attributes, t: Table, corners: seq<Key>)
    requires |corners| < 3
    ensures AddFace(a, t, corners).Some? <==> AddCorners(a, t, corners).Some?
    ensures AddFace(a, t, corners).Some? ==>
      var (t1, face) := AddCorners(a, t, corners).value;
      && AddFace(a, t, corners).value.vertices == t1.vertices
      && AddFace(a, t, corners).value.indices == t.indices + face + seq(3 - |corners|, _ => 0)
  {
    if AddCorners(a, t, corners).Some? {
      var (t1, face) := AddCorners(a, t, corners).value;
      var padded := face + seq(4 - |face|, _ => 0);
      assert padded[..3] == face + seq(3 - |corners|, _ => 0);
    }
  }

  /** The discrepancy: a face line with no complete corner, in a group that
      has no vertices yet, is written as the triangle (0, 0, 0), so the last
      group written has indices that name no vertex. */
  lemma ShortFaceIndexesMissingVertex(lines: seq<ObjLine>, line: ObjLine)
    requires ValidLines(lines) && Run(lines).Some? && Run(lines).value.current.vertices == []
    requires Classify(line.text) == FaceLine && line.corners == []
    ensures ValidLines(lines + [line]) && Run(lines + [line]).Some?
    ensures var g := Finish(Run(lines + [line]).value)[|Finish(Run(lines + [line]).value)| - 1];
      g.vertices == [] && g.indices == Run(lines).value.current.indices + [0, 0, 0] && !Indexed(g.vertices, g.indices)
  {
    var all := lines + [line];
    assert all[..|all| - 1] == lines && all[|all| - 1] == line;
    var c := Run(lines).value;
    assert AddCorners(c.attributes, c.current, []) == Some((c.current, []));
    assert FaceIndicesAsWritten([]) == [0, 0, 0];
    var t := c.current.(indices := c.current.indices + [0, 0, 0]);
    assert AddFace(c.attributes, c.current, []) == Some(t);
    assert Run(all) == Some(c.(current := t));
    assert t.indices[|c.current.indices|] == 0;
  }

  /** The smallest such file, the single line `f 1 2 3`: one group, no
      vertices, three indices. */
  lemma LoneShortFaceFile(line: ObjLine)
    requires Classify(line.text) == FaceLine && line.corners == []
    ensures ValidLines([line])
    ensures Convert([line], false, true) == Converted(S_OK, Some(Encode([Group("", [], [0, 0, 0])])))
  {
    assert [line][..0] == [];
    assert AddCorners(Initial.attributes, EmptyTable, []) == Some((EmptyTable, []));
    assert FaceIndicesAsWritten([]) == [0, 0, 0];
    assert EmptyTable.indices + FaceIndicesAsWritten([]) == [0, 0, 0];
    assert AddFace(Initial.attributes, EmptyTable, []) == Some(EmptyTable.(indices := [0, 0, 0]));
    var c := Initial.(current := EmptyTable.(indices := [0, 0, 0]));
    assert Step(Initial, line) == Some(c);
    assert Run([line]) == Some(c);
    assert Finish(c) == [Group("", [], [0, 0, 0])];
  }
}
