/** The binary mesh file shared by the offline converter (which writes it) and
    the game (which reads it): a group count, one (vertex count, index count)
    header per group, then per group its vertices followed by its 16-bit
    indices. The file is modelled as a sequence of records; floats are kept as
    opaque bit patterns. */
module MeshFormat {

  /** A 32-bit float, kept as its bit pattern: nothing here computes with it. */
  datatype Float = Float(bits: bv32)

  datatype Vec2 = Vec2(x: Float, y: Float)

  datatype Vec3 = Vec3(x: Float, y: Float, z: Float)

  /** The vertex layout both sides agree on: position, normal, texcoord. */
  datatype Vertex = Vertex(position: Vec3, normal: Vec3, texcoord: Vec2)

  /** `sizeof(Vertex)`: eight floats. */
  const VertexBytes: nat := 32

  /** `sizeof(uint16_t)`. */
  const IndexBytes: nat := 2

  /** `sizeof(size_t)` on 64-bit Windows. */
  const CountBytes: nat := 8

  /** A group as the converter holds it in memory. Indices are 16-bit values. */
  datatype Group = Group(name: string, vertices: seq<Vertex>, indices: seq<nat>)

  /** One `fwrite` of the converter: a `size_t`, a run of vertices or a run of indices. */
  datatype Record = Count(n: nat) | VertexRun(vertices: seq<Vertex>) | IndexRun(indices: seq<nat>)

  function RecordBytes(r: Record): nat {
    match r
    case Count(_) => CountBytes
    case VertexRun(vs) => |vs| * VertexBytes
    case IndexRun(ixs) => |ixs| * IndexBytes
  }

  /** Bytes taken by a run of records. */
  function Bytes(rs: seq<Record>): nat {
    if rs == [] then 0 else Bytes(rs[..|rs| - 1]) + RecordBytes(rs[|rs| - 1])
  }

  /** The header pairs of `groups`, in group order. */
  function HeaderRecords(groups: seq<Group>): (rs: seq<Record>)
    ensures |rs| == 2 * |groups|
  {
    if groups == [] then []
    else
      var last := groups[|groups| - 1];
      HeaderRecords(groups[..|groups| - 1]) + [Count(|last.vertices|), Count(|last.indices|)]
  }

  /** Each group's vertices followed by its indices, in group order. */
  function PayloadRecords(groups: seq<Group>): (rs: seq<Record>)
    ensures |rs| == 2 * |groups|
  {
    if groups == [] then []
    else
      var last := groups[|groups| - 1];
      PayloadRecords(groups[..|groups| - 1]) + [VertexRun(last.vertices), IndexRun(last.indices)]
  }

  /** What the converter writes for `groups`: the count, the headers, then the
      payload. Group names are not written. */
  function Encode(groups: seq<Group>): (file: seq<Record>)
    ensures |file| == 1 + 4 * |groups|
  {
    [Count(|groups|)] + HeaderRecords(groups) + PayloadRecords(groups)
  }

  /** The records after the headers: the payload the game copies to the GPU. */
  function Payload(file: seq<Record>): seq<Record>
    requires |file| >= 1 && file[0].Count? && |file| >= 1 + 2 * file[0].n
  {
    file[1 + 2 * file[0].n..]
  }
}
