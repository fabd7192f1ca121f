/** The game's mesh loader: it reads the group count and the per-group headers,
    sums the size of the whole vertex/index payload, and carves one GPU buffer
    into a vertex view and an index view per group, back to back. */
module MeshLayout {
  import opened MeshFormat

  /** A header as the loader reads it (`struct Group` of the game). */
  datatype GroupSize = GroupSize(numVertices: nat, numIndices: nat)

  datatype IndexFormat = R16_UINT

  /** `D3D12_VERTEX_BUFFER_VIEW`. */
  datatype VertexBufferView = VertexBufferView(location: nat, sizeInBytes: nat, strideInBytes: nat)

  /** `D3D12_INDEX_BUFFER_VIEW`. */
  datatype IndexBufferView = IndexBufferView(location: nat, sizeInBytes: nat, format: IndexFormat)

  /** The file starts with a count and that many pairs of counts. The loader
      does not check this; a shorter file leaves its variables unset. */
  predicate HasHeaders(file: seq<Record>) {
    && |file| >= 1 && file[0].Count?
    && |file| >= 1 + 2 * file[0].n
    && forall i | 0 <= i < file[0].n :: file[1 + 2 * i].Count? && file[2 + 2 * i].Count?
  }

  /** The headers in file order. */
  function HeadersOf(file: seq<Record>): (sizes: seq<GroupSize>)
    requires HasHeaders(file)
    ensures |sizes| == file[0].n
  {
    seq(file[0].n, i requires 0 <= i < file[0].n => GroupSize(file[1 + 2 * i].n, file[2 + 2 * i].n))
  }

  /** Bytes of one group in the payload: its vertices and its indices. */
  function GroupBytes(g: GroupSize): nat {
    g.numVertices * VertexBytes + g.numIndices * IndexBytes
  }

  /** `bufferSize`: the bytes of all groups. */
  function BufferBytes(groups: seq<GroupSize>): nat {
    if groups == [] then 0 else BufferBytes(groups[..|groups| - 1]) + GroupBytes(groups[|groups| - 1])
  }

  /** The header loop of `Mesh::create`: exactly `numGroups` pairs, in file
      order, summed into `bufferSize`. */
  method ReadHeaders(file: seq<Record>) returns (groups: seq<GroupSize>, bufferSize: nat)
    requires HasHeaders(file)
    ensures |groups| == file[0].n
    ensures forall i | 0 <= i < |groups| :: groups[i] == GroupSize(file[1 + 2 * i].n, file[2 + 2 * i].n)
    ensures bufferSize == BufferBytes(groups)
  {
    var numGroups := file[0].n;
    groups := [];
    bufferSize := 0;
    var position := 1;
    for i := 0 to numGroups
      invariant position == 1 + 2 * i
      invariant |groups| == i
      invariant forall j | 0 <= j < i :: groups[j] == GroupSize(file[1 + 2 * j].n, file[2 + 2 * j].n)
      invariant bufferSize == BufferBytes(groups)
    {
      var group := GroupSize(file[position].n, file[position + 1].n);
      position := position + 2;
      bufferSize := bufferSize + group.numVertices * VertexBytes + group.numIndices * IndexBytes;
      assert (groups + [group])[..i] == groups;
      groups := groups + [group];
    }
  }

  lemma BufferBytesSnoc(groups: seq<GroupSize>, i: nat)
    requires i < |groups|
    ensures BufferBytes(groups[..i + 1]) == BufferBytes(groups[..i]) + GroupBytes(groups[i])
  {
    assert groups[..i + 1][..i] == groups[..i];
  }

  /** Where group i's vertex view lies: after the bytes of all earlier groups. */
  function VertexView(groups: seq<GroupSize>, base: nat, i: nat): VertexBufferView
    requires i < |groups|
  {
    VertexBufferView(base + BufferBytes(groups[..i]), groups[i].numVertices * VertexBytes, VertexBytes)
  }

  /** Where group i's index view lies: right after its vertices. */
  function IndexView(groups: seq<GroupSize>, base: nat, i: nat): IndexBufferView
    requires i < |groups|
  {
    IndexBufferView(base + BufferBytes(groups[..i]) + groups[i].numVertices * VertexBytes,
                    groups[i].numIndices * IndexBytes, R16_UINT)
  }

  /** The view loop of `Mesh::create`: for each group a vertex view of stride 32
      then an index view of 16-bit indices, carved from the buffer in order. */
  method LayoutViews(groups: seq<GroupSize>, base: nat) returns (vertexBuffers: seq<VertexBufferView>, indexBuffers: seq<IndexBufferView>)
    ensures |vertexBuffers| == |groups| && |indexBuffers| == |groups|
    ensures forall i | 0 <= i < |groups| :: vertexBuffers[i] == VertexView(groups, base, i)
    ensures forall i | 0 <= i < |groups| :: indexBuffers[i] == IndexView(groups, base, i)
  {
    vertexBuffers, indexBuffers := [], [];
    var address := base;
    for i := 0 to |groups|
      invariant |vertexBuffers| == i && |indexBuffers| == i
      invariant address == base + BufferBytes(groups[..i])
      invariant forall j | 0 <= j < i :: vertexBuffers[j] == VertexView(groups, base, j)
      invariant forall j | 0 <= j < i :: indexBuffers[j] == IndexView(groups, base, j)
    {
      var group := groups[i];
      var vbv := VertexBufferView(address, group.numVertices * VertexBytes, VertexBytes);
      vertexBuffers := vertexBuffers + [vbv];
      address := address + vbv.sizeInBytes;

      var ibv := IndexBufferView(address, group.numIndices * IndexBytes, R16_UINT);
      indexBuffers := indexBuffers + [ibv];
      address := address + ibv.sizeInBytes;
      BufferBytesSnoc(groups, i);
    }
  }

  /** The views tile the buffer: each index view follows its group's vertex
      view, the next group's vertex view follows it, and the last view ends at
      base + `bufferSize`, so no two views overlap and no byte is skipped. */
  lemma ViewsTileBuffer(groups: seq<GroupSize>, base: nat)
    ensures forall i | 0 <= i < |groups| ::
      IndexView(groups, base, i).location == VertexView(groups, base, i).location + VertexView(groups, base, i).sizeInBytes
    ensures forall i | 0 <= i < |groups| - 1 ::
      VertexView(groups, base, i + 1).location == IndexView(groups, base, i).location + IndexView(groups, base, i).sizeInBytes
    ensures |groups| > 0 ==>
      IndexView(groups, base, |groups| - 1).location + IndexView(groups, base, |groups| - 1).sizeInBytes
      == base + BufferBytes(groups)
  {
    forall i | 0 <= i < |groups| - 1
      ensures VertexView(groups, base, i + 1).location == IndexView(groups, base, i).location + IndexView(groups, base, i).sizeInBytes
    {
      BufferBytesSnoc(groups, i);
    }
    if |groups| > 0 {
      BufferBytesSnoc(groups, |groups| - 1);
      assert groups[..|groups|] == groups;
    }
  }

  /** The (vertex count, index count) of each converter group. */
  function SizesOf(groups: seq<Group>): (sizes: seq<GroupSize>)
    ensures |sizes| == |groups|
  {
    seq(|groups|, i requires 0 <= i < |groups| => GroupSize(|groups[i].vertices|, |groups[i].indices|))
  }

  lemma BytesSnoc2(rs: seq<Record>, a: Record, b: Record)
    ensures Bytes(rs + [a, b]) == Bytes(rs) + RecordBytes(a) + RecordBytes(b)
  {
    assert (rs + [a, b])[..|rs| + 1] == rs + [a];
    assert (rs + [a])[..|rs|] == rs;
  }

  /** Header pair i of the writer holds group i's counts. */
  lemma {:induction false} HeaderRecordsAt(groups: seq<Group>, i: nat)
    requires i < |groups|
    ensures HeaderRecords(groups)[2 * i] == Count(|groups[i].vertices|)
    ensures HeaderRecords(groups)[2 * i + 1] == Count(|groups[i].indices|)
  {
    if i < |groups| - 1 {
      HeaderRecordsAt(groups[..|groups| - 1], i);
    }
  }

  /** The payload of the first i groups is a prefix of the whole payload, and
      the two records after it are group i's vertices and indices. */
  lemma {:induction false} PayloadRecordsPrefix(groups: seq<Group>, i: nat)
    requires i <= |groups|
    ensures PayloadRecords(groups)[..2 * i] == PayloadRecords(groups[..i])
    ensures i < |groups| ==> PayloadRecords(groups)[2 * i] == VertexRun(groups[i].vertices)
    ensures i < |groups| ==> PayloadRecords(groups)[2 * i + 1] == IndexRun(groups[i].indices)
  {
    var n := |groups|;
    if i == n {
      assert groups[..i] == groups;
    } else {
      var init := groups[..n - 1];
      assert init[..i] == groups[..i];
      if i < n - 1 {
        PayloadRecordsPrefix(init, i);
      }
    }
  }

  /** The payload occupies exactly the bytes the headers announce. */
  lemma {:induction false} PayloadBytes(groups: seq<Group>)
    ensures Bytes(PayloadRecords(groups)) == BufferBytes(SizesOf(groups))
  {
    if groups != [] {
      var n := |groups|;
      var last := groups[n - 1];
      PayloadBytes(groups[..n - 1]);
      BytesSnoc2(PayloadRecords(groups[..n - 1]), VertexRun(last.vertices), IndexRun(last.indices));
      assert SizesOf(groups)[..n - 1] == SizesOf(groups[..n - 1]);
    }
  }

  /** Round trip between the converter's writer and the game's loader: the
      loader finds the count and the header pairs it expects, reads back
      exactly the writer's (vertex count, index count) per group, and its
      `bufferSize` is the size of the payload that follows the headers. */
  lemma RoundTrip(groups: seq<Group>)
    ensures HasHeaders(Encode(groups))
    ensures HeadersOf(Encode(groups)) == SizesOf(groups)
    ensures Payload(Encode(groups)) == PayloadRecords(groups)
    ensures BufferBytes(HeadersOf(Encode(groups))) == Bytes(Payload(Encode(groups)))
  {
    var file := Encode(groups);
    var n := |groups|;
    assert file[0] == Count(n);
    forall i | 0 <= i < n
      ensures file[1 + 2 * i] == Count(|groups[i].vertices|) && file[2 + 2 * i] == Count(|groups[i].indices|)
      ensures file[1 + 2 * i].Count? && file[2 + 2 * i].Count?
    {
      HeaderRecordsAt(groups, i);
    }
    assert HasHeaders(file);
    assert HeadersOf(file) == SizesOf(groups);
    assert Payload(file) == PayloadRecords(groups);
    PayloadBytes(groups);
  }

  /** Laying the views over the payload the writer produced: group i's vertex
      view starts after the bytes of the earlier groups' records and covers
      exactly group i's vertex record, and its index view covers exactly group
      i's index record, so the game draws each group from its own data. */
  lemma ViewsMatchPayload(groups: seq<Group>, base: nat, i: nat)
    requires i < |groups|
    ensures VertexView(SizesOf(groups), base, i).location == base + Bytes(PayloadRecords(groups)[..2 * i])
    ensures VertexView(SizesOf(groups), base, i).sizeInBytes == RecordBytes(PayloadRecords(groups)[2 * i])
    ensures IndexView(SizesOf(groups), base, i).location == base + Bytes(PayloadRecords(groups)[..2 * i + 1])
    ensures IndexView(SizesOf(groups), base, i).sizeInBytes == RecordBytes(PayloadRecords(groups)[2 * i + 1])
    ensures IndexView(SizesOf(groups), base, i).sizeInBytes / IndexBytes == |groups[i].indices|
  {
    var payload := PayloadRecords(groups);
    PayloadRecordsPrefix(groups, i);
    PayloadBytes(groups[..i]);
    assert SizesOf(groups)[..i] == SizesOf(groups[..i]);
    assert payload[..2 * i + 1] == payload[..2 * i] + [payload[2 * i]];
    assert (payload[..2 * i] + [payload[2 * i]])[..2 * i] == payload[..2 * i];
  }
}
