/**
 * The quad scenarios the repository's tests walk through, stated for every
 * mesh of their shape: a quad with positions, colors, UVs and normals,
 * assembled for rendering with the channels Position, Normal and UV.
 */
module Scenarios {
  import opened MeshChannels
  import opened ChannelExtensions
  import opened Vectors
  import opened MeshStates
  import opened Assembly

  /** The channels of the rendering tests, in request order. */
  const RenderChannels: seq<Channel> := [Position, Normal, UV]

  /** The same request as the bytes a caller passes. */
  const RenderRequest: seq<ChannelByte> := [0, 2, 1]

  /** Normal starts 3 floats into a record, UV 6, and a record is 3 + 3 + 2 floats. */
  lemma RenderOffsets()
    ensures ListSize(RenderChannels[..0]) == 0
    ensures ListSize(RenderChannels[..1]) == 3
    ensures ListSize(RenderChannels[..2]) == 6
    ensures ListSize(RenderChannels) == 8
  {
    var chs := RenderChannels;
    assert chs[..1][..0] == [];
    assert chs[..2][..1] == chs[..1];
    assert chs[..3] == chs;
  }

  /** The request bytes name Position, Normal and UV, so a vertex takes 8 floats. */
  lemma RenderRequestSize()
    ensures Known(RenderRequest) == RenderChannels
    ensures ListSize(Known(RenderRequest)) == 8
  {
    var b := RenderRequest;
    assert b[..2] == [0, 2] && b[..2][..1] == [0] && b[..2][..1][..0] == [];
    RenderOffsets();
  }

  /** A mesh the request can be assembled from: the three channels are present with at least `n` vertices. */
  predicate RenderReady(m: MeshState, n: nat) {
    && WellShaped(m)
    && HasChannel(m, Position) && n <= |m.channels[Position]|
    && HasChannel(m, Normal) && n <= |m.channels[Normal]|
    && HasChannel(m, UV) && n <= |m.channels[UV]|
  }

  /** The facts about the request that locating a float needs. */
  lemma RenderFacts(m: MeshState, n: nat)
    requires RenderReady(m, n)
    ensures Readable(m, RenderChannels, n)
    ensures RenderChannels[0] == Position && RenderChannels[1] == Normal && RenderChannels[2] == UV
    ensures ListSize(RenderChannels) == 8 && ListSize(RenderChannels[..0]) == 0
    ensures ListSize(RenderChannels[..1]) == 3 && ListSize(RenderChannels[..2]) == 6
  {
    RenderOffsets();
  }

  /** Component k of vertex v's position is the float at v * 8 + k. */
  lemma RenderedPosition(m: MeshState, n: nat, v: nat, k: nat)
    requires RenderReady(m, n) && v < n && k < 3
    ensures v * 8 + k < |Interleave(m, RenderChannels, n)|
    ensures Interleave(m, RenderChannels, n)[v * 8 + k] == Components(m.channels[Position][v])[k]
  {
    RenderFacts(m, n);
    Layout(m, RenderChannels, n, v, 0, k);
  }

  /** Component k of vertex v's normal is the float at v * 8 + 3 + k. */
  lemma RenderedNormal(m: MeshState, n: nat, v: nat, k: nat)
    requires RenderReady(m, n) && v < n && k < 3
    ensures v * 8 + 3 + k < |Interleave(m, RenderChannels, n)|
    ensures Interleave(m, RenderChannels, n)[v * 8 + 3 + k] == Components(m.channels[Normal][v])[k]
  {
    RenderFacts(m, n);
    Layout(m, RenderChannels, n, v, 1, k);
  }

  /** Component k of vertex v's UV is the float at v * 8 + 6 + k. */
  lemma RenderedUV(m: MeshState, n: nat, v: nat, k: nat)
    requires RenderReady(m, n) && v < n && k < 2
    ensures v * 8 + 6 + k < |Interleave(m, RenderChannels, n)|
    ensures Interleave(m, RenderChannels, n)[v * 8 + 6 + k] == Components(m.channels[UV][v])[k]
  {
    RenderFacts(m, n);
    Layout(m, RenderChannels, n, v, 2, k);
  }

  /**
   * The quad of the tests carries positions, colors, UVs and normals but no
   * tangents, so the mesh's vertex size is 3 + 4 + 2 + 3.
   */
  lemma QuadMeshVertexSize(m: MeshState)
    requires HasChannel(m, Position) && HasChannel(m, Color) && HasChannel(m, UV) && HasChannel(m, Normal)
    requires !HasChannel(m, Tangent) && !HasChannel(m, BiTangent)
    ensures GetMeshVertexSize(m) == 12
  {
    GetChannelsMergesBiTangents(m);
    PresentVertexSizeAddsWidths(m);
  }

  /** The quad's two triangles append 0, 1, 2, 2, 3, 0 and leave the version alone. */
  lemma QuadTriangles(m: MeshState)
    ensures AddTriangle(AddTriangle(m, 0, 1, 2), 2, 3, 0).indices == m.indices + [0, 1, 2, 2, 3, 0]
    ensures GetIndexCount(AddTriangle(AddTriangle(m, 0, 1, 2), 2, 3, 0)) == GetIndexCount(m) + 6
    ensures AddTriangle(AddTriangle(m, 0, 1, 2), 2, 3, 0).version == m.version
  {
    assert m.indices + [0, 1, 2] + [2, 3, 0] == m.indices + [0, 1, 2, 2, 3, 0];
  }

  /**
   * A fresh mesh that creates three positions and writes them is at version
   * 1; the triangle that follows keeps it there, and the vertex count is 3.
   */
  lemma CreateThenWriteIsVersionOne(p0: Vector, p1: Vector, p2: Vector)
    requires KindOf(p0) == KindOf(p1) == KindOf(p2) == Vector3Kind
    ensures Create(EmptyMesh, Position, 3).Ok?
    ensures var m1 := Create(EmptyMesh, Position, 3).value;
      var m2 := WriteElement(WriteElement(WriteElement(m1, Position, 0, p0), Position, 1, p1), Position, 2, p2);
      var m3 := AddTriangle(m2, 0, 1, 2);
      m1.version == 1 && m2.version == 1 && m3.version == 1
      && GetVertexCount(m3) == 3 && m3.channels[Position] == [p0, p1, p2]
  {
    var m1 := Create(EmptyMesh, Position, 3).value;
    var m2 := WriteElement(WriteElement(WriteElement(m1, Position, 0, p0), Position, 1, p1), Position, 2, p2);
    assert m2.channels[Position] == [p0, p1, p2];
  }
}
