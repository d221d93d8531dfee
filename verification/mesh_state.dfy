/**
 * A mesh entity's data as the extension methods see it: a presence-gated
 * array per channel, the index array, and the IsMesh version counter.
 * Revision A is the array-based MeshExtensions (Create/Resize bump the
 * version); revision B is the list-based MeshFunctions (Create makes an empty
 * list and leaves the version alone).
 */
module MeshStates {
  import opened Outcomes
  import opened MeshChannels
  import opened MeshErrors
  import opened ChannelExtensions
  import opened Vectors
  import opened IsMeshComponent

  /** C# uint. */
  type u32 = x: int | 0 <= x < 0x1_0000_0000

  /**
   * A channel is present exactly when it is a key of `channels`, whatever the
   * length of its array.
   */
  datatype MeshState = MeshState(channels: map<Channel, seq<Vector>>, indices: seq<u32>, version: u16)

  /** A fresh mesh: no channels, no indices, version 0. */
  const EmptyMesh: MeshState := MeshState(map[], [], 0)

  /** Every array holds vectors of its channel's declared type, as the typed arrays of the source guarantee. */
  predicate WellShaped(m: MeshState) {
    forall c, i :: c in m.channels && 0 <= i < |m.channels[c]| ==> KindOf(m.channels[c][i]) == KindOfChannel(c)
  }

  /** HasPositions, HasUVs, HasNormals, HasTangents, HasBiTangents, HasColors. */
  predicate HasChannel(m: MeshState, c: Channel) {
    c in m.channels
  }

  /**
   * ContainsChannel(channel): false only when the byte names a member the
   * mesh lacks; a byte naming no member falls through to true.
   */
  function ContainsChannel(m: MeshState, channel: ChannelByte): (r: bool)
    ensures !IsDefined(channel) ==> r
    ensures IsDefined(channel) ==> (r <==> HasChannel(m, ToChannel(channel)))
  {
    if channel == 0 && !HasChannel(m, Position) then false
    else if channel == 1 && !HasChannel(m, UV) then false
    else if channel == 2 && !HasChannel(m, Normal) then false
    else if channel == 3 && !HasChannel(m, Tangent) then false
    else if channel == 4 && !HasChannel(m, BiTangent) then false
    else if channel == 5 && !HasChannel(m, Color) then false
    else true
  }

  /** ContainsChannel(mask): every channel whose flag is set is present; the spare bits are ignored. */
  function ContainsChannels(m: MeshState, mask: Mask): (r: bool)
    ensures r <==> forall c: Channel :: Has(mask, c) ==> HasChannel(m, c)
  {
    if mask & Positions != 0 && !HasChannel(m, Position) then false
    else if mask & UVs != 0 && !HasChannel(m, UV) then false
    else if mask & Normals != 0 && !HasChannel(m, Normal) then false
    else if mask & Tangents != 0 && !HasChannel(m, Tangent) then false
    else if mask & BiTangents != 0 && !HasChannel(m, BiTangent) then false
    else if mask & Colors != 0 && !HasChannel(m, Color) then false
    else true
  }

  /** The mask query is the per-channel query asked for every flag that is set. */
  lemma ContainsChannelsPerFlag(m: MeshState, mask: Mask)
    ensures ContainsChannels(m, mask) <==> forall c: Channel :: Has(mask, c) ==> ContainsChannel(m, Value(c))
  {
    forall c: Channel
      ensures ContainsChannel(m, Value(c)) <==> HasChannel(m, c)
    {
      ValueRoundTrip(c);
    }
  }

  /**
   * Revision A GetVertexCount: the length of the positions array. It agrees
   * with revision B whenever positions exist, and every vertex it counts has
   * a Vector3 position.
   */
  function GetVertexCount(m: MeshState): (r: nat)
    requires HasChannel(m, Position)
    ensures r == GetListVertexCount(m)
    ensures WellShaped(m) ==> forall i :: 0 <= i < r ==> KindOf(m.channels[Position][i]) == Vector3Kind
  {
    |m.channels[Position]|
  }

  /** Revision B GetVertexCount: zero without positions, otherwise their count. */
  function GetListVertexCount(m: MeshState): (r: nat)
    ensures HasChannel(m, Position) ==> r == |m.channels[Position]|
    ensures !HasChannel(m, Position) ==> r == 0
  {
    if HasChannel(m, Position) then |m.channels[Position]| else 0
  }

  /** GetIndexCount: the number of indices, zero exactly for an empty index array. */
  function GetIndexCount(m: MeshState): (r: nat)
    ensures r == 0 <==> m.indices == []
  {
    |m.indices|
  }

  /**
   * GetChannels (revision A) and GetChannelMask (revision B), as written:
   * bi-tangents set the Tangents flag, so the BiTangents flag is never set.
   */
  function GetChannels(m: MeshState): (r: Mask)
    ensures forall c: Channel :: c != Tangent && c != BiTangent ==> (Has(r, c) <==> HasChannel(m, c))
    ensures Has(r, Tangent) <==> HasChannel(m, Tangent) || HasChannel(m, BiTangent)
    ensures !Has(r, BiTangent)
    ensures r & SpareBits == 0
  {
    var mask := EmptyMask;
    var mask := if HasChannel(m, Position) then mask | Positions else mask;
    var mask := if HasChannel(m, UV) then mask | UVs else mask;
    var mask := if HasChannel(m, Normal) then mask | Normals else mask;
    var mask := if HasChannel(m, Tangent) then mask | Tangents else mask;
    var mask := if HasChannel(m, BiTangent) then mask | Tangents else mask;
    var mask := if HasChannel(m, Color) then mask | Colors else mask;
    mask
  }

  /** The presence mask with each channel on its own flag: GetChannels as evidently intended. */
  function PresentChannels(m: MeshState): (r: Mask)
    ensures forall c: Channel :: Has(r, c) <==> HasChannel(m, c)
    ensures r & SpareBits == 0
  {
    var mask := EmptyMask;
    var mask := if HasChannel(m, Position) then mask | Positions else mask;
    var mask := if HasChannel(m, UV) then mask | UVs else mask;
    var mask := if HasChannel(m, Normal) then mask | Normals else mask;
    var mask := if HasChannel(m, Tangent) then mask | Tangents else mask;
    var mask := if HasChannel(m, BiTangent) then mask | BiTangents else mask;
    var mask := if HasChannel(m, Color) then mask | Colors else mask;
    mask
  }

  /**
   * Revision A GetVertexSize: the mask size of GetChannels. Tangents and
   * bi-tangents share one flag, so together they add 3 floats, not 6.
   */
  function GetMeshVertexSize(m: MeshState): (r: nat)
    ensures r == (if HasChannel(m, Position) then 3 else 0) + (if HasChannel(m, UV) then 2 else 0)
      + (if HasChannel(m, Normal) then 3 else 0)
      + (if HasChannel(m, Tangent) || HasChannel(m, BiTangent) then 3 else 0)
      + (if HasChannel(m, Color) then 4 else 0)
  {
    var mask := GetChannels(m);
    assert Has(mask, Position) == HasChannel(m, Position);
    assert Has(mask, UV) == HasChannel(m, UV);
    assert Has(mask, Normal) == HasChannel(m, Normal);
    assert Has(mask, Color) == HasChannel(m, Color);
    GetVertexSize(mask)
  }

  /** The vertex size of the channels actually present: GetVertexSize as evidently intended. */
  function PresentVertexSize(m: MeshState): nat {
    GetVertexSize(PresentChannels(m))
  }

  /** The mask of the present channels always passes ContainsChannel(mask), and it fixes the mesh's channel set. */
  lemma PresentChannelsAreContained(m: MeshState, other: MeshState)
    ensures ContainsChannels(m, PresentChannels(m))
    ensures PresentChannels(m) == PresentChannels(other) <==> m.channels.Keys == other.channels.Keys
  {
    if PresentChannels(m) == PresentChannels(other) {
      forall c: Channel
        ensures c in m.channels <==> c in other.channels
      {
        assert Has(PresentChannels(m), c) == Has(PresentChannels(other), c);
      }
    }
    if m.channels.Keys == other.channels.Keys {
      MaskExtensionality(PresentChannels(m), PresentChannels(other));
    }
  }

  /** Each present channel adds its width to the corrected vertex size. */
  lemma PresentVertexSizeAddsWidths(m: MeshState)
    ensures PresentVertexSize(m) ==
      (if HasChannel(m, Position) then 3 else 0) + (if HasChannel(m, UV) then 2 else 0)
      + (if HasChannel(m, Normal) then 3 else 0) + (if HasChannel(m, Tangent) then 3 else 0)
      + (if HasChannel(m, BiTangent) then 3 else 0) + (if HasChannel(m, Color) then 4 else 0)
  {
    var r := PresentChannels(m);
    assert Has(r, Position) == HasChannel(m, Position);
    assert Has(r, UV) == HasChannel(m, UV);
    assert Has(r, Normal) == HasChannel(m, Normal);
    assert Has(r, Tangent) == HasChannel(m, Tangent);
    assert Has(r, BiTangent) == HasChannel(m, BiTangent);
    assert Has(r, Color) == HasChannel(m, Color);
  }

  /**
   * GetChannels as written: the reported vertex size falls short of the
   * present channels' exactly when tangents and bi-tangents are both present,
   * and a mesh with bi-tangents but no tangents fails ContainsChannel on its
   * own mask.
   */
  lemma GetChannelsMergesBiTangents(m: MeshState)
    ensures GetMeshVertexSize(m) == PresentVertexSize(m) <==> !(HasChannel(m, Tangent) && HasChannel(m, BiTangent))
    ensures HasChannel(m, Tangent) && HasChannel(m, BiTangent) ==> GetMeshVertexSize(m) + 3 == PresentVertexSize(m)
    ensures HasChannel(m, BiTangent) && !HasChannel(m, Tangent) ==> !ContainsChannels(m, GetChannels(m))
  {
    PresentVertexSizeAddsWidths(m);
    var r := GetChannels(m);
    assert Has(r, Position) == HasChannel(m, Position);
    assert Has(r, UV) == HasChannel(m, UV);
    assert Has(r, Normal) == HasChannel(m, Normal);
    assert Has(r, Tangent) == (HasChannel(m, Tangent) || HasChannel(m, BiTangent));
    assert !Has(r, BiTangent);
    assert Has(r, Color) == HasChannel(m, Color);
  }

  /** A concrete mesh holding only a bi-tangent array: its own GetChannels mask claims tangents it does not have. */
  lemma BiTangentOnlyMeshFailsItsOwnMask()
    ensures var m := MeshState(map[BiTangent := []], [], 0);
      !ContainsChannels(m, GetChannels(m)) && ContainsChannels(m, PresentChannels(m))
  {
    var m := MeshState(map[BiTangent := []], [], 0);
    GetChannelsMergesBiTangents(m);
    PresentChannelsAreContained(m, m);
  }

  /** IncrementVersion: the IsMesh counter goes up by one, wrapping at 65536. */
  function IncrementVersion(m: MeshState): (r: MeshState)
    ensures r.version != m.version
    ensures r.channels == m.channels && r.indices == m.indices
  {
    m.(version := Increment(m.version))
  }

  /** A fresh array of `length` default vectors of the channel's type. */
  function ZeroArray(c: Channel, length: nat): (r: seq<Vector>)
    ensures |r| == length
    ensures forall i :: 0 <= i < length ==> r[i] == ZeroOf(KindOfChannel(c))
  {
    seq(length, _ => ZeroOf(KindOfChannel(c)))
  }

  /**
   * Revision A Create<Channel>(length): throws when the channel is already
   * present; otherwise increments the version once and attaches an array of
   * `length` default vectors.
   */
  function Create(m: MeshState, c: Channel, length: u32): (r: Result<MeshState, MeshError>)
    ensures r.Err? <==> HasChannel(m, c)
    ensures r.Err? ==> r.error == ChannelAlreadyPresent(c)
    ensures r.Ok? ==> HasChannel(r.value, c) && |r.value.channels[c]| == length
    ensures r.Ok? ==> forall i :: 0 <= i < length ==> r.value.channels[c][i] == ZeroOf(KindOfChannel(c))
    ensures r.Ok? ==> r.value.version == Increment(m.version)
    ensures r.Ok? ==> r.value.channels - {c} == m.channels - {c} && r.value.indices == m.indices
    ensures r.Ok? && WellShaped(m) ==> WellShaped(r.value)
  {
    if HasChannel(m, c) then Err(ChannelAlreadyPresent(c))
    else
      var m' := IncrementVersion(m);
      Ok(m'.(channels := m'.channels[c := ZeroArray(c, length)]))
  }

  /** The host's array resize: keeps the common prefix and fills new slots with default vectors. */
  function Resized(c: Channel, prev: seq<Vector>, length: nat): (r: seq<Vector>)
    ensures |r| == length
    ensures length <= |prev| ==> r == prev[..length]
    ensures length > |prev| ==> r[..|prev|] == prev && forall i :: |prev| <= i < length ==> r[i] == ZeroOf(KindOfChannel(c))
  {
    if length <= |prev| then prev[..length] else prev + ZeroArray(c, length - |prev|)
  }

  /**
   * Revision A Resize<Channel>(length): throws when the channel is missing;
   * otherwise increments the version once and resizes the array.
   */
  function Resize(m: MeshState, c: Channel, length: u32): (r: Result<MeshState, MeshError>)
    ensures r.Err? <==> !HasChannel(m, c)
    ensures r.Err? ==> r.error == ChannelMissing(c)
    ensures r.Ok? ==> HasChannel(r.value, c) && |r.value.channels[c]| == length
    ensures r.Ok? ==> forall i :: 0 <= i < length && i < |m.channels[c]| ==> r.value.channels[c][i] == m.channels[c][i]
    ensures r.Ok? ==> r.value.channels[c] == Resized(c, m.channels[c], length)
    ensures r.Ok? ==> r.value.version == Increment(m.version)
    ensures r.Ok? ==> r.value.channels - {c} == m.channels - {c} && r.value.indices == m.indices
    ensures r.Ok? && WellShaped(m) ==> WellShaped(r.value)
  {
    if !HasChannel(m, c) then Err(ChannelMissing(c))
    else
      var m' := IncrementVersion(m);
      Ok(m'.(channels := m'.channels[c := Resized(c, m.channels[c], length)]))
  }

  /** A write through the span Create or Resize returned: replaces one element and leaves the version alone. */
  function WriteElement(m: MeshState, c: Channel, i: nat, v: Vector): (r: MeshState)
    requires HasChannel(m, c) && i < |m.channels[c]|
    ensures HasChannel(r, c) && |r.channels[c]| == |m.channels[c]| && r.channels[c][i] == v
    ensures forall j :: 0 <= j < |m.channels[c]| && j != i ==> r.channels[c][j] == m.channels[c][j]
    ensures r.channels - {c} == m.channels - {c} && r.indices == m.indices
    ensures r.version == m.version
    ensures WellShaped(m) && KindOf(v) == KindOfChannel(c) ==> WellShaped(r)
  {
    m.(channels := m.channels[c := m.channels[c][i := v]])
  }

  /** Revision B Create<Channel>(): throws when present; otherwise attaches an empty list, version untouched. */
  function CreateList(m: MeshState, c: Channel): (r: Result<MeshState, MeshError>)
    ensures r.Err? <==> HasChannel(m, c)
    ensures r.Err? ==> r.error == ChannelAlreadyPresent(c)
    ensures r.Ok? ==> HasChannel(r.value, c) && r.value.channels[c] == []
    ensures r.Ok? ==> r.value.version == m.version
    ensures r.Ok? ==> r.value.channels - {c} == m.channels - {c} && r.value.indices == m.indices
    ensures r.Ok? && WellShaped(m) ==> WellShaped(r.value)
  {
    if HasChannel(m, c) then Err(ChannelAlreadyPresent(c))
    else Ok(m.(channels := m.channels[c := []]))
  }

  /** AddIndices, as written: appends the indices in order and does not touch the version. */
  function AddIndices(m: MeshState, indices: seq<u32>): (r: MeshState)
    ensures GetIndexCount(r) == GetIndexCount(m) + |indices|
    ensures r.indices[..|m.indices|] == m.indices && r.indices[|m.indices|..] == indices
    ensures r.version == m.version && r.channels == m.channels
  {
    m.(indices := m.indices + indices)
  }

  /** AddIndex: one index appended, version untouched. */
  function AddIndex(m: MeshState, index: u32): (r: MeshState)
    ensures r == AddIndices(m, [index])
    ensures GetIndexCount(r) == GetIndexCount(m) + 1 && r.indices[|m.indices|] == index
  {
    m.(indices := m.indices + [index])
  }

  /** AddTriangle: three indices appended in argument order, version untouched. */
  function AddTriangle(m: MeshState, a: u32, b: u32, c: u32): (r: MeshState)
    ensures r == AddIndex(AddIndex(AddIndex(m, a), b), c)
    ensures r == AddIndices(m, [a, b, c])
  {
    m.(indices := m.indices + [a, b, c])
  }

  /** ResizeIndices: the index array takes the new length, keeping its prefix; the version is untouched. */
  function ResizeIndices(m: MeshState, length: u32): (r: MeshState)
    ensures GetIndexCount(r) == length
    ensures forall i :: 0 <= i < length && i < |m.indices| ==> r.indices[i] == m.indices[i]
    ensures r.version == m.version && r.channels == m.channels
  {
    var kept := if length <= |m.indices| then m.indices[..length] else m.indices + seq(length - |m.indices|, _ => 0);
    m.(indices := kept)
  }

  /** Appending indices as evidently intended: like AddIndices, but counted as a mutation. */
  function AddIndicesTracked(m: MeshState, indices: seq<u32>): (r: MeshState)
    ensures r.indices == AddIndices(m, indices).indices && r.channels == m.channels
    ensures r.version != m.version
    ensures m.version < 0xFFFF ==> r.version > m.version
  {
    IncrementVersion(AddIndices(m, indices))
  }

  /**
   * Index appends as written: a non-empty append changes the mesh yet keeps
   * its version, so anything keyed on the version cannot see it; the tracked
   * append is seen.
   */
  lemma IndexAppendIsInvisibleToVersion(m: MeshState, indices: seq<u32>)
    requires |indices| > 0
    ensures AddIndices(m, indices) != m && AddIndices(m, indices).version == m.version
    ensures AddIndicesTracked(m, indices).version != m.version
  {
    assert |AddIndices(m, indices).indices| != |m.indices|;
  }

  /** The mutations a caller can chain on a mesh. */
  datatype Edit =
    | CreateEdit(channel: Channel, length: u32)
    | ResizeEdit(channel: Channel, length: u32)
    | IndexEdit(indices: seq<u32>)

  /** One edit; `tracked` picks the index append that bumps the version instead of the source's. */
  function Apply(m: MeshState, e: Edit, tracked: bool): Result<MeshState, MeshError> {
    match e
    case CreateEdit(c, n) => Create(m, c, n)
    case ResizeEdit(c, n) => Resize(m, c, n)
    case IndexEdit(xs) => Ok(if tracked then AddIndicesTracked(m, xs) else AddIndices(m, xs))
  }

  /** A chain of edits, stopping at the first that throws. */
  function ApplyAll(m: MeshState, edits: seq<Edit>, tracked: bool): Result<MeshState, MeshError>
    decreases |edits|
  {
    if |edits| == 0 then Ok(m)
    else match Apply(m, edits[0], tracked)
      case Err(e) => Err(e)
      case Ok(m') => ApplyAll(m', edits[1..], tracked)
  }

  /** How many version increments a chain performs. */
  function Bumps(edits: seq<Edit>, tracked: bool): (n: nat)
    ensures n <= |edits|
    ensures tracked ==> n == |edits|
    decreases |edits|
  {
    if |edits| == 0 then 0
    else (if edits[0].IndexEdit? && !tracked then 0 else 1) + Bumps(edits[1..], tracked)
  }

  /**
   * A successful chain advances the version by one per Create/Resize (and
   * per index append when tracked), modulo 65536.
   */
  lemma {:induction false} ApplyAllVersion(m: MeshState, edits: seq<Edit>, tracked: bool)
    requires ApplyAll(m, edits, tracked).Ok?
    ensures ApplyAll(m, edits, tracked).value.version == IncrementTimes(m.version, Bumps(edits, tracked))
    decreases |edits|
  {
    if |edits| > 0 {
      var m' := Apply(m, edits[0], tracked).value;
      ApplyAllVersion(m', edits[1..], tracked);
      if !(edits[0].IndexEdit? && !tracked) {
        IncrementTimesShift(m.version, Bumps(edits[1..], tracked));
      }
    }
  }

  /** No chain of edits removes a channel or breaks the arrays' shapes: presence only ever goes from absent to present. */
  lemma {:induction false} ApplyAllKeepsChannels(m: MeshState, edits: seq<Edit>, tracked: bool)
    requires ApplyAll(m, edits, tracked).Ok?
    ensures m.channels.Keys <= ApplyAll(m, edits, tracked).value.channels.Keys
    ensures WellShaped(m) ==> WellShaped(ApplyAll(m, edits, tracked).value)
    decreases |edits|
  {
    if |edits| > 0 {
      var m' := Apply(m, edits[0], tracked).value;
      ApplyAllKeepsChannels(m', edits[1..], tracked);
      assert m.channels.Keys <= m'.channels.Keys;
    }
  }

  /** With index appends counted as mutations, every non-empty chain that does not wrap strictly raises the version. */
  lemma TrackedChainRaisesVersion(m: MeshState, edits: seq<Edit>)
    requires ApplyAll(m, edits, true).Ok?
    requires 0 < |edits| && m.version + |edits| < 0x1_0000
    ensures ApplyAll(m, edits, true).value.version == m.version + |edits|
    ensures ApplyAll(m, edits, true).value.version > m.version
  {
    ApplyAllVersion(m, edits, true);
    IncrementTimesNoWrap(m.version, |edits|);
  }
}
