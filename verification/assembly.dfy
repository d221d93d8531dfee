/**
 * Assemble: interleaving a mesh's per-channel arrays into one float buffer,
 * one record per vertex with the requested channels' components in request
 * order. Revision A writes into a caller-sized span and returns the number
 * of floats written; revision B appends to a list and returns the vertex
 * size. Both skip bytes that name no channel.
 */
module Assembly {
  import opened Outcomes
  import opened MeshChannels
  import opened MeshErrors
  import opened ChannelExtensions
  import opened Vectors
  import opened MeshStates

  /** Every listed channel is present on the mesh. */
  predicate AllPresent(m: MeshState, chs: seq<Channel>) {
    forall c :: c in chs ==> HasChannel(m, c)
  }

  /** Every listed channel is present with at least `n` elements. */
  predicate Readable(m: MeshState, chs: seq<Channel>, n: nat) {
    forall c :: c in chs ==> HasChannel(m, c) && n <= |m.channels[c]|
  }

  /** An element of a well-shaped channel has as many components as the channel's width. */
  lemma ComponentWidth(m: MeshState, c: Channel, i: nat)
    requires WellShaped(m) && HasChannel(m, c) && i < |m.channels[c]|
    ensures |Components(m.channels[c][i])| == Width(c)
  {
    CollectionTypeMatchesWidth(c);
  }

  /** Vertex `i`'s record: the components of each listed channel's element `i`, in list order. */
  function VertexRecord(m: MeshState, chs: seq<Channel>, i: nat): (r: seq<F>)
    requires WellShaped(m) && Readable(m, chs, i + 1)
    ensures |r| == ListSize(chs)
    decreases |chs|
  {
    if |chs| == 0 then []
    else
      var init := chs[..|chs| - 1];
      var c := chs[|chs| - 1];
      ReadableInit(m, chs, i + 1);
      ComponentWidth(m, c, i);
      VertexRecord(m, init, i) + Components(m.channels[c][i])
  }

  /** Records laid end to end. */
  function Flatten(rs: seq<seq<F>>): seq<F>
    decreases |rs|
  {
    if |rs| == 0 then [] else Flatten(rs[..|rs| - 1]) + rs[|rs| - 1]
  }

  /** Every record has `size` floats. */
  predicate Uniform(rs: seq<seq<F>>, size: nat) {
    forall k :: 0 <= k < |rs| ==> |rs[k]| == size
  }

  /** One more record lands at the end. */
  lemma FlattenSnoc(rs: seq<seq<F>>, r: seq<F>)
    ensures Flatten(rs + [r]) == Flatten(rs) + r
  {
    assert (rs + [r])[..|rs|] == rs;
  }

  /** One more record adds one vertex size. */
  lemma MulSucc(a: nat, s: nat)
    ensures (a + 1) * s == a * s + s
  {
  }

  /** Uniform records of `size` floats flatten to `|rs| * size` floats. */
  lemma {:induction false} FlattenLength(rs: seq<seq<F>>, size: nat)
    requires Uniform(rs, size)
    ensures |Flatten(rs)| == |rs| * size
    decreases |rs|
  {
    if |rs| > 0 {
      FlattenLength(rs[..|rs| - 1], size);
      MulSucc(|rs| - 1, size);
    }
  }

  /** Flattening a prefix of the records gives a prefix of the floats. */
  lemma {:induction false} FlattenPrefix(rs: seq<seq<F>>, j: nat)
    requires j <= |rs|
    ensures |Flatten(rs[..j])| <= |Flatten(rs)|
    ensures Flatten(rs)[..|Flatten(rs[..j])|] == Flatten(rs[..j])
    decreases |rs|
  {
    if j < |rs| {
      var init := rs[..|rs| - 1];
      assert init[..j] == rs[..j];
      FlattenPrefix(init, j);
      assert Flatten(rs) == Flatten(init) + rs[|rs| - 1];
      assert Flatten(rs)[..|Flatten(init)|] == Flatten(init);
    } else {
      assert rs[..j] == rs;
    }
  }

  /** With uniform records, float `p` of record `i` sits at `i * size + p`. */
  lemma FlattenAt(rs: seq<seq<F>>, size: nat, i: nat, p: nat)
    requires Uniform(rs, size) && i < |rs| && p < size
    ensures 0 <= i * size && i * size + p < |Flatten(rs)|
    ensures Flatten(rs)[i * size + p] == rs[i][p]
  {
    FlattenPrefix(rs, i + 1);
    assert rs[..i + 1] == rs[..i] + [rs[i]];
    FlattenSnoc(rs[..i], rs[i]);
    assert Uniform(rs[..i], size);
    FlattenLength(rs[..i], size);
    var front := Flatten(rs[..i + 1]);
    assert front[i * size + p] == rs[i][p];
  }

  /** Vertex records `0 .. n - 1`. */
  function Records(m: MeshState, chs: seq<Channel>, n: nat): (rs: seq<seq<F>>)
    requires WellShaped(m) && Readable(m, chs, n)
    ensures |rs| == n && Uniform(rs, ListSize(chs))
  {
    seq(n, i requires 0 <= i < n => VertexRecord(m, chs, i))
  }

  /** Record `i` of the list is vertex `i`'s record. */
  lemma RecordsAt(m: MeshState, chs: seq<Channel>, n: nat, i: nat)
    requires WellShaped(m) && Readable(m, chs, n) && i < n
    ensures Readable(m, chs, i + 1) && Records(m, chs, n)[i] == VertexRecord(m, chs, i)
  {
  }

  /** The first `n` vertex records back to back: the buffer Assemble produces. */
  function Interleave(m: MeshState, chs: seq<Channel>, n: nat): seq<F>
    requires WellShaped(m) && Readable(m, chs, n)
  {
    Flatten(Records(m, chs, n))
  }

  /** `n` records of one vertex size each. */
  lemma InterleaveLength(m: MeshState, chs: seq<Channel>, n: nat)
    requires WellShaped(m) && Readable(m, chs, n)
    ensures |Interleave(m, chs, n)| == n * ListSize(chs)
  {
    FlattenLength(Records(m, chs, n), ListSize(chs));
  }

  /** Concatenation is associative. */
  lemma AppendAssoc(a: seq<F>, b: seq<F>, c: seq<F>)
    ensures (a + b) + c == a + (b + c)
  {
  }

  /** Dropping the last channel keeps a list readable. */
  lemma ReadableInit(m: MeshState, chs: seq<Channel>, n: nat)
    requires |chs| > 0 && Readable(m, chs, n)
    ensures Readable(m, chs[..|chs| - 1], n)
  {
    assert forall d :: d in chs[..|chs| - 1] ==> d in chs;
  }

  /** Inside one record, channel `j`'s components start after the widths of the channels before it. */
  lemma {:induction false} RecordLayout(m: MeshState, chs: seq<Channel>, i: nat, j: nat, k: nat)
    requires WellShaped(m) && Readable(m, chs, i + 1)
    requires j < |chs| && k < Width(chs[j])
    ensures chs[j] in chs && |Components(m.channels[chs[j]][i])| == Width(chs[j])
    ensures ListSize(chs[..j]) + k < ListSize(chs)
    ensures VertexRecord(m, chs, i)[ListSize(chs[..j]) + k] == Components(m.channels[chs[j]][i])[k]
    decreases |chs|
  {
    var init := chs[..|chs| - 1];
    var last := chs[|chs| - 1];
    ReadableInit(m, chs, i + 1);
    ComponentWidth(m, chs[j], i);
    ComponentWidth(m, last, i);
    var front := VertexRecord(m, init, i);
    assert VertexRecord(m, chs, i) == front + Components(m.channels[last][i]);
    assert ListSize(chs) == ListSize(init) + Width(last);
    if j == |chs| - 1 {
      assert chs[..j] == init;
    } else {
      assert init[..j] == chs[..j];
      assert init[j] == chs[j];
      RecordLayout(m, init, i, j, k);
    }
  }

  /** Float `ListSize(chs[..j]) + k` of record `i` is component `k` of channel `j` at vertex `i`. */
  lemma RecordsSlot(m: MeshState, chs: seq<Channel>, n: nat, i: nat, j: nat, k: nat)
    requires WellShaped(m) && Readable(m, chs, n)
    requires i < n && j < |chs| && k < Width(chs[j])
    ensures chs[j] in chs && |Components(m.channels[chs[j]][i])| == Width(chs[j])
    ensures ListSize(chs[..j]) + k < ListSize(chs) && i < |Records(m, chs, n)|
    ensures Records(m, chs, n)[i][ListSize(chs[..j]) + k] == Components(m.channels[chs[j]][i])[k]
  {
    RecordLayout(m, chs, i, j, k);
    RecordsAt(m, chs, n, i);
  }

  /** Float `p` of record `i` sits at `i * ListSize(chs) + p` of the interleaved buffer. */
  lemma InterleaveAt(m: MeshState, chs: seq<Channel>, n: nat, i: nat, p: nat)
    requires WellShaped(m) && Readable(m, chs, n)
    requires i < n && p < ListSize(chs)
    ensures 0 <= i * ListSize(chs) && i * ListSize(chs) + p < |Interleave(m, chs, n)|
    ensures Interleave(m, chs, n)[i * ListSize(chs) + p] == Records(m, chs, n)[i][p]
  {
    FlattenAt(Records(m, chs, n), ListSize(chs), i, p);
  }

  /**
   * The interleaved layout: component `k` of channel `j` of vertex `i` sits at
   * i * vertexSize + (widths of channels before j) + k.
   */
  lemma Layout(m: MeshState, chs: seq<Channel>, n: nat, i: nat, j: nat, k: nat)
    requires WellShaped(m) && Readable(m, chs, n)
    requires i < n && j < |chs| && k < Width(chs[j])
    ensures chs[j] in chs && |Components(m.channels[chs[j]][i])| == Width(chs[j])
    ensures 0 <= i * ListSize(chs) && i * ListSize(chs) + (ListSize(chs[..j]) + k) < |Interleave(m, chs, n)|
    ensures Interleave(m, chs, n)[i * ListSize(chs) + (ListSize(chs[..j]) + k)] == Components(m.channels[chs[j]][i])[k]
  {
    RecordsSlot(m, chs, n, i, j, k);
    InterleaveAt(m, chs, n, i, ListSize(chs[..j]) + k);
  }

  /** The first listed channel the mesh lacks, in list order. */
  function FirstMissing(m: MeshState, chs: seq<Channel>): (r: Option<Channel>)
    ensures r.None? <==> AllPresent(m, chs)
    ensures r.Some? ==> r.value in chs && !HasChannel(m, r.value)
    decreases |chs|
  {
    if |chs| == 0 then None
    else
      var init := chs[..|chs| - 1];
      var c := chs[|chs| - 1];
      assert chs == init + [c];
      match FirstMissing(m, init)
      case Some(d) => Some(d)
      case None => if HasChannel(m, c) then None else Some(c)
  }

  /** A missing channel with every channel before it present is the one reported. */
  lemma {:induction false} FirstMissingAt(m: MeshState, chs: seq<Channel>, j: nat)
    requires j < |chs| && !HasChannel(m, chs[j])
    requires forall k :: 0 <= k < j ==> HasChannel(m, chs[k])
    ensures FirstMissing(m, chs) == Some(chs[j])
    decreases |chs|
  {
    var init := chs[..|chs| - 1];
    if j < |chs| - 1 {
      FirstMissingAt(m, init, j);
    } else {
      assert AllPresent(m, init) by {
        forall d | d in init
          ensures HasChannel(m, d)
        {
          var k :| 0 <= k < |init| && init[k] == d;
          assert chs[k] == d;
        }
      }
    }
  }

  /** Listing more channels after a missing one does not change which is reported. */
  lemma {:induction false} FirstMissingExtend(m: MeshState, a: seq<Channel>, b: seq<Channel>)
    requires FirstMissing(m, a).Some?
    ensures FirstMissing(m, a + b) == FirstMissing(m, a)
    decreases |b|
  {
    if |b| == 0 {
      assert a + b == a;
    } else {
      var b' := b[..|b| - 1];
      assert (a + b)[..|a + b| - 1] == a + b';
      FirstMissingExtend(m, a, b');
    }
  }

  /**
   * Revision B's checks: the channels tested in declaration order, so the
   * reported channel is the requested, missing one with the smallest value.
   */
  function FirstMissingDeclared(m: MeshState, channels: seq<ChannelByte>): (r: Option<Channel>)
    ensures r.None? <==> forall c: Channel :: Value(c) in channels ==> HasChannel(m, c)
    ensures r.Some? ==> Value(r.value) in channels && !HasChannel(m, r.value)
  {
    if Value(Position) in channels && !HasChannel(m, Position) then Some(Position)
    else if Value(UV) in channels && !HasChannel(m, UV) then Some(UV)
    else if Value(Normal) in channels && !HasChannel(m, Normal) then Some(Normal)
    else if Value(Tangent) in channels && !HasChannel(m, Tangent) then Some(Tangent)
    else if Value(BiTangent) in channels && !HasChannel(m, BiTangent) then Some(BiTangent)
    else if Value(Color) in channels && !HasChannel(m, Color) then Some(Color)
    else None
  }

  /** The channel revision B reports is the first missing one in declaration order. */
  lemma FirstMissingDeclaredIsFirst(m: MeshState, channels: seq<ChannelByte>)
    requires FirstMissingDeclared(m, channels).Some?
    ensures forall c: Channel :: Value(c) < Value(FirstMissingDeclared(m, channels).value) && Value(c) in channels ==> HasChannel(m, c)
  {
  }

  /** Both revisions throw on exactly the same requests, though not always naming the same channel. */
  lemma RevisionsFailAlike(m: MeshState, channels: seq<ChannelByte>)
    ensures FirstMissing(m, Known(channels)).Some? <==> FirstMissingDeclared(m, channels).Some?
    ensures FirstMissing(m, Known(channels)).Some? <==> exists c: Channel :: Value(c) in channels && !HasChannel(m, c)
  {
    KnownMembers(channels);
  }

  /** Asking an empty mesh for normals then positions: revision A names normals, revision B positions. */
  lemma RevisionsNameDifferentChannels()
    ensures FirstMissing(EmptyMesh, Known([2, 0])) == Some(Normal)
    ensures FirstMissingDeclared(EmptyMesh, [2, 0]) == Some(Position)
  {
    var bytes: seq<ChannelByte> := [2, 0];
    assert bytes[..1] == [2] && bytes[..1][..0] == [];
    assert Known(bytes) == [Normal, Position];
    FirstMissingAt(EmptyMesh, [Normal, Position], 0);
  }

  /** Asking an empty mesh for positions throws before any buffer is read: the lookup precedes the vertex count. */
  method EmptyMeshAssembleFails() returns (r: Result<(seq<F>, nat), MeshError>)
    ensures r == Err(ChannelMissing(Position))
  {
    var bytes: seq<ChannelByte> := [0];
    assert bytes[..0] == [];
    assert Known(bytes) == [Position];
    FirstMissingAt(EmptyMesh, [Position], 0);
    r := AssembleInto(EmptyMesh, [], bytes);
  }

  /** Overwrites `|xs|` slots from `at`, as the span writes do. */
  function Overwrite(data: seq<F>, at: nat, xs: seq<F>): (r: seq<F>)
    requires at + |xs| <= |data|
    ensures |r| == |data|
    ensures r[..at + |xs|] == data[..at] + xs
    ensures forall p :: at + |xs| <= p < |data| ==> r[p] == data[p]
  {
    data[..at] + xs + data[at + |xs|..]
  }

  /** The request's known channels split at any point of the byte list. */
  lemma KnownSplit(channels: seq<ChannelByte>, c: nat)
    requires c <= |channels|
    ensures Known(channels) == Known(channels[..c]) + Known(channels[c..])
    ensures forall d :: d in Known(channels[..c]) ==> d in Known(channels)
    ensures ListSize(Known(channels[..c])) <= ListSize(Known(channels))
  {
    assert channels == channels[..c] + channels[c..];
    KnownAppend(channels[..c], channels[c..]);
    ListSizeAppend(Known(channels[..c]), Known(channels[c..]));
  }

  /** The record grows by the components of the next known channel. */
  lemma RecordSnoc(m: MeshState, channels: seq<ChannelByte>, c: nat, v: nat)
    requires c < |channels| && WellShaped(m)
    requires Readable(m, Known(channels[..c]), v + 1)
    requires IsDefined(channels[c]) ==> HasChannel(m, ToChannel(channels[c])) && v < |m.channels[ToChannel(channels[c])]|
    ensures Readable(m, Known(channels[..c + 1]), v + 1)
    ensures VertexRecord(m, Known(channels[..c + 1]), v) == VertexRecord(m, Known(channels[..c]), v)
      + (if IsDefined(channels[c]) then Components(m.channels[ToChannel(channels[c])][v]) else [])
    ensures ListSize(Known(channels[..c + 1])) == ListSize(Known(channels[..c]))
      + (if IsDefined(channels[c]) then Width(ToChannel(channels[c])) else 0)
  {
    KnownSnoc(channels, c);
    var before := Known(channels[..c]);
    if IsDefined(channels[c]) {
      var after := Known(channels[..c + 1]);
      assert after[..|after| - 1] == before;
      assert after[|after| - 1] == ToChannel(channels[c]);
      assert VertexRecord(m, after, v) == VertexRecord(m, before, v) + Components(m.channels[ToChannel(channels[c])][v]);
      ListSizeSnoc(before, ToChannel(channels[c]));
    } else {
      assert Known(channels[..c + 1]) == before;
    }
  }

  /** The first missing byte the lookup meets is the one reported for the whole request. */
  lemma MissingStopsLookUp(m: MeshState, channels: seq<ChannelByte>, i: nat)
    requires i < |channels| && IsDefined(channels[i]) && !HasChannel(m, ToChannel(channels[i]))
    requires FirstMissing(m, Known(channels[..i])).None?
    ensures FirstMissing(m, Known(channels)) == Some(ToChannel(channels[i]))
  {
    KnownSnoc(channels, i);
    KnownSplit(channels, i + 1);
    FirstMissingExtend(m, Known(channels[..i + 1]), Known(channels[i + 1..]));
  }

  /** The lookup loop: fetches each requested array in request order and reports the first the mesh lacks. */
  method LookUp(m: MeshState, channels: seq<ChannelByte>) returns (missing: Option<Channel>)
    ensures missing == FirstMissing(m, Known(channels))
  {
    var i := 0;
    while i < |channels|
      invariant 0 <= i <= |channels|
      invariant FirstMissing(m, Known(channels[..i])).None?
    {
      KnownSnoc(channels, i);
      if IsDefined(channels[i]) && !HasChannel(m, ToChannel(channels[i])) {
        MissingStopsLookUp(m, channels, i);
        return Some(ToChannel(channels[i]));
      }
      i := i + 1;
    }
    assert channels[..i] == channels;
    return None;
  }

  /** One turn of the inner read loop: the next requested channel, if supported, is readable at `v`. */
  lemma ReadStep(m: MeshState, channels: seq<ChannelByte>, c: nat, v: nat)
    requires c < |channels| && WellShaped(m)
    requires Readable(m, Known(channels), v + 1) && Readable(m, Known(channels[..c]), v + 1)
    ensures Readable(m, Known(channels[..c + 1]), v + 1)
    ensures IsDefined(channels[c]) ==> HasChannel(m, ToChannel(channels[c])) && v < |m.channels[ToChannel(channels[c])]|
    ensures VertexRecord(m, Known(channels[..c + 1]), v) == VertexRecord(m, Known(channels[..c]), v)
      + (if IsDefined(channels[c]) then Components(m.channels[ToChannel(channels[c])][v]) else [])
  {
    KnownSplit(channels, c + 1);
    KnownSnoc(channels, c);
    RecordSnoc(m, channels, c, v);
  }

  /** The inner loop: vertex `v`'s components, channel by channel in request order. */
  method ReadRecord(m: MeshState, channels: seq<ChannelByte>, v: nat) returns (record: seq<F>)
    requires WellShaped(m) && Readable(m, Known(channels), v + 1)
    ensures record == VertexRecord(m, Known(channels), v)
  {
    record := [];
    var c := 0;
    while c < |channels|
      invariant c <= |channels|
      invariant Readable(m, Known(channels[..c]), v + 1)
      invariant record == VertexRecord(m, Known(channels[..c]), v)
    {
      ReadStep(m, channels, c, v);
      if IsDefined(channels[c]) {
        var ch := ToChannel(channels[c]);
        record := record + Components(m.channels[ch][v]);
      }
      c := c + 1;
    }
    assert channels[..c] == channels;
  }

  /** One turn of the outer write loop: vertex `v`'s record written right after the records before it. */
  method WriteVertex(m: MeshState, channels: seq<ChannelByte>, ghost records: seq<seq<F>>, v: nat, data: seq<F>, index: nat)
    returns (written: seq<F>, next: nat)
    requires WellShaped(m) && Readable(m, Known(channels), v + 1)
    requires v < |records| && records[v] == VertexRecord(m, Known(channels), v)
    requires |Flatten(records)| <= |data|
    requires index == |Flatten(records[..v])| <= |data| && data[..index] == Flatten(records[..v])
    ensures |written| == |data|
    ensures index <= next == |Flatten(records[..v + 1])| <= |data|
    ensures written[..next] == Flatten(records[..v + 1])
    ensures forall p :: next <= p < |data| ==> written[p] == data[p]
  {
    var record := ReadRecord(m, channels, v);
    FlattenPrefix(records, v + 1);
    assert records[..v + 1] == records[..v] + [record];
    FlattenSnoc(records[..v], record);
    written := Overwrite(data, index, record);
    next := index + |record|;
  }

  /** One turn of the append loop keeps the list equal to the original plus the records so far. */
  lemma AppendStep(vertexData: seq<F>, records: seq<seq<F>>, v: nat, data: seq<F>, record: seq<F>)
    requires v < |records| && record == records[v]
    requires data == vertexData + Flatten(records[..v])
    ensures data + record == vertexData + Flatten(records[..v + 1])
  {
    assert records[..v + 1] == records[..v] + [record];
    FlattenSnoc(records[..v], record);
    AppendAssoc(vertexData, Flatten(records[..v]), record);
  }

  /** The outer write loop: every vertex's record, overwriting the buffer from the front. */
  method WriteVertices(m: MeshState, vertexData: seq<F>, channels: seq<ChannelByte>, n: nat) returns (data: seq<F>, index: nat)
    requires WellShaped(m) && Readable(m, Known(channels), n)
    requires n * ListSize(Known(channels)) <= |vertexData|
    ensures index == n * ListSize(Known(channels))
    ensures |data| == |vertexData|
    ensures data[..index] == Interleave(m, Known(channels), n)
    ensures data[index..] == vertexData[index..]
  {
    ghost var records := Records(m, Known(channels), n);
    FlattenLength(records, ListSize(Known(channels)));
    data := vertexData;
    index := 0;
    var v := 0;
    while v < n
      invariant v <= n
      invariant |data| == |vertexData|
      invariant index == |Flatten(records[..v])| <= |vertexData|
      invariant data[..index] == Flatten(records[..v])
      invariant forall p :: index <= p < |data| ==> data[p] == vertexData[p]
    {
      RecordsAt(m, Known(channels), n, v);
      data, index := WriteVertex(m, channels, records, v, data, index);
      v := v + 1;
    }
    assert records[..v] == records;
    assert data[index..] == vertexData[index..];
  }

  /**
   * Revision A: looks up each requested array in request order, throwing on
   * the first the mesh lacks, then overwrites the front of `vertexData` with
   * the interleaved records of every vertex and returns the new buffer and
   * the number of floats written. The caller sizes the buffer.
   */
  method AssembleInto(m: MeshState, vertexData: seq<F>, channels: seq<ChannelByte>) returns (r: Result<(seq<F>, nat), MeshError>)
    requires WellShaped(m)
    requires AllPresent(m, Known(channels)) ==> HasChannel(m, Position)
    requires AllPresent(m, Known(channels)) ==> forall c :: c in Known(channels) ==> GetVertexCount(m) <= |m.channels[c]|
    requires AllPresent(m, Known(channels)) ==> GetVertexCount(m) * ListSize(Known(channels)) <= |vertexData|
    ensures r.Err? <==> !AllPresent(m, Known(channels))
    ensures r.Err? ==> r.error == ChannelMissing(FirstMissing(m, Known(channels)).value)
    ensures r.Ok? ==> HasChannel(m, Position) && r.value.1 == GetVertexCount(m) * ListSize(Known(channels))
    ensures r.Ok? ==> |r.value.0| == |vertexData|
    ensures r.Ok? ==> HasChannel(m, Position) && r.value.0[..r.value.1] == Interleave(m, Known(channels), GetVertexCount(m))
    ensures r.Ok? ==> r.value.0[r.value.1..] == vertexData[r.value.1..]
  {
    var missing := LookUp(m, channels);
    if missing.Some? {
      return Err(ChannelMissing(missing.value));
    }
    var n := GetVertexCount(m);
    assert Readable(m, Known(channels), n);
    var data, count := WriteVertices(m, vertexData, channels, n);
    return Ok((data, count));
  }

  /** The vertex-size loop of revision B: the widths of the known requested channels, repeats counted. */
  method RequestedSize(channels: seq<ChannelByte>) returns (size: nat)
    ensures size == ListSize(Known(channels))
  {
    size := 0;
    var c := 0;
    while c < |channels|
      invariant c <= |channels|
      invariant size == ListSize(Known(channels[..c]))
    {
      KnownSnoc(channels, c);
      var b := channels[c];
      var w := 0;
      if b == 0 {
        w := 3;
      } else if b == 1 {
        w := 2;
      } else if b == 2 {
        w := 3;
      } else if b == 3 {
        w := 3;
      } else if b == 4 {
        w := 3;
      } else if b == 5 {
        w := 4;
      }
      if IsDefined(b) {
        assert w == Width(ToChannel(b));
        ListSizeSnoc(Known(channels[..c]), ToChannel(b));
      }
      size := size + w;
      c := c + 1;
    }
    assert channels[..c] == channels;
  }

  /** The append loop of revision B: every vertex's record added to the end of the list. */
  method AppendVertices(m: MeshState, vertexData: seq<F>, channels: seq<ChannelByte>, n: nat) returns (data: seq<F>)
    requires WellShaped(m) && Readable(m, Known(channels), n)
    ensures data == vertexData + Interleave(m, Known(channels), n)
  {
    ghost var records := Records(m, Known(channels), n);
    data := vertexData;
    var v := 0;
    while v < n
      invariant v <= n
      invariant data == vertexData + Flatten(records[..v])
    {
      RecordsAt(m, Known(channels), n, v);
      var record := ReadRecord(m, channels, v);
      AppendStep(vertexData, records, v, data, record);
      data := data + record;
      v := v + 1;
    }
    assert records[..v] == records;
  }

  /**
   * Revision B: checks the requested channels in declaration order, throwing
   * on the first the mesh lacks, then appends the interleaved records of
   * every vertex (none when the mesh has no positions) to `vertexData` and
   * returns the new list and the vertex size.
   */
  method AssembleAppend(m: MeshState, vertexData: seq<F>, channels: seq<ChannelByte>) returns (r: Result<(seq<F>, nat), MeshError>)
    requires WellShaped(m)
    requires AllPresent(m, Known(channels)) ==> forall c :: c in Known(channels) ==> GetListVertexCount(m) <= |m.channels[c]|
    ensures r.Err? <==> FirstMissingDeclared(m, channels).Some?
    ensures r.Err? <==> !AllPresent(m, Known(channels))
    ensures r.Err? ==> r.error == ChannelMissing(FirstMissingDeclared(m, channels).value)
    ensures r.Ok? ==> r.value.0 == vertexData + Interleave(m, Known(channels), GetListVertexCount(m))
    ensures r.Ok? ==> r.value.1 == ListSize(Known(channels))
  {
    RevisionsFailAlike(m, channels);
    var missing := FirstMissingDeclared(m, channels);
    if missing.Some? {
      return Err(ChannelMissing(missing.value));
    }
    var n := GetListVertexCount(m);
    assert Readable(m, Known(channels), n);
    var data := AppendVertices(m, vertexData, channels, n);
    var size := RequestedSize(channels);
    return Ok((data, size));
  }
}
