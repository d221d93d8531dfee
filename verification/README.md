# meshes — a Dafny model of the mesh channel core

This project models the data core of the `meshes` library. A mesh entity holds:

- one optional array per vertex channel (positions, UVs, normals, tangents, bi-tangents, colors);
- an index array;
- an `IsMesh` component with a 16-bit version counter.

The model covers these parts of the library:

- **Channels and masks.** The `MeshChannel` / `Mesh.Channel` enums and the byte-backed `MeshChannelMask` / `Mesh.ChannelMask` flags. Channels arrive as raw bytes, so a byte outside 0..5 is representable and is handled as the source handles it.
- **Channel helpers.** The helpers in `MeshChannelExtensions` and `ChannelExtensions`: AddChannel, GetChannelMask, the list and mask GetVertexSize, Contains and GetCollectionType.
- **Mesh state.** Presence-gated mesh state and its queries and mutations, in two revisions:
  - revision A is the array-based `MeshExtensions`;
  - revision B is the list-based `MeshFunctions`.
- **Assemble.** Both revisions of Assemble, which interleave the requested channels into one float buffer with one record per vertex.
- **`Mesh.Collection<T>`.** The list view that bumps the version on every modification made through it, except the `IList` int indexer, which writes without bumping.
- **The `IsMesh` record.** Its fields, its equality that ignores the counts, and its hash.

Modules, one per file:

- `Outcomes` (outcomes.dfy): `Option` and `Result`.
- `MeshChannels` (channels.dfy): the channel enum and mask flags.
- `MeshErrors` (errors.dfy): the exceptions the source throws, as values.
- `Vectors` (vectors.dfy): Vector2/3/4. A float is kept as its bit pattern and never computed with.
- `ChannelExtensions` (channel_extensions.dfy): mask and vertex-size helpers.
- `IsMeshComponent` (is_mesh.dfy): the u16 version counter and the IsMesh record.
- `MeshStates` (mesh_state.dfy): mesh state, queries, Create/Resize, index appends and edit chains.
- `Assembly` (assembly.dfy): both Assemble revisions and the layout of their output.
- `Collections` (collections.dfy): `Mesh.Collection<T>`, and the revision B getters that bind a collection to its mesh's version counter.
- `Scenarios` (scenarios.dfy): the quad and rendering scenarios of the tests, stated for every mesh of that shape.

Exceptions become `Err` values of `MeshError`. The source's integer widths are modelled where they matter:

- the version is a `ushort` whose `++` wraps from 65535 to 0;
- channel values and masks are bytes (`bv8`);
- the lengths passed to Create, Resize and ResizeIndices, and the index values, are `uint` (`u32`); counts and array lengths are unbounded naturals.

## Model

| member | source | states |
|---|---|---|
| MeshChannels.ToChannel | source/MeshChannel.cs:6-37 | a defined byte decodes to the member whose implicit enum value it is |
| MeshChannels.ValueRoundTrip | source/MeshChannel.cs:11-36 | every member's value is defined (below 6) and decodes back to that member |
| MeshChannels.ExactlySixMembers | source/Mesh.cs:205-213 | the enum has exactly six members with values 0..5 in declaration order, and a byte names a member iff it is below 6 |
| MeshChannels.ValueInjective | source/MeshChannel.cs:6-37 | distinct members have distinct byte values |
| MeshChannels.FlagIsBitOfValue | source/MeshChannelMask.cs:19-44 | the flag of the member with value v is 1 << v, so the two enums line up bit for value |
| MeshChannels.FlagsAreDisjointBits | source/MeshChannelMask.cs:14-44 | each flag is a single bit and distinct members' flags are disjoint; the six flags make 63 and None is 0; the two high bits name no channel |
| MeshChannels.FlagSetsOnlyItsBit | source/Extensions/MeshChannelExtensions.cs:36-41 | or-ing in a flag sets that channel, keeps every other channel's answer, and leaves the spare bits alone |
| MeshChannels.HasAfterFlag | source/Extensions/MeshChannelExtensions.cs:160-172 | after or-ing in c's flag, a channel is present iff it was before or it is c |
| ChannelExtensions.FirstUndefined | source/Extensions/MeshChannelExtensions.cs:49-68 | a left-to-right scan stops at an undefined byte with only defined bytes before it |
| ChannelExtensions.FirstUndefinedAt | source/Extensions/MeshChannelExtensions.cs:49-68 | an undefined byte preceded only by defined bytes is the one the scan throws on |
| ChannelExtensions.AddChannel | source/Extensions/MeshChannelExtensions.cs:32-44 | throws NotSupported exactly for bytes naming no member; otherwise sets that member's flag, keeps every other flag and the spare bits |
| ChannelExtensions.AddChannelSetsItsBit | source/Extensions/ChannelExtensions.cs:22-34 | adding member c or-s in 1 << Value(c); the set of present channels grows by exactly c |
| ChannelExtensions.AddChannelIdempotent | source/Extensions/MeshChannelExtensions.cs:32-44 | adding the same channel twice gives the mask that adding it once gives |
| ChannelExtensions.MaskFold | source/Extensions/MeshChannelExtensions.cs:49-68 | the fold succeeds iff every byte is defined, and otherwise reports the first unsupported byte; on success a channel is set iff it was set before or its byte is in the list, and the spare bits are untouched |
| ChannelExtensions.UnsupportedInExtends | source/Extensions/MeshChannelExtensions.cs:63 | appending a byte does not change which unsupported byte is reported first |
| ChannelExtensions.MaskFoldStep | source/Extensions/MeshChannelExtensions.cs:55-64 | one fold step extends the set of flags by exactly the new byte's channel |
| ChannelExtensions.GetChannelMask | source/Extensions/MeshChannelExtensions.cs:49-68 | throws iff some byte is unsupported; otherwise the mask has a channel iff the list names it, and the high bits are clear |
| ChannelExtensions.MaskIgnoresOrderAndRepeats | source/Extensions/MeshChannelExtensions.cs:49-68 | two supported lists naming the same members, in any order and with any repeats, give the same mask |
| ChannelExtensions.MaskExtensionality | source/MeshChannelMask.cs:9-45 | masks agreeing on the six flags and on the spare bits are equal |
| ChannelExtensions.KnownMembers | source/Types/MeshFunctions.cs:329-340 | a member is among the channels a request names iff its byte occurs in the request |
| ChannelExtensions.KnownOfDefined | source/Extensions/MeshExtensions.cs:118-145 | when every byte is defined, the request decodes one member per byte, position for position |
| ChannelExtensions.KnownAppend | source/Extensions/MeshExtensions.cs:149-152 | decoding a concatenated request is concatenating the decodings |
| ChannelExtensions.KnownSnoc | source/Extensions/MeshExtensions.cs:151-194 | reading one more byte appends its member when it names one, and nothing otherwise |
| ChannelExtensions.Encode | source/MeshChannel.cs:6-37 | a list of members is sent as the list of their values, position for position |
| ChannelExtensions.KnownEncode | source/MeshChannel.cs:6-37 | encoding members as bytes and decoding them back is the identity, with every byte defined |
| ChannelExtensions.ListSizeSnoc | source/Extensions/MeshChannelExtensions.cs:112-131 | one more channel adds its width to a list's vertex size |
| ChannelExtensions.ListSizeAppend | source/Extensions/MeshChannelExtensions.cs:112-131 | the vertex size of a concatenation is the sum of the sizes |
| ChannelExtensions.ListSizePrefix | source/Extensions/MeshChannelExtensions.cs:112-131 | a prefix of a request is never wider than the whole request |
| ChannelExtensions.WidthOf | source/Extensions/MeshChannelExtensions.cs:118-127 | a byte's width throws iff it names no member, and is between 2 and 4 floats otherwise |
| ChannelExtensions.WidthOfDefined | source/Extensions/MeshChannelExtensions.cs:118-127 | a defined byte's width is its member's width (3, 2, 3, 3, 3, 4) |
| ChannelExtensions.SizeStep | source/Extensions/MeshChannelExtensions.cs:116-128 | one more supported byte keeps the prefix supported and adds its width |
| ChannelExtensions.GetVertexSizeOfList | source/Extensions/MeshChannelExtensions.cs:112-155 | throws at the first unsupported byte iff there is one; otherwise the sum of the widths of the listed channels, repeats counted |
| ChannelExtensions.GetVertexSize | source/Extensions/MeshChannelExtensions.cs:73-107 | the mask size is at most 18; it is 0 iff no flag is set and 18 iff all six are set |
| ChannelExtensions.VertexSizeAddFlag | source/Extensions/MeshChannelExtensions.cs:73-107 | setting a flag adds that channel's width once, and nothing when it was already set |
| ChannelExtensions.VertexSizeOfDistinctList | source/Extensions/MeshChannelExtensions.cs:73-155 | for a repeat-free supported list, the list size equals the size of the list's mask |
| ChannelExtensions.ListAndMaskSizesDiverge | source/Extensions/MeshChannelExtensions.cs:73-155 | with a repeat the two sizes differ: [Position, Position] is 6 floats as a list but 3 as a mask |
| ChannelExtensions.Contains | source/Extensions/MeshChannelExtensions.cs:160-172 | a byte naming no member is never contained; a member is contained iff its flag is set |
| ChannelExtensions.ContainsIffListed | source/Extensions/MeshChannelExtensions.cs:49-68 | on the mask GetChannelMask builds from a supported list, Contains answers true exactly for the bytes the list holds |
| ChannelExtensions.ContainsAfterAddChannel | source/Extensions/MeshChannelExtensions.cs:32-44 | a channel is contained right after it is added, and no other channel's answer changes |
| ChannelExtensions.CollectionType | source/Extensions/MeshChannelExtensions.cs:15-27 | GetCollectionType throws NotSupported iff the byte names no member |
| ChannelExtensions.KindOfChannel | source/Extensions/ChannelExtensions.cs:8-20 | the vector type of a channel's array has as many components as the channel's vertex width |
| ChannelExtensions.CollectionTypeMatchesWidth | source/Mesh.cs:66-78 | the collection type table and the vertex width table agree on every member |
| Vectors.Components | source/Extensions/MeshExtensions.cs:155-192 | a vector's components, in the order X, Y, Z, W that Assemble writes them |
| Vectors.ZeroOf | source/Extensions/MeshExtensions.cs:238-245 | a fresh element has the array's vector type with every component zero |
| Vectors.ComponentsInjective | source/Extensions/MeshExtensions.cs:155-192 | two vectors of one type with the same components are the same vector |
| IsMeshComponent.Increment | source/Extensions/MeshExtensions.cs:232-236 | `version++` on a ushort always changes the counter; it grows below 65535 and wraps to 0 at 65535 |
| IsMeshComponent.IncrementTimesShift | source/Mesh.cs:118-122 | incrementing once and then k times is incrementing k + 1 times |
| IsMeshComponent.IncrementTimesWraps | source/Components/IsMesh.cs:13 | k increments add k modulo 65536 |
| IsMeshComponent.IncrementTimesNoWrap | source/Components/IsMesh.cs:13 | without wrap-around, k increments add exactly k |
| IsMeshComponent.VersionReturnsOnlyAfterMultiples | source/Components/IsMesh.cs:10-13 | the counter is back at its start iff the number of increments is a multiple of 65536 |
| IsMeshComponent.EqualsIsEquivalence | source/Components/IsMesh.cs:51-78 | Equals is reflexive, symmetric and transitive; == is Equals and != its negation; the counts never affect the answer |
| IsMeshComponent.CountsAreIgnored | source/Components/IsMesh.cs:57-60 | two distinct records that differ only in their counts are Equal |
| IsMeshComponent.Equals | source/Components/IsMesh.cs:51-60 | true iff the records are equal once their vertex and index counts are disregarded |
| IsMeshComponent.EqualOp | source/Components/IsMesh.cs:69-72 | `==` holds iff the records are equal once their counts are disregarded |
| IsMeshComponent.NotEqualOp | source/Components/IsMesh.cs:75-78 | `!=` holds iff the records differ in version or channel mask, that is, differ other than in their counts |
| IsMeshComponent.EqualRecordsHashEqually | source/Components/IsMesh.cs:63-66 | Equal records hash equally, whatever the combining function |
| MeshStates.ContainsChannel | source/Extensions/MeshExtensions.cs:202-230 | false iff the byte names a member the mesh lacks; a byte naming no member falls through to true |
| MeshStates.ContainsChannels | source/Types/MeshFunctions.cs:251-284 | true iff every channel whose flag is set is present; the spare bits are ignored |
| MeshStates.ContainsChannelsPerFlag | source/Types/MeshFunctions.cs:251-314 | ContainsChannel(mask) holds iff ContainsChannel(channel) holds for every channel whose flag is set |
| MeshStates.GetListVertexCount | source/Types/MeshFunctions.cs:123-132 | zero without positions, otherwise the positions' count |
| MeshStates.GetVertexCount | source/Extensions/MeshExtensions.cs:42-45 | revision A's count agrees with revision B's list count when positions exist, and every counted vertex has a Vector3 position in a well-shaped mesh |
| MeshStates.GetIndexCount | source/Extensions/MeshExtensions.cs:47-50 | the count is zero exactly when the index array is empty |
| MeshStates.GetMeshVertexSize | source/Extensions/MeshExtensions.cs:99-102 | the vertex size of a mesh is 3 for positions, 2 for UVs, 3 for normals, 3 once for tangents or bi-tangents together, and 4 for colors, over the channels present |
| MeshStates.GetChannels | source/Extensions/MeshExtensions.cs:386-426 | as written: the other channels' flags follow presence; the Tangents flag is set for tangents or bi-tangents, the BiTangents flag never is, and the high bits are clear |
| MeshStates.PresentChannels | source/Types/MeshFunctions.cs:39-79 | as intended: each flag is set iff its channel is present |
| MeshStates.PresentChannelsAreContained | source/Types/MeshFunctions.cs:251-284 | the presence mask always passes ContainsChannel(mask), and two meshes have the same presence mask iff they have the same channels |
| MeshStates.PresentVertexSizeAddsWidths | source/Extensions/MeshExtensions.cs:99-102 | the intended vertex size adds each present channel's width |
| MeshStates.GetChannelsMergesBiTangents | source/Extensions/MeshExtensions.cs:415-418 | the reported vertex size equals the intended one iff not both tangents and bi-tangents are present, and then falls 3 short; a bi-tangent-only mesh fails ContainsChannel on its own mask |
| MeshStates.BiTangentOnlyMeshFailsItsOwnMask | source/Types/MeshFunctions.cs:68-71 | a mesh holding only bi-tangents fails ContainsChannel on its GetChannelMask, but passes on the intended mask |
| MeshStates.IncrementVersion | source/Extensions/MeshExtensions.cs:232-236 | the version changes and the mesh data is untouched |
| MeshStates.ZeroArray | source/Extensions/MeshExtensions.cs:243 | a fresh array of the requested length holding default vectors |
| MeshStates.Create | source/Extensions/MeshExtensions.cs:238-245 | throws iff the channel is already present; otherwise the version goes up once, the channel is present with `length` default elements, and nothing else changes |
| MeshStates.Resized | source/Extensions/MeshExtensions.cs:252 | a resize keeps the common prefix and fills the new tail with default vectors |
| MeshStates.Resize | source/Extensions/MeshExtensions.cs:247-254 | throws iff the channel is missing; otherwise the version goes up once, the array takes the new length keeping its prefix, and nothing else changes |
| MeshStates.WriteElement | source/Extensions/MeshExtensions.cs:238-254 | a write through the returned span replaces one element and leaves the version alone |
| MeshStates.CreateList | source/Types/MeshFunctions.cs:165-229 | revision B: throws iff present; otherwise attaches an empty list and leaves the version alone |
| MeshStates.AddIndices | source/Extensions/MeshExtensions.cs:346-351 | appends the indices after the old ones, count grows by their number, version and channels untouched |
| MeshStates.AddIndex | source/Extensions/MeshExtensions.cs:353-358 | one index at the old count, the same as appending a one-element span |
| MeshStates.AddTriangle | source/Extensions/MeshExtensions.cs:360-367 | the three indices appended in argument order, the same as three AddIndex calls |
| MeshStates.ResizeIndices | source/Extensions/MeshExtensions.cs:434-437 | the index count becomes the new length, keeping the prefix; version untouched |
| MeshStates.AddIndicesTracked | source/Types/MeshFunctions.cs:231-249 | as intended: the same indices as AddIndices, counted as a mutation |
| MeshStates.IndexAppendIsInvisibleToVersion | source/Extensions/MeshExtensions.cs:346-367 | as written, a non-empty append changes the mesh yet keeps its version; the tracked append changes it |
| MeshStates.Bumps | source/Extensions/MeshExtensions.cs:238-367 | a chain bumps the version at most once per edit, and once per edit when index appends are tracked |
| MeshStates.ApplyAllVersion | source/Extensions/MeshExtensions.cs:238-344 | a successful chain advances the version by its number of Create/Resize edits (plus tracked appends) modulo 65536 |
| MeshStates.ApplyAllKeepsChannels | source/Extensions/MeshExtensions.cs:238-367 | no chain of edits removes a channel or gives an array elements of the wrong vector type |
| MeshStates.TrackedChainRaisesVersion | source/Components/IsMesh.cs:10-13 | with tracked appends, every non-empty chain that does not wrap raises the version by its length |
| Assembly.ComponentWidth | source/Extensions/MeshExtensions.cs:155-192 | each element Assemble reads has as many components as its channel's width |
| Assembly.VertexRecord | source/Extensions/MeshExtensions.cs:151-194 | one vertex's record is as long as the request's vertex size |
| Assembly.FlattenLength | source/Extensions/MeshExtensions.cs:149-199 | n records of one size flatten to n times that size |
| Assembly.FlattenPrefix | source/Extensions/MeshExtensions.cs:149-197 | flattening the first records gives a prefix of the whole output |
| Assembly.FlattenAt | source/Extensions/MeshExtensions.cs:149-197 | float p of record i sits at i * size + p |
| Assembly.Records | source/Extensions/MeshExtensions.cs:149-197 | there are n records, each of the request's vertex size |
| Assembly.RecordsAt | source/Extensions/MeshExtensions.cs:149-197 | record i is vertex i's record |
| Assembly.InterleaveLength | source/Extensions/MeshExtensions.cs:147-199 | the assembled buffer holds vertexCount times vertexSize floats |
| Assembly.RecordLayout | source/Extensions/MeshExtensions.cs:151-194 | inside a record, channel j's components start after the widths of the channels requested before it |
| Assembly.RecordsSlot | source/Extensions/MeshExtensions.cs:151-194 | float (width of channels before j) + k of record i is component k of channel j at vertex i |
| Assembly.InterleaveAt | source/Extensions/MeshExtensions.cs:149-197 | float p of record i sits at i * vertexSize + p of the assembled buffer |
| Assembly.Layout | source/Extensions/MeshExtensions.cs:147-199 | component k of requested channel j of vertex i is at i * vertexSize + (widths before j) + k |
| Assembly.FirstMissing | source/Extensions/MeshExtensions.cs:118-145 | nothing is reported iff every requested channel is present; otherwise a requested, missing channel |
| Assembly.FirstMissingAt | source/Extensions/MeshExtensions.cs:118-145 | the reported channel is the first missing one in request order |
| Assembly.FirstMissingExtend | source/Extensions/MeshExtensions.cs:118-145 | requesting more channels after a missing one does not change which one is reported |
| Assembly.FirstMissingDeclared | source/Types/MeshFunctions.cs:342-413 | revision B throws iff some requested channel is missing, naming a requested, missing channel |
| Assembly.FirstMissingDeclaredIsFirst | source/Types/MeshFunctions.cs:342-413 | the channel revision B names is the first missing one in declaration order |
| Assembly.RevisionsFailAlike | source/Types/MeshFunctions.cs:342-413 | both revisions throw on exactly the requests naming a missing channel |
| Assembly.RevisionsNameDifferentChannels | source/Extensions/MeshExtensions.cs:118-145 | asking an empty mesh for [Normal, Position]: revision A reports normals, revision B positions |
| Assembly.Overwrite | source/Extensions/MeshExtensions.cs:155-191 | the span writes replace a run of slots and keep the buffer's length and the rest |
| Assembly.KnownSplit | source/Extensions/MeshExtensions.cs:151-194 | a request's channels split at any byte, and a prefix is never wider than the whole |
| Assembly.RecordSnoc | source/Extensions/MeshExtensions.cs:151-194 | reading one more requested byte appends its member's components, or nothing for an unknown byte |
| Assembly.MissingStopsLookUp | source/Extensions/MeshExtensions.cs:118-145 | the first missing channel the lookup meets is the one reported for the whole request |
| Assembly.LookUp | source/Extensions/MeshExtensions.cs:118-145 | the lookup reports the first requested channel, in request order, that the mesh lacks |
| Assembly.ReadRecord | source/Extensions/MeshExtensions.cs:151-194 | the inner loop produces vertex v's record |
| Assembly.WriteVertex | source/Extensions/MeshExtensions.cs:149-197 | one outer turn writes vertex v's record right after the earlier ones and leaves the tail alone |
| Assembly.AppendStep | source/Types/MeshFunctions.cs:416-464 | one append turn keeps the list equal to the original plus the records so far |
| Assembly.WriteVertices | source/Extensions/MeshExtensions.cs:147-199 | the outer loop writes every vertex's record from the front, and the count is vertexCount * vertexSize |
| Assembly.AssembleInto | source/Extensions/MeshExtensions.cs:109-200 | revision A throws iff a requested channel is missing, naming the first in request order, whatever the buffer and whether or not positions exist; otherwise returns vertexCount * vertexSize, the interleaved records in front and the rest of the buffer unchanged |
| Assembly.RequestedSize | source/Types/MeshFunctions.cs:466-494 | the vertex size is the sum of the known requested channels' widths, repeats counted |
| Assembly.AppendVertices | source/Types/MeshFunctions.cs:415-464 | the list ends up as the original followed by every vertex's record |
| Assembly.EmptyMeshAssembleFails | source/Extensions/MeshExtensions.cs:118-145 | asking an empty mesh for positions with an empty buffer throws ChannelMissing(Position): the lookup comes before the vertex count |
| Assembly.AssembleAppend | source/Types/MeshFunctions.cs:320-497 | revision B throws iff a requested channel is missing, naming the first in declaration order; otherwise appends the interleaved records (none without positions) and returns the vertex size |
| Collections.Modified | source/Mesh.cs:118-122 | the list is untouched and the version moves by one |
| Collections.Set | source/Mesh.cs:87-95 | the uint setter writes one slot, keeps the others and the length, and bumps the version |
| Collections.SetUntracked | source/Mesh.cs:101-105 | the int setter makes the same write but keeps the version |
| Collections.Add | source/Mesh.cs:124-128 | the item lands after the old elements and the version moves |
| Collections.Clear | source/Mesh.cs:130-134 | the list becomes empty and the version moves, even when it was empty |
| Collections.Contains | source/Mesh.cs:136-139 | true iff some element equals the item |
| Collections.FirstIndex | source/Mesh.cs:161-168 | -1 iff the item is absent; otherwise a position holding it with no earlier occurrence |
| Collections.IndexOf | source/Mesh.cs:161-168 | -1 iff not Contains; otherwise the first position holding the item |
| Collections.Insert | source/Mesh.cs:170-174 | the item at the index, the elements before kept and those after shifted up, the version moved |
| Collections.RemoveAt | source/Mesh.cs:187-191 | the element at the index gone, the rest shifted down, the version moved |
| Collections.Remove | source/Mesh.cs:176-191 | true iff Contains; then the first occurrence is removed by RemoveAt, so the elements before it are kept and those after it shift down in order, the multiset loses one copy and the version moves; otherwise nothing changes |
| Collections.RemoveAtUndoesInsert | source/Mesh.cs:170-191 | RemoveAt undoes Insert at the same index, with the version moved twice |
| Collections.InsertAtEndIsAdd | source/Mesh.cs:124-174 | inserting at Count is Add |
| Collections.SettersDifferOnlyInVersion | source/Mesh.cs:87-105 | both indexers write the same contents; only the uint one moves the version |
| Collections.ChannelView | source/Types/MeshFunctions.cs:87-121 | a channel getter's collection holds the channel's list and reports the mesh's own version; in a well-shaped mesh every element has the channel's vector kind |
| Collections.IndexView | source/Types/MeshFunctions.cs:81-85 | the index getter's collection holds the index list and reports the mesh's own version |
| Collections.CommitChannel | source/Mesh.cs:84-85 | a modified channel collection writes its list into that channel and its version into the mesh's one counter; other channels and the indices stay, and the mesh stays well-shaped when the list has the channel's kind |
| Collections.CommitIndices | source/Mesh.cs:84-85 | a modified index collection writes its list into the indices and its version into the mesh's counter; the channels stay |
| Collections.ViewCommitRoundTrip | source/Mesh.cs:107-122 | committing an unmodified view leaves the mesh as it was, and viewing after a commit gives the committed collection back |
| Collections.AddThroughViewIsSeenByOthers | source/Mesh.cs:118-128 | an Add through one channel's collection moves the version seen by every other channel's collection and by the index collection, while their lists stay |
| Collections.TwoViewsBumpOneCounter | source/Mesh.cs:118-128 | Adds through two different channels' collections bump the one counter twice, and each channel gains its item |
| Collections.RemoveUndoesAddOfNewItem | source/Mesh.cs:124-185 | removing a newly added item gives back the old contents, with the version moved twice |
| Scenarios.RenderOffsets | tests/MeshTests.cs:89-114 | in the Position, Normal, UV request, normals start 3 floats into a record, UVs 6, and a record is 8 floats |
| Scenarios.RenderRequestSize | tests/MeshEntityTests.cs:95-98 | the request bytes 0, 2, 1 name Position, Normal and UV, a vertex size of 3 + 3 + 2 |
| Scenarios.RenderFacts | tests/MeshTests.cs:89-93 | a mesh with the three channels can be assembled for the request, with the offsets above |
| Scenarios.RenderedPosition | tests/MeshTests.cs:96-101 | component k of vertex v's position is the float at v * 8 + k |
| Scenarios.RenderedNormal | tests/MeshTests.cs:103-108 | component k of vertex v's normal is the float at v * 8 + 3 + k |
| Scenarios.RenderedUV | tests/MeshTests.cs:110-113 | component k of vertex v's UV is the float at v * 8 + 6 + k |
| Scenarios.QuadMeshVertexSize | tests/MeshEntityTests.cs:99 | a mesh with positions, colors, UVs and normals and no tangents has vertex size 3 + 4 + 2 + 3 |
| Scenarios.QuadTriangles | tests/MeshTests.cs:86-87 | the two triangles append 0, 1, 2, 2, 3, 0, six more indices, and leave the version alone |
| Scenarios.CreateThenWriteIsVersionOne | tests/MeshTests.cs:42-56 | a fresh mesh that creates three positions and writes them is at version 1 with vertex count 3; AddTriangle keeps version 1 |

## Left out

- Host plumbing is left out: entity creation, world queries and the `IMesh`/`IEntity` wrappers. A mesh is a value here: a map from present channels to arrays, the index array and the version.
- `IsMeshRequest` and asynchronous loading are left out. They are not part of the data core.
- `GetBounds` is left out because it computes with floats (min and max). Floats are bit patterns here, and nothing does arithmetic on them.
- `BuiltInMeshes` is left out. Its quad appears only through the test scenarios.
- The pointer casts, `As<T>` reinterpretations and the `MeshVertex*` single-field wrappers are left out. They are identity conversions, so vectors are stored directly.
- The `ThrowIfMissing*` / `ThrowIfAlreadyContains*` checks are `[Conditional("DEBUG")]`. The model keeps their throw as an `Err` and does not model a release build, where they are compiled away.
- Counts are unbounded naturals, bounded only by `uint` at the API. The `uint` overflow of `count + indices.Length` and of `index++` in Assemble is not modelled.
- Creating, resizing and growing an array relies on the host's `CreateArray`/`ResizeArray` contract: default-filled, with the common prefix kept. The engine library is not part of this model.
- Assembly.AssembleInto requires Position to be present only when every requested channel is, because revision A's `GetVertexCount` then reads the positions array's length through the host, whose behaviour on a missing array is not part of this model. The missing-channel error path has no such requirement.
- Assembly.AssembleInto requires, only when every requested channel is present, a caller-sized buffer and requested arrays holding at least vertexCount elements, since an out-of-range span access is a host fault.
- Assembly.AssembleAppend requires, only when every requested channel is present, the requested arrays to hold at least vertexCount elements, for the same reason.
- The summary comment of revision A's Assemble (source/Extensions/MeshExtensions.cs:106) says missing channels are skipped. The code reads every requested array, and a missing one fails the lookup, so the model follows the code and reports `ChannelMissing`.
- In both Assemble revisions an undefined channel byte is skipped silently, because the if/else chains match nothing. The list GetVertexSize throws on such a byte instead. The model keeps both behaviours.
- Collections.Set, Collections.SetUntracked, Collections.Insert and Collections.RemoveAt require an in-range index. The out-of-range `list[(uint)index]` access, `Insert` and `RemoveAt` fail inside `UnmanagedList`, whose bounds behaviour is not part of this model.
- MeshStates.WriteElement requires an in-range index. The out-of-range span write is a host fault, which this model does not include.
- Collections.Contains, Collections.IndexOf and Collections.Remove compare elements by Dafny equality, which for vectors of `bv32` components is bit equality. The source uses `IEquatable<T>` on `System.Numerics` vectors, which uses float equality: there +0.0f equals -0.0f, and a NaN component never equals itself. On vectors holding signed zeros or NaNs, the model's answers can differ from the source's. Index collections (`uint`) are unaffected.
- Collections.Collection keeps a copy of the owning mesh's version. The source's collections read and bump the one `IsMesh` counter through the entity. The sharing is modelled by ChannelView/IndexView and CommitChannel/CommitIndices: a collection is taken from the mesh, modified, and committed back before another is taken. Two collections held at once and modified alternately would each carry a stale copy. The views require the channel to be present, because `GetList` on a missing list is host behaviour.
- Collections.Remove removes the first occurrence. This assumes `UnmanagedList.TryIndexOf` scans from the front, as IndexOf's contract does.
- `Count`, `AsSpan`, `CopyTo` and the enumerators of `Mesh.Collection<T>` all expose the items sequence itself. They are not separate members.
- IsMeshComponent.HashCode takes `HashCode.Combine` as a parameter, because it is seeded per process. Only equality of hashes for equal records is stated.
- IsMeshComponent.Equals compares the `MeshChannelMask` byte. Float equality is not involved.
- The version expectations of tests/MeshEntityTests.cs:47-54 (1 on creation, 3 after creating and writing positions) are left out. They go through the entity-level `Mesh` wrapper's creation path, which is not modelled. The render and vertex-size expectations of that file (tests/MeshEntityTests.cs:95-99) are modelled by the Scenarios rows. The array revision's test at tests/MeshTests.cs:42-56 is the one the model states.
- MeshStates.GetVertexCount requires positions to be present: revision A reads the positions array's length through the host, and what it does without that array is not part of this model. GetListVertexCount, revision B's count, covers the missing case with 0.
- `GetVersion` and the `Has*` predicates are read directly from the state.

## Findings

| source | as written | input that shows it | evidently intended | confidence | as-written member | corrected member |
|---|---|---|---|---|---|---|
| source/Extensions/MeshExtensions.cs:415-418 | GetChannels (and GetChannelMask at source/Types/MeshFunctions.cs:68-71) sets the Tangents flag when bi-tangents are present | a mesh with only a bi-tangent array: its mask has Tangents set, and ContainsChannel(mask) answers false for that mesh; with tangents and bi-tangents both present, GetVertexSize reports 3 floats too few | bi-tangents set the BiTangents flag, so the mask lists exactly the present channels | high; not executed | MeshStates.BiTangentOnlyMeshFailsItsOwnMask | MeshStates.PresentChannelsAreContained |
| source/Extensions/MeshExtensions.cs:346-367 | AddIndices, AddIndex and AddTriangle (and their revision B forms at source/Types/MeshFunctions.cs:231-249) change the index data without incrementing the IsMesh version, although the version is documented as incremented on data updates (source/Components/IsMesh.cs:10-13) | AddTriangle(m, 0, 1, 2) on any mesh: three more indices, same version | an index append counts as a modification and bumps the version, as `Mesh.Collection<T>.Add` does | medium; not executed | MeshStates.IndexAppendIsInvisibleToVersion | MeshStates.TrackedChainRaisesVersion |
