/**
 * Mesh.Collection<T>: a list view of one mesh channel that bumps the owning
 * IsMesh component's 16-bit version on every modification made through its
 * own members. The IList<T> int indexer is the exception: its setter writes
 * without bumping.
 */
module Collections {
  import opened IsMeshComponent
  import opened MeshChannels
  import opened Vectors
  import opened ChannelExtensions
  import opened MeshStates

  /** The list contents together with the version of the mesh that owns it. */
  datatype Collection<T> = Collection(items: seq<T>, version: u16)

  /** `Modified()`: one `version++` on the owning component. */
  function Modified<T>(c: Collection<T>): (r: Collection<T>)
    ensures r.items == c.items && r.version == Increment(c.version)
  {
    c.(version := Increment(c.version))
  }

  /** The uint indexer's setter: replaces one element and bumps the version. */
  function Set<T>(c: Collection<T>, index: nat, value: T): (r: Collection<T>)
    requires index < |c.items|
    ensures |r.items| == |c.items| && r.items[index] == value
    ensures forall j :: 0 <= j < |c.items| && j != index ==> r.items[j] == c.items[j]
    ensures r.version == Increment(c.version)
  {
    Modified(c.(items := c.items[index := value]))
  }

  /** The IList<T> int indexer's setter: the same write, but no version bump. */
  function SetUntracked<T>(c: Collection<T>, index: nat, value: T): (r: Collection<T>)
    requires index < |c.items|
    ensures |r.items| == |c.items| && r.items[index] == value
    ensures forall j :: 0 <= j < |c.items| && j != index ==> r.items[j] == c.items[j]
    ensures r.version == c.version
  {
    c.(items := c.items[index := value])
  }

  /** `Add`: appends one element and bumps the version. */
  function Add<T>(c: Collection<T>, item: T): (r: Collection<T>)
    ensures |r.items| == |c.items| + 1 && r.items[|c.items|] == item
    ensures r.items[..|c.items|] == c.items
    ensures r.version == Increment(c.version)
  {
    Modified(c.(items := c.items + [item]))
  }

  /** `Clear`: empties the list and bumps the version, even when it was already empty. */
  function Clear<T>(c: Collection<T>): (r: Collection<T>)
    ensures |r.items| == 0
    ensures r.version == Increment(c.version)
  {
    Modified(c.(items := []))
  }

  /** `Contains`: whether some element equals `item`. */
  function Contains<T(==)>(c: Collection<T>, item: T): (r: bool)
    ensures r <==> exists j :: 0 <= j < |c.items| && c.items[j] == item
  {
    item in c.items
  }

  /** The position of the first element of `s` equal to `item`, or -1. */
  function FirstIndex<T(==)>(s: seq<T>, item: T): (r: int)
    ensures -1 <= r < |s|
    ensures r == -1 <==> item !in s
    ensures 0 <= r ==> s[r] == item && item !in s[..r]
    decreases |s|
  {
    if |s| == 0 then -1
    else if s[0] == item then 0
    else
      var k := FirstIndex(s[1..], item);
      if k == -1 then -1
      else
        assert s[1..][..k] == s[1..k + 1];
        assert s[..k + 1] == [s[0]] + s[1..k + 1];
        k + 1
  }

  /** `IndexOf`: the first position holding `item`, -1 when there is none. */
  function IndexOf<T(==)>(c: Collection<T>, item: T): (r: int)
    ensures -1 <= r < |c.items|
    ensures r == -1 <==> !Contains(c, item)
    ensures 0 <= r ==> c.items[r] == item && forall j :: 0 <= j < r ==> c.items[j] != item
  {
    var r := FirstIndex(c.items, item);
    assert 0 <= r ==> forall j :: 0 <= j < r ==> c.items[..r][j] == c.items[j];
    r
  }

  /** `Insert`: places `item` at `index`, shifts the rest up by one, bumps the version. */
  function Insert<T>(c: Collection<T>, index: nat, item: T): (r: Collection<T>)
    requires index <= |c.items|
    ensures |r.items| == |c.items| + 1 && r.items[index] == item
    ensures r.items[..index] == c.items[..index] && r.items[index + 1..] == c.items[index..]
    ensures r.version == Increment(c.version)
  {
    Modified(c.(items := c.items[..index] + [item] + c.items[index..]))
  }

  /** `RemoveAt`: drops the element at `index`, shifts the rest down, bumps the version. */
  function RemoveAt<T>(c: Collection<T>, index: nat): (r: Collection<T>)
    requires index < |c.items|
    ensures |r.items| == |c.items| - 1
    ensures r.items[..index] == c.items[..index] && r.items[index..] == c.items[index + 1..]
    ensures r.version == Increment(c.version)
  {
    Modified(c.(items := c.items[..index] + c.items[index + 1..]))
  }

  /**
   * `Remove`: when `item` occurs, drops its first occurrence, bumps the version
   * and answers true; otherwise answers false and changes nothing.
   */
  function Remove<T(==)>(c: Collection<T>, item: T): (r: (bool, Collection<T>))
    ensures r.0 <==> Contains(c, item)
    ensures !r.0 ==> r.1 == c
    ensures r.0 ==> (|r.1.items| == |c.items| - 1 && r.1.version == Increment(c.version)
      && multiset(r.1.items) == multiset(c.items) - multiset{item})
    ensures r.0 ==> 0 <= IndexOf(c, item) && r.1 == RemoveAt(c, IndexOf(c, item))
  {
    var k := IndexOf(c, item);
    if k == -1 then (false, c)
    else
      var r := RemoveAt(c, k);
      assert c.items == c.items[..k] + [item] + c.items[k + 1..];
      assert r.items == c.items[..k] + c.items[k + 1..];
      (true, r)
  }

  /** Removing what was just inserted restores the list; the version has moved twice. */
  lemma RemoveAtUndoesInsert<T>(c: Collection<T>, index: nat, item: T)
    requires index <= |c.items|
    ensures RemoveAt(Insert(c, index, item), index).items == c.items
    ensures RemoveAt(Insert(c, index, item), index).version == IncrementTimes(c.version, 2)
  {
  }

  /** Inserting at the end is `Add`. */
  lemma InsertAtEndIsAdd<T>(c: Collection<T>, item: T)
    ensures Insert(c, |c.items|, item) == Add(c, item)
  {
  }

  /** Both setters write the same contents; only the uint one moves the version. */
  lemma SettersDifferOnlyInVersion<T>(c: Collection<T>, index: nat, value: T)
    requires index < |c.items|
    ensures Set(c, index, value).items == SetUntracked(c, index, value).items
    ensures Set(c, index, value).version != SetUntracked(c, index, value).version
  {
  }

  /** Removing an item that was absent before it was added gives back the old contents. */
  lemma RemoveUndoesAddOfNewItem<T>(c: Collection<T>, item: T)
    requires !Contains(c, item)
    ensures Remove(Add(c, item), item).0
    ensures Remove(Add(c, item), item).1.items == c.items
    ensures Remove(Add(c, item), item).1.version == IncrementTimes(c.version, 2)
  {
  }

  /**
   * GetPositions, GetUVs, GetNormals, GetTangents, GetBiTangents, GetColors:
   * the channel's list as a collection bound to the mesh's one version counter.
   */
  function ChannelView(m: MeshState, ch: Channel): (r: Collection<Vector>)
    requires HasChannel(m, ch)
    ensures r.items == m.channels[ch] && r.version == m.version
    ensures WellShaped(m) ==> forall i :: 0 <= i < |r.items| ==> KindOf(r.items[i]) == KindOfChannel(ch)
  {
    Collection(m.channels[ch], m.version)
  }

  /** GetIndices: the index list as a collection bound to the mesh's version counter. */
  function IndexView(m: MeshState): (r: Collection<u32>)
    ensures r.items == m.indices && r.version == m.version
  {
    Collection(m.indices, m.version)
  }

  /**
   * The mesh after modifying a channel view: the channel holds the view's
   * list and the shared counter holds the view's version; the other channels
   * and the indices are untouched.
   */
  function CommitChannel(m: MeshState, ch: Channel, col: Collection<Vector>): (r: MeshState)
    requires HasChannel(m, ch)
    ensures HasChannel(r, ch) && r.channels[ch] == col.items && r.version == col.version
    ensures r.channels - {ch} == m.channels - {ch} && r.indices == m.indices
    ensures WellShaped(m) && (forall i :: 0 <= i < |col.items| ==> KindOf(col.items[i]) == KindOfChannel(ch)) ==> WellShaped(r)
  {
    m.(channels := m.channels[ch := col.items], version := col.version)
  }

  /** The mesh after modifying the index view. */
  function CommitIndices(m: MeshState, col: Collection<u32>): (r: MeshState)
    ensures r.indices == col.items && r.version == col.version && r.channels == m.channels
  {
    m.(indices := col.items, version := col.version)
  }

  /** Taking a view and committing it unchanged is no edit; committing then viewing gives the view back. */
  lemma ViewCommitRoundTrip(m: MeshState, ch: Channel, col: Collection<Vector>)
    requires HasChannel(m, ch)
    ensures CommitChannel(m, ch, ChannelView(m, ch)) == m
    ensures ChannelView(CommitChannel(m, ch, col), ch) == col
  {
  }

  /**
   * The counter is shared: an `Add` through one channel's view moves the
   * version every other view of the mesh reports, while their lists stay.
   */
  lemma AddThroughViewIsSeenByOthers(m: MeshState, ch: Channel, d: Channel, item: Vector)
    requires HasChannel(m, ch) && HasChannel(m, d) && ch != d
    ensures var m2 := CommitChannel(m, ch, Add(ChannelView(m, ch), item));
      m2.version == Increment(m.version)
      && m2.channels[ch] == m.channels[ch] + [item]
      && ChannelView(m2, d) == ChannelView(m, d).(version := Increment(m.version))
      && IndexView(m2) == IndexView(m).(version := Increment(m.version))
  {
    var m2 := CommitChannel(m, ch, Add(ChannelView(m, ch), item));
    assert m2.channels[d] == m.channels[d];
  }

  /** Two modifications through two different views bump the one counter twice. */
  lemma TwoViewsBumpOneCounter(m: MeshState, ch: Channel, d: Channel, x: Vector, y: Vector)
    requires HasChannel(m, ch) && HasChannel(m, d) && ch != d
    ensures var m1 := CommitChannel(m, ch, Add(ChannelView(m, ch), x));
      var m2 := CommitChannel(m1, d, Add(ChannelView(m1, d), y));
      m2.version == IncrementTimes(m.version, 2)
      && m2.channels[ch] == m.channels[ch] + [x] && m2.channels[d] == m.channels[d] + [y]
  {
    var m1 := CommitChannel(m, ch, Add(ChannelView(m, ch), x));
    assert m1.channels[d] == m.channels[d];
    assert IncrementTimes(m.version, 2) == Increment(Increment(m.version)) by {
      IncrementTimesShift(m.version, 1);
    }
  }
}
