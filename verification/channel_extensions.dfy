/**
 * Mask and vertex-size arithmetic over channels (MeshChannelExtensions,
 * ChannelExtensions, and the channel helpers of MeshFunctions). Callers hand
 * in channel bytes; a byte outside the six members is unsupported.
 */
module ChannelExtensions {
  import opened Outcomes
  import opened MeshChannels
  import opened MeshErrors
  import opened Vectors

  /** Every byte of the list names a member. */
  predicate AllDefined(channels: seq<ChannelByte>) {
    forall i :: 0 <= i < |channels| ==> IsDefined(channels[i])
  }

  /** No byte occurs twice in the list. */
  predicate Distinct(channels: seq<ChannelByte>) {
    forall i, j :: 0 <= i < j < |channels| ==> channels[i] != channels[j]
  }

  /** Position of the first byte that names no member: where a left-to-right scan throws. */
  function FirstUndefined(channels: seq<ChannelByte>): (i: nat)
    requires !AllDefined(channels)
    ensures i < |channels| && !IsDefined(channels[i])
    ensures AllDefined(channels[..i])
    decreases |channels|
  {
    var init := channels[..|channels| - 1];
    if AllDefined(init) then
      assert channels[..|channels| - 1] == init;
      |channels| - 1
    else
      var i := FirstUndefined(init);
      assert channels[..i] == init[..i];
      i
  }

  /** An undefined byte preceded only by defined ones is the first undefined byte. */
  lemma FirstUndefinedAt(channels: seq<ChannelByte>, i: nat)
    requires i < |channels| && !IsDefined(channels[i]) && AllDefined(channels[..i])
    ensures !AllDefined(channels) && FirstUndefined(channels) == i
  {
  }

  /** The error a left-to-right scan reports for a list holding an unsupported byte. */
  function UnsupportedIn(channels: seq<ChannelByte>): MeshError
    requires !AllDefined(channels)
  {
    UnsupportedChannel(channels[FirstUndefined(channels)])
  }

  /**
   * AddChannel: sets the channel's flag in the mask. The source assigns the
   * new mask through its ref parameter and returns that same value, so one
   * value stands for both.
   */
  function AddChannel(mask: Mask, channel: ChannelByte): (r: Result<Mask, MeshError>)
    ensures r.Err? <==> !IsDefined(channel)
    ensures r.Err? ==> r.error == UnsupportedChannel(channel)
    ensures r.Ok? ==> Has(r.value, ToChannel(channel))
    ensures r.Ok? ==> forall d: Channel :: d != ToChannel(channel) ==> (Has(r.value, d) <==> Has(mask, d))
    ensures r.Ok? ==> r.value & SpareBits == mask & SpareBits
  {
    if IsDefined(channel) then
      var c := ToChannel(channel);
      FlagSetsOnlyItsBit(mask, c);
      Ok(mask | Flag(c))
    else
      Err(UnsupportedChannel(channel))
  }

  /** Each member sets its own bit: Position 1, UV 2, Normal 4, Tangent 8, BiTangent 16, Color 32. */
  lemma AddChannelSetsItsBit(mask: Mask, c: Channel)
    ensures AddChannel(mask, Value(c)) == Ok(mask | ((1 as Mask) << Value(c)))
    ensures forall d: Channel :: Has(AddChannel(mask, Value(c)).value, d) <==> Has(mask, d) || d == c
  {
    FlagIsBitOfValue(c);
    forall d: Channel
      ensures Has(mask | Flag(c), d) <==> Has(mask, d) || d == c
    {
      HasAfterFlag(mask, c, d);
    }
  }

  /** Adding the same channel twice gives the mask that adding it once gives. */
  lemma AddChannelIdempotent(mask: Mask, channel: ChannelByte)
    ensures AddChannel(mask, channel).Ok? ==>
              AddChannel(AddChannel(mask, channel).value, channel) == AddChannel(mask, channel)
  {
  }

  /** The left fold of AddChannel over a list, starting from a given mask. */
  function MaskFold(mask: Mask, channels: seq<ChannelByte>): (r: Result<Mask, MeshError>)
    ensures r.Ok? <==> AllDefined(channels)
    ensures r.Err? ==> r.error == UnsupportedIn(channels)
    ensures r.Ok? ==> forall c: Channel :: Has(r.value, c) <==> Has(mask, c) || Value(c) in channels
    ensures r.Ok? ==> r.value & SpareBits == mask & SpareBits
    decreases |channels|
  {
    if |channels| == 0 then Ok(mask)
    else
      var init := channels[..|channels| - 1];
      var last := channels[|channels| - 1];
      assert channels == init + [last];
      match MaskFold(mask, init)
      case Err(e) =>
        UnsupportedInExtends(init, last);
        Err(e)
      case Ok(m) =>
        if !IsDefined(last) then
          FirstUndefinedAt(channels, |channels| - 1);
          AddChannel(m, last)
        else
          MaskFoldStep(mask, init, m, last);
          AllDefinedSnoc(init, last);
          AddChannel(m, last)
  }

  /** Appending a byte keeps an earlier unsupported byte the first one. */
  lemma UnsupportedInExtends(init: seq<ChannelByte>, last: ChannelByte)
    requires !AllDefined(init)
    ensures !AllDefined(init + [last]) && UnsupportedIn(init + [last]) == UnsupportedIn(init)
  {
    var i := FirstUndefined(init);
    assert (init + [last])[..i] == init[..i];
    FirstUndefinedAt(init + [last], i);
  }

  /** Appending a supported byte to a supported list gives a supported list. */
  lemma AllDefinedSnoc(init: seq<ChannelByte>, last: ChannelByte)
    requires AllDefined(init) && IsDefined(last)
    ensures AllDefined(init + [last])
  {
  }

  /** One step of the fold: adding the last byte's channel extends the set of flags by exactly that channel. */
  lemma MaskFoldStep(mask: Mask, init: seq<ChannelByte>, m: Mask, last: ChannelByte)
    requires IsDefined(last)
    requires forall c: Channel :: Has(m, c) <==> Has(mask, c) || Value(c) in init
    ensures forall c: Channel :: Has(m | Flag(ToChannel(last)), c) <==> Has(mask, c) || Value(c) in init + [last]
  {
    forall c: Channel
      ensures Has(m | Flag(ToChannel(last)), c) <==> Has(mask, c) || Value(c) in init + [last]
    {
      HasAfterFlag(m, ToChannel(last), c);
      ValueInjective(c, ToChannel(last));
      assert Value(c) in init + [last] <==> Value(c) in init || Value(c) == last;
    }
  }

  /**
   * GetChannelMask: folds AddChannel over the list from the empty mask,
   * throwing at the first unsupported byte.
   */
  method GetChannelMask(channels: seq<ChannelByte>) returns (r: Result<Mask, MeshError>)
    ensures r == MaskFold(EmptyMask, channels)
    ensures r.Err? <==> !AllDefined(channels)
    ensures r.Ok? ==> forall c: Channel :: Has(r.value, c) <==> Value(c) in channels
    ensures r.Ok? ==> r.value & SpareBits == 0
  {
    var mask := EmptyMask;
    for i := 0 to |channels|
      invariant MaskFold(EmptyMask, channels[..i]) == Ok(mask)
    {
      var next := AddChannel(mask, channels[i]);
      assert channels[..i + 1][..i] == channels[..i];
      if next.Err? {
        assert !AllDefined(channels[..i + 1]);
        FirstUndefinedAt(channels, i);
        return Err(UnsupportedChannel(channels[i]));
      }
      mask := next.value;
    }
    assert channels[..|channels|] == channels;
    return Ok(mask);
  }

  /** Two lists naming the same set of members, in any order and with any repeats, give the same mask. */
  lemma {:induction false} MaskIgnoresOrderAndRepeats(a: seq<ChannelByte>, b: seq<ChannelByte>)
    requires AllDefined(a)
    requires forall x :: x in a <==> x in b
    ensures MaskFold(EmptyMask, a) == MaskFold(EmptyMask, b)
  {
    assert AllDefined(b) by {
      forall i | 0 <= i < |b|
        ensures IsDefined(b[i])
      {
        assert b[i] in b;
      }
    }
    var x := MaskFold(EmptyMask, a).value;
    var y := MaskFold(EmptyMask, b).value;
    MaskExtensionality(x, y);
  }

  /** Masks agreeing on the six flags and on the spare bits are equal. */
  lemma MaskExtensionality(x: Mask, y: Mask)
    requires x & SpareBits == y & SpareBits
    requires forall c: Channel :: Has(x, c) <==> Has(y, c)
    ensures x == y
  {
    assert Has(x, Position) == Has(y, Position);
    assert Has(x, UV) == Has(y, UV);
    assert Has(x, Normal) == Has(y, Normal);
    assert Has(x, Tangent) == Has(y, Tangent);
    assert Has(x, BiTangent) == Has(y, BiTangent);
    assert Has(x, Color) == Has(y, Color);
  }

  /** The members a list names, in list order, with unsupported bytes dropped. */
  function Known(channels: seq<ChannelByte>): (r: seq<Channel>)
    ensures |r| <= |channels|
    decreases |channels|
  {
    if |channels| == 0 then []
    else
      var init := channels[..|channels| - 1];
      var last := channels[|channels| - 1];
      if IsDefined(last) then Known(init) + [ToChannel(last)] else Known(init)
  }

  /** A member is among the known channels exactly when its byte is in the list. */
  lemma {:induction false} KnownMembers(channels: seq<ChannelByte>)
    ensures forall c: Channel :: c in Known(channels) <==> Value(c) in channels
    decreases |channels|
  {
    if |channels| > 0 {
      var init := channels[..|channels| - 1];
      var last := channels[|channels| - 1];
      assert channels == init + [last];
      KnownMembers(init);
      forall c: Channel
        ensures c in Known(channels) <==> Value(c) in channels
      {
        if IsDefined(last) {
          ValueInjective(c, ToChannel(last));
        }
      }
    }
  }

  /** When every byte is defined, nothing is dropped: the known channels decode the list one for one. */
  lemma {:induction false} KnownOfDefined(channels: seq<ChannelByte>)
    requires AllDefined(channels)
    ensures |Known(channels)| == |channels|
    ensures forall i :: 0 <= i < |channels| ==> Known(channels)[i] == ToChannel(channels[i])
    decreases |channels|
  {
    if |channels| > 0 {
      var init := channels[..|channels| - 1];
      assert AllDefined(init);
      KnownOfDefined(init);
    }
  }

  /** Known distributes over concatenation. */
  lemma {:induction false} KnownAppend(a: seq<ChannelByte>, b: seq<ChannelByte>)
    ensures Known(a + b) == Known(a) + Known(b)
    decreases |b|
  {
    if |b| == 0 {
      assert a + b == a;
    } else {
      var b' := b[..|b| - 1];
      assert (a + b)[..|a + b| - 1] == a + b';
      assert (a + b)[|a + b| - 1] == b[|b| - 1];
      KnownAppend(a, b');
    }
  }

  /** Reading one more byte appends its channel when it names one. */
  lemma KnownSnoc(channels: seq<ChannelByte>, i: nat)
    requires i < |channels|
    ensures Known(channels[..i + 1]) == Known(channels[..i]) + (if IsDefined(channels[i]) then [ToChannel(channels[i])] else [])
    ensures !IsDefined(channels[i]) ==> Known(channels[..i + 1]) == Known(channels[..i])
  {
    assert channels[..i + 1][..i] == channels[..i];
  }

  /** The bytes of a list of members. */
  function Encode(channels: seq<Channel>): (r: seq<ChannelByte>)
    ensures |r| == |channels|
    ensures forall i :: 0 <= i < |r| ==> r[i] == Value(channels[i])
  {
    seq(|channels|, i requires 0 <= i < |channels| => Value(channels[i]))
  }

  /** Encoding members as bytes and reading them back is the identity. */
  lemma KnownEncode(channels: seq<Channel>)
    ensures AllDefined(Encode(channels))
    ensures Known(Encode(channels)) == channels
  {
    forall i | 0 <= i < |channels|
      ensures IsDefined(Encode(channels)[i])
    {
      ValueRoundTrip(channels[i]);
    }
    KnownOfDefined(Encode(channels));
    forall i | 0 <= i < |channels|
      ensures Known(Encode(channels))[i] == channels[i]
    {
      ValueRoundTrip(channels[i]);
    }
  }

  /** Floats per vertex of a list of members, every repeat counted. */
  function ListSize(channels: seq<Channel>): nat
    decreases |channels|
  {
    if |channels| == 0 then 0
    else ListSize(channels[..|channels| - 1]) + Width(channels[|channels| - 1])
  }

  /** One more channel adds its width. */
  lemma ListSizeSnoc(channels: seq<Channel>, c: Channel)
    ensures ListSize(channels + [c]) == ListSize(channels) + Width(c)
  {
    assert (channels + [c])[..|channels|] == channels;
  }

  /** The size of a concatenation is the sum of the sizes. */
  lemma {:induction false} ListSizeAppend(a: seq<Channel>, b: seq<Channel>)
    ensures ListSize(a + b) == ListSize(a) + ListSize(b)
    decreases |b|
  {
    if |b| == 0 {
      assert a + b == a;
    } else {
      var b' := b[..|b| - 1];
      assert (a + b)[..|a + b| - 1] == a + b';
      ListSizeAppend(a, b');
    }
  }

  /** A prefix is no wider than the whole list. */
  lemma ListSizePrefix(channels: seq<Channel>, j: nat)
    requires j <= |channels|
    ensures ListSize(channels[..j]) <= ListSize(channels)
  {
    assert channels == channels[..j] + channels[j..];
    ListSizeAppend(channels[..j], channels[j..]);
  }

  /** The width of a byte; unsupported bytes throw. */
  function WidthOf(channel: ChannelByte): (r: Result<nat, MeshError>)
    ensures r.Err? <==> !IsDefined(channel)
    ensures r.Ok? ==> 2 <= r.value <= 4
  {
    match channel
    case 0 => Ok(3)
    case 1 => Ok(2)
    case 2 => Ok(3)
    case 3 => Ok(3)
    case 4 => Ok(3)
    case 5 => Ok(4)
    case _ => Err(UnsupportedChannel(channel))
  }

  /** A defined byte's width is its channel's width. */
  lemma WidthOfDefined(b: ChannelByte)
    requires IsDefined(b)
    ensures WidthOf(b) == Ok(Width(ToChannel(b)))
  {
  }

  /** One more supported byte keeps the prefix supported and adds its width to the list size. */
  lemma SizeStep(channels: seq<ChannelByte>, i: nat)
    requires i < |channels| && IsDefined(channels[i]) && AllDefined(channels[..i])
    ensures AllDefined(channels[..i + 1])
    ensures ListSize(Known(channels[..i + 1])) == ListSize(Known(channels[..i])) + Width(ToChannel(channels[i]))
  {
    KnownSnoc(channels, i);
    ListSizeSnoc(Known(channels[..i]), ToChannel(channels[i]));
    assert forall k :: 0 <= k < i + 1 ==> channels[..i + 1][k] == (if k < i then channels[..i][k] else channels[i]);
  }

  /**
   * GetVertexSize over a list (the Span and ReadOnlySpan overloads have the
   * same body): sums the widths positionally, repeats counted, throwing at
   * the first unsupported byte.
   */
  method GetVertexSizeOfList(channels: seq<ChannelByte>) returns (r: Result<nat, MeshError>)
    ensures r.Err? <==> !AllDefined(channels)
    ensures r.Err? ==> r.error == UnsupportedIn(channels)
    ensures r.Ok? ==> r.value == ListSize(Known(channels))
  {
    var size := 0;
    for i := 0 to |channels|
      invariant AllDefined(channels[..i])
      invariant size == ListSize(Known(channels[..i]))
    {
      var w := WidthOf(channels[i]);
      if w.Err? {
        FirstUndefinedAt(channels, i);
        return Err(UnsupportedChannel(channels[i]));
      }
      WidthOfDefined(channels[i]);
      SizeStep(channels, i);
      size := size + w.value;
    }
    assert channels[..|channels|] == channels;
    return Ok(size);
  }

  /** GetVertexSize over a mask: the widths 3, 2, 3, 3, 3, 4 of the set flags, each counted once. */
  function GetVertexSize(mask: Mask): (r: nat)
    ensures r <= 18
    ensures r == 0 <==> mask & AllFlags == 0
    ensures r == 18 <==> mask & AllFlags == AllFlags
  {
    (if mask & Positions != 0 then 3 else 0)
    + (if mask & UVs != 0 then 2 else 0)
    + (if mask & Normals != 0 then 3 else 0)
    + (if mask & Tangents != 0 then 3 else 0)
    + (if mask & BiTangents != 0 then 3 else 0)
    + (if mask & Colors != 0 then 4 else 0)
  }

  /** Setting a flag adds the channel's width once, and nothing when it was already set. */
  lemma VertexSizeAddFlag(mask: Mask, c: Channel)
    ensures GetVertexSize(mask | Flag(c)) == GetVertexSize(mask) + (if Has(mask, c) then 0 else Width(c))
  {
  }

  /** For a repeat-free list of members, the list size equals the size of its mask. */
  lemma {:induction false} VertexSizeOfDistinctList(channels: seq<ChannelByte>)
    requires AllDefined(channels)
    requires Distinct(channels)
    ensures GetVertexSize(MaskFold(EmptyMask, channels).value) == ListSize(Known(channels))
    decreases |channels|
  {
    if |channels| > 0 {
      var init := channels[..|channels| - 1];
      var last := channels[|channels| - 1];
      assert AllDefined(init) && Distinct(init);
      VertexSizeOfDistinctList(init);
      var m := MaskFold(EmptyMask, init).value;
      var c := ToChannel(last);
      assert Value(c) !in init by {
        forall k | 0 <= k < |init|
          ensures init[k] != last
        {
          assert channels[k] == init[k];
        }
      }
      assert !Has(m, c);
      VertexSizeAddFlag(m, c);
      assert MaskFold(EmptyMask, channels).value == m | Flag(c);
      ListSizeSnoc(Known(init), c);
    }
  }

  /** [Position, Position] is 6 floats as a list but 3 as a mask. */
  lemma ListAndMaskSizesDiverge()
    ensures ListSize(Known([0, 0])) == 6
    ensures GetVertexSize(MaskFold(EmptyMask, [0, 0]).value) == 3
  {
    assert Known([0, 0]) == [Position, Position];
    assert [0 as ChannelByte, 0][..1] == [0];
    assert MaskFold(EmptyMask, [0]) == Ok(Positions);
  }

  /** Contains: whether the channel's flag is set; a byte naming no member is never contained. */
  function Contains(mask: Mask, channel: ChannelByte): (r: bool)
    ensures r ==> IsDefined(channel)
    ensures IsDefined(channel) ==> (r <==> Has(mask, ToChannel(channel)))
  {
    match channel
    case 0 => mask & Positions != 0
    case 1 => mask & UVs != 0
    case 2 => mask & Normals != 0
    case 3 => mask & Tangents != 0
    case 4 => mask & BiTangents != 0
    case 5 => mask & Colors != 0
    case _ => false
  }

  /** A channel is contained right after it is added, and no other answer changes. */
  lemma ContainsAfterAddChannel(mask: Mask, channel: ChannelByte, other: ChannelByte)
    requires IsDefined(channel)
    ensures Contains(AddChannel(mask, channel).value, channel)
    ensures other != channel ==> Contains(AddChannel(mask, channel).value, other) == Contains(mask, other)
  {
    if IsDefined(other) {
      HasAfterFlag(mask, ToChannel(channel), ToChannel(other));
    }
  }

  /** Contains on the mask of a supported list answers exactly whether the list names the byte. */
  lemma ContainsIffListed(channels: seq<ChannelByte>, b: ChannelByte)
    requires AllDefined(channels)
    ensures MaskFold(EmptyMask, channels).Ok?
    ensures Contains(MaskFold(EmptyMask, channels).value, b) <==> b in channels
  {
    if IsDefined(b) {
      assert Value(ToChannel(b)) == b;
      assert !Has(EmptyMask, ToChannel(b));
    }
  }

  /** GetCollectionType, reduced to the vector type it names; unsupported bytes throw. */
  function CollectionType(channel: ChannelByte): (r: Result<VectorKind, MeshError>)
    ensures r.Err? <==> !IsDefined(channel)
    ensures r.Err? ==> r.error == UnsupportedChannel(channel)
  {
    match channel
    case 0 => Ok(Vector3Kind)
    case 1 => Ok(Vector2Kind)
    case 2 => Ok(Vector3Kind)
    case 3 => Ok(Vector3Kind)
    case 4 => Ok(Vector3Kind)
    case 5 => Ok(Vector4Kind)
    case _ => Err(UnsupportedChannel(channel))
  }

  /** The vector type a member's array holds. */
  function KindOfChannel(c: Channel): (k: VectorKind)
    ensures Dimension(k) == Width(c)
  {
    CollectionType(Value(c)).value
  }

  /** The collection type table and the vertex width table agree on every member. */
  lemma CollectionTypeMatchesWidth(c: Channel)
    ensures CollectionType(Value(c)) == Ok(KindOfChannel(c))
    ensures Dimension(KindOfChannel(c)) == Width(c)
    ensures WidthOf(Value(c)) == Ok(Width(c))
  {
  }
}
