/**
 * The closed set of mesh channels and the byte-backed flag mask over them
 * (MeshChannel, MeshChannelMask, and the Mesh.Channel / Mesh.ChannelMask
 * enums of the older revision, which carry the same values).
 */
module MeshChannels {

  /** The six channels, in declaration order. */
  datatype Channel = Position | UV | Normal | Tangent | BiTangent | Color

  /** Both enums are byte-backed, so a channel travels as any byte at all. */
  type ChannelByte = bv8

  /** A channel mask is a byte whose low six bits are the channel flags. */
  type Mask = bv8

  const AllChannels: seq<Channel> := [Position, UV, Normal, Tangent, BiTangent, Color]

  /** The implicit enum value of a channel: its declaration index. */
  function Value(c: Channel): ChannelByte {
    match c
    case Position => 0
    case UV => 1
    case Normal => 2
    case Tangent => 3
    case BiTangent => 4
    case Color => 5
  }

  /** True when a byte names one of the six members. */
  predicate IsDefined(b: ChannelByte) {
    b < 6
  }

  /** The member a defined byte names. */
  function ToChannel(b: ChannelByte): (c: Channel)
    requires IsDefined(b)
    ensures Value(c) == b
  {
    if b == 0 then Position
    else if b == 1 then UV
    else if b == 2 then Normal
    else if b == 3 then Tangent
    else if b == 4 then BiTangent
    else Color
  }

  /** Every member's value is defined and decodes back to the member. */
  lemma ValueRoundTrip(c: Channel)
    ensures IsDefined(Value(c)) && ToChannel(Value(c)) == c
  {
  }

  /** The enum has exactly six members, listed in declaration order with values 0..5. */
  lemma ExactlySixMembers()
    ensures |AllChannels| == 6
    ensures forall c: Channel :: c in AllChannels
    ensures forall i :: 0 <= i < 6 ==> Value(AllChannels[i]) == i as ChannelByte
    ensures forall b: ChannelByte :: IsDefined(b) <==> exists c: Channel :: Value(c) == b
  {
    forall c: Channel
      ensures c in AllChannels
    {
      assert AllChannels[Value(c) as int] == c;
    }
    forall b: ChannelByte | IsDefined(b)
      ensures exists c: Channel :: Value(c) == b
    {
      assert Value(ToChannel(b)) == b;
    }
  }

  /** Distinct members have distinct values. */
  lemma ValueInjective(c: Channel, d: Channel)
    ensures Value(c) == Value(d) ==> c == d
  {
  }

  const EmptyMask: Mask := 0
  const Positions: Mask := 1
  const UVs: Mask := 2
  const Normals: Mask := 4
  const Tangents: Mask := 8
  const BiTangents: Mask := 16
  const Colors: Mask := 32

  /** The union of the six flags. */
  const AllFlags: Mask := Positions | UVs | Normals | Tangents | BiTangents | Colors

  /** The two high bits of the byte, which name no channel. */
  const SpareBits: Mask := 0xC0

  /** The flag a channel sets in a mask. */
  function Flag(c: Channel): Mask {
    match c
    case Position => Positions
    case UV => UVs
    case Normal => Normals
    case Tangent => Tangents
    case BiTangent => BiTangents
    case Color => Colors
  }

  /** The flag of the member with value v is bit 2^v: the two enums line up. */
  lemma FlagIsBitOfValue(c: Channel)
    ensures Flag(c) == (1 as Mask) << Value(c)
  {
  }

  /** Each flag is a single bit, distinct channels have disjoint flags, and all of them together make 63. */
  lemma FlagsAreDisjointBits(c: Channel, d: Channel)
    ensures Flag(c) != 0 && Flag(c) & (Flag(c) - 1) == 0
    ensures c != d ==> Flag(c) & Flag(d) == 0
    ensures Flag(c) & AllFlags == Flag(c)
    ensures AllFlags == 63 && EmptyMask == 0
    ensures AllFlags & SpareBits == 0 && AllFlags | SpareBits == 0xFF
  {
  }

  /** True when the channel's flag is set. */
  predicate Has(mask: Mask, c: Channel) {
    mask & Flag(c) != 0
  }

  /** Or-ing in a flag sets that channel, keeps every other channel and leaves the spare bits alone. */
  lemma FlagSetsOnlyItsBit(mask: Mask, c: Channel)
    ensures Has(mask | Flag(c), c)
    ensures forall d: Channel :: d != c ==> (Has(mask | Flag(c), d) <==> Has(mask, d))
    ensures (mask | Flag(c)) & SpareBits == mask & SpareBits
  {
    forall d: Channel
      ensures Has(mask | Flag(c), d) <==> Has(mask, d) || d == c
    {
      HasAfterFlag(mask, c, d);
    }
  }

  /** Floats per vertex that the channel contributes. */
  function Width(c: Channel): nat {
    match c
    case Position => 3
    case UV => 2
    case Normal => 3
    case Tangent => 3
    case BiTangent => 3
    case Color => 4
  }

  /** Setting a flag makes exactly that channel present on top of what was there. */
  lemma HasAfterFlag(mask: Mask, c: Channel, d: Channel)
    ensures Has(mask | Flag(c), d) <==> Has(mask, d) || d == c
  {
  }
}
