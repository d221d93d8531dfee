/** The error kinds the source throws, as values. */
module MeshErrors {
  import opened MeshChannels

  datatype MeshError =
    | /** NotSupportedException: the byte names none of the six channels. */
      UnsupportedChannel(value: ChannelByte)
    | /** InvalidOperationException: the channel is already on the mesh. */
      ChannelAlreadyPresent(channel: Channel)
    | /** InvalidOperationException: the channel is not on the mesh. */
      ChannelMissing(channel: Channel)
}
