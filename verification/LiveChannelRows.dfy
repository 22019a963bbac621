/** One row of the favourite-channel list: the favourite star (always on), the
    hidden block button, the live/recorded tag and the download button that only
    live channels offer. */
module LiveChannelRows {
  import opened Optional
  import opened Text
  import opened Channels

  const LiveTag: string := "直播"
  const RecordedTag: string := "录播"

  /** The tag's background colour. */
  datatype TagColor = RedLight | BlueLight

  /** What a bound row shows. */
  datatype ChannelRow = ChannelRow(
    title: string,
    favoriteOn: bool,
    blockVisible: bool,
    streamTag: string,
    tagColor: TagColor,
    downloadVisible: bool)

  /** `onBindViewHolder` for one favourite channel. */
  function BindLiveChannel(f: FavoriteChannel): (r: ChannelRow)
    ensures r.title == f.channel.title
    ensures r.favoriteOn && !r.blockVisible
    ensures r.downloadVisible <==> IsLive(f.channel)
    ensures r.streamTag == LiveTag <==> r.downloadVisible
    ensures r.streamTag == RecordedTag <==> !r.downloadVisible
    ensures r.tagColor == RedLight <==> r.streamTag == LiveTag
  {
    if IsLive(f.channel) then ChannelRow(f.channel.title, true, false, LiveTag, RedLight, true)
    else ChannelRow(f.channel.title, true, false, RecordedTag, BlueLight, false)
  }

  /** The download button's handler: passes the channel on only when it is live. */
  function DownloadClick(f: FavoriteChannel): (c: Option<Channel>)
    ensures c.Some? ==> c.value == f.channel
  {
    if IsLive(f.channel) then Some(f.channel) else None
  }

  /** A click reaches the recorder exactly when the button is shown, and the
      button is shown exactly for live channels. */
  lemma DownloadOnlyFromVisibleButton(f: FavoriteChannel)
    ensures DownloadClick(f).Some? <==> BindLiveChannel(f).downloadVisible
    ensures DownloadClick(f).Some? <==> IsLive(f.channel)
  {
  }

  /** The platform a channel was favourited under does not affect its row. */
  lemma RowIgnoresPlatform(c: Channel, url1: string, url2: string)
    ensures BindLiveChannel(FavoriteChannel(c, url1)) == BindLiveChannel(FavoriteChannel(c, url2))
  {
  }

  /** Letter case in the address does not change the row's tag or download button. */
  lemma RowIgnoresAddressCase(f: FavoriteChannel, g: FavoriteChannel)
    requires f.channel.title == g.channel.title
    requires SameIgnoringCase(f.channel.address, g.channel.address)
    ensures BindLiveChannel(f) == BindLiveChannel(g)
  {
    IsLiveIgnoresCase(f.channel, g.channel);
  }

  /** A favourite whose address carries a marker anywhere offers a download. */
  lemma MarkedAddressOffersDownload(title: string, p: string, q: string, url: string)
    ensures BindLiveChannel(FavoriteChannel(Channel(title, p + HlsMarker + q), url)).downloadVisible
    ensures BindLiveChannel(FavoriteChannel(Channel(title, p + FlvMarker + q), url)).downloadVisible
  {
    MarkerAnywhereIsLive(title, p, q);
  }
}
