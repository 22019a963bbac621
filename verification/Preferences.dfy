/** The preference store's three collections: favourite platforms, favourite
    channels (with the platform they were found under) and blocked channels.
    Each is a list kept under its own key ("favorite_platforms",
    "favorite_channels", "blocked_channels") and identified by address.
    Serialising a list to JSON and reading it back is taken to give the same
    list, so a collection is stored here as the list itself; `None` stands for a
    key that was never written. */
module Preferences {
  import opened Optional
  import opened Channels
  import KeyedList

  datatype Prefs = Prefs(
    favoritePlatforms: Option<seq<Platform>>,
    favoriteChannels: Option<seq<FavoriteChannel>>,
    blockedChannels: Option<seq<Channel>>)

  /** A store nothing has been written to. */
  const Fresh: Prefs := Prefs(None, None, None)

  function PlatformKey(p: Platform): string { p.address }
  function FavoriteKey(f: FavoriteChannel): string { f.channel.address }
  function ChannelKey(c: Channel): string { c.address }

  // ---------------------------------------------------------------------
  // Favourite platforms
  // ---------------------------------------------------------------------

  function GetFavoritePlatforms(prefs: Prefs): (ps: seq<Platform>)
    ensures prefs.favoritePlatforms.None? ==> ps == []
    ensures prefs.favoritePlatforms.Some? ==> ps == prefs.favoritePlatforms.value
  {
    prefs.favoritePlatforms.GetOr([])
  }

  function IsPlatformFavorite(prefs: Prefs, platform: Platform): (b: bool)
    ensures b <==> exists i :: 0 <= i < |GetFavoritePlatforms(prefs)| && GetFavoritePlatforms(prefs)[i].address == platform.address
  {
    KeyedList.Any(GetFavoritePlatforms(prefs), PlatformKey, platform.address)
  }

  /** Appends the platform unless one with its address is already stored (then nothing is written). */
  function SaveFavoritePlatform(prefs: Prefs, platform: Platform): (r: Prefs)
    ensures IsPlatformFavorite(r, platform)
    ensures forall q :: IsPlatformFavorite(r, q) <==> IsPlatformFavorite(prefs, q) || q.address == platform.address
    ensures |GetFavoritePlatforms(prefs)| <= |GetFavoritePlatforms(r)| && GetFavoritePlatforms(r)[..|GetFavoritePlatforms(prefs)|] == GetFavoritePlatforms(prefs)
    ensures IsPlatformFavorite(prefs, platform) ==> r == prefs
    ensures !IsPlatformFavorite(prefs, platform) ==> GetFavoritePlatforms(r) == GetFavoritePlatforms(prefs) + [platform]
    ensures r.favoriteChannels == prefs.favoriteChannels && r.blockedChannels == prefs.blockedChannels
  {
    var xs := GetFavoritePlatforms(prefs);
    if KeyedList.Any(xs, PlatformKey, platform.address) then prefs
    else
      KeyedList.InsertNewKeyAppends(xs, platform, PlatformKey);
      prefs.(favoritePlatforms := Some(KeyedList.Insert(xs, platform, PlatformKey)))
  }

  /** Drops every platform with the given address and writes the rest back. */
  function RemoveFavoritePlatform(prefs: Prefs, platform: Platform): (r: Prefs)
    ensures !IsPlatformFavorite(r, platform)
    ensures forall q :: IsPlatformFavorite(r, q) <==> IsPlatformFavorite(prefs, q) && q.address != platform.address
    ensures forall q :: q in GetFavoritePlatforms(r) <==> q in GetFavoritePlatforms(prefs) && q.address != platform.address
    ensures !IsPlatformFavorite(prefs, platform) ==> GetFavoritePlatforms(r) == GetFavoritePlatforms(prefs)
    ensures r.favoriteChannels == prefs.favoriteChannels && r.blockedChannels == prefs.blockedChannels
  {
    var xs := GetFavoritePlatforms(prefs);
    KeyedList.RemoveAbsentIsNoOp(xs, PlatformKey, platform.address);
    prefs.(favoritePlatforms := Some(KeyedList.RemoveAll(xs, PlatformKey, platform.address)))
  }

  // ---------------------------------------------------------------------
  // Favourite channels
  // ---------------------------------------------------------------------

  function GetFavoriteChannels(prefs: Prefs): (fs: seq<FavoriteChannel>)
    ensures prefs.favoriteChannels.None? ==> fs == []
    ensures prefs.favoriteChannels.Some? ==> fs == prefs.favoriteChannels.value
  {
    prefs.favoriteChannels.GetOr([])
  }

  function IsChannelFavorite(prefs: Prefs, channel: Channel): (b: bool)
    ensures b <==> exists i :: 0 <= i < |GetFavoriteChannels(prefs)| && GetFavoriteChannels(prefs)[i].channel.address == channel.address
  {
    KeyedList.Any(GetFavoriteChannels(prefs), FavoriteKey, channel.address)
  }

  /** Appends the channel with the platform it was found under, unless a
      favourite with its address is already stored (then nothing is written). */
  function SaveFavoriteChannel(prefs: Prefs, channel: Channel, platformUrl: string): (r: Prefs)
    ensures IsChannelFavorite(r, channel)
    ensures forall c :: IsChannelFavorite(r, c) <==> IsChannelFavorite(prefs, c) || c.address == channel.address
    ensures |GetFavoriteChannels(prefs)| <= |GetFavoriteChannels(r)| && GetFavoriteChannels(r)[..|GetFavoriteChannels(prefs)|] == GetFavoriteChannels(prefs)
    ensures IsChannelFavorite(prefs, channel) ==> r == prefs
    ensures !IsChannelFavorite(prefs, channel) ==> GetFavoriteChannels(r) == GetFavoriteChannels(prefs) + [FavoriteChannel(channel, platformUrl)]
    ensures r.favoritePlatforms == prefs.favoritePlatforms && r.blockedChannels == prefs.blockedChannels
  {
    var xs := GetFavoriteChannels(prefs);
    var f := FavoriteChannel(channel, platformUrl);
    assert FavoriteKey(f) == channel.address;
    if KeyedList.Any(xs, FavoriteKey, channel.address) then prefs
    else
      KeyedList.InsertNewKeyAppends(xs, f, FavoriteKey);
      prefs.(favoriteChannels := Some(KeyedList.Insert(xs, f, FavoriteKey)))
  }

  /** Drops every favourite with the channel's address and writes the rest back. */
  function RemoveFavoriteChannel(prefs: Prefs, channel: Channel): (r: Prefs)
    ensures !IsChannelFavorite(r, channel)
    ensures forall c :: IsChannelFavorite(r, c) <==> IsChannelFavorite(prefs, c) && c.address != channel.address
    ensures forall f :: f in GetFavoriteChannels(r) <==> f in GetFavoriteChannels(prefs) && f.channel.address != channel.address
    ensures !IsChannelFavorite(prefs, channel) ==> GetFavoriteChannels(r) == GetFavoriteChannels(prefs)
    ensures r.favoritePlatforms == prefs.favoritePlatforms && r.blockedChannels == prefs.blockedChannels
  {
    var xs := GetFavoriteChannels(prefs);
    KeyedList.RemoveAbsentIsNoOp(xs, FavoriteKey, channel.address);
    prefs.(favoriteChannels := Some(KeyedList.RemoveAll(xs, FavoriteKey, channel.address)))
  }

  // ---------------------------------------------------------------------
  // Blocked channels
  // ---------------------------------------------------------------------

  function GetBlockedChannels(prefs: Prefs): (cs: seq<Channel>)
    ensures prefs.blockedChannels.None? ==> cs == []
    ensures prefs.blockedChannels.Some? ==> cs == prefs.blockedChannels.value
  {
    prefs.blockedChannels.GetOr([])
  }

  function IsChannelBlocked(prefs: Prefs, channel: Channel): (b: bool)
    ensures b <==> exists i :: 0 <= i < |GetBlockedChannels(prefs)| && GetBlockedChannels(prefs)[i].address == channel.address
  {
    KeyedList.Any(GetBlockedChannels(prefs), ChannelKey, channel.address)
  }

  /** Appends the channel unless one with its address is already blocked (then nothing is written). */
  function AddBlockedChannel(prefs: Prefs, channel: Channel): (r: Prefs)
    ensures IsChannelBlocked(r, channel)
    ensures forall c :: IsChannelBlocked(r, c) <==> IsChannelBlocked(prefs, c) || c.address == channel.address
    ensures |GetBlockedChannels(prefs)| <= |GetBlockedChannels(r)| && GetBlockedChannels(r)[..|GetBlockedChannels(prefs)|] == GetBlockedChannels(prefs)
    ensures IsChannelBlocked(prefs, channel) ==> r == prefs
    ensures !IsChannelBlocked(prefs, channel) ==> GetBlockedChannels(r) == GetBlockedChannels(prefs) + [channel]
    ensures r.favoritePlatforms == prefs.favoritePlatforms && r.favoriteChannels == prefs.favoriteChannels
  {
    var xs := GetBlockedChannels(prefs);
    if KeyedList.Any(xs, ChannelKey, channel.address) then prefs
    else
      KeyedList.InsertNewKeyAppends(xs, channel, ChannelKey);
      var r := prefs.(blockedChannels := Some(KeyedList.Insert(xs, channel, ChannelKey)));
      assert GetBlockedChannels(r) == xs + [channel];
      r
  }

  /** Drops every blocked channel with the given address and writes the rest back. */
  function RemoveBlockedChannel(prefs: Prefs, channel: Channel): (r: Prefs)
    ensures !IsChannelBlocked(r, channel)
    ensures forall c :: IsChannelBlocked(r, c) <==> IsChannelBlocked(prefs, c) && c.address != channel.address
    ensures forall c :: c in GetBlockedChannels(r) <==> c in GetBlockedChannels(prefs) && c.address != channel.address
    ensures !IsChannelBlocked(prefs, channel) ==> GetBlockedChannels(r) == GetBlockedChannels(prefs)
    ensures r.favoritePlatforms == prefs.favoritePlatforms && r.favoriteChannels == prefs.favoriteChannels
  {
    var xs := GetBlockedChannels(prefs);
    KeyedList.RemoveAbsentIsNoOp(xs, ChannelKey, channel.address);
    prefs.(blockedChannels := Some(KeyedList.RemoveAll(xs, ChannelKey, channel.address)))
  }

  // ---------------------------------------------------------------------
  // Properties across operations
  // ---------------------------------------------------------------------

  /** A store nothing was written to reads as three empty collections. */
  lemma FreshStoreIsEmpty(p: Platform, c: Channel)
    ensures GetFavoritePlatforms(Fresh) == [] && GetFavoriteChannels(Fresh) == [] && GetBlockedChannels(Fresh) == []
    ensures !IsPlatformFavorite(Fresh, p) && !IsChannelFavorite(Fresh, c) && !IsChannelBlocked(Fresh, c)
  {
  }

  /** Saving, favouriting or blocking the same item twice is the same as doing it once. */
  lemma SavingIsIdempotent(prefs: Prefs, p: Platform, c: Channel, url: string, url2: string)
    ensures SaveFavoritePlatform(SaveFavoritePlatform(prefs, p), p) == SaveFavoritePlatform(prefs, p)
    ensures SaveFavoriteChannel(SaveFavoriteChannel(prefs, c, url), c, url2) == SaveFavoriteChannel(prefs, c, url)
    ensures AddBlockedChannel(AddBlockedChannel(prefs, c), c) == AddBlockedChannel(prefs, c)
  {
  }

  /** A platform with a new address goes to the end of the list; one whose
      address is stored (even under another title) changes nothing. */
  lemma SavePlatformAppendsOnlyNewAddresses(prefs: Prefs, p: Platform)
    ensures !IsPlatformFavorite(prefs, p) ==> GetFavoritePlatforms(SaveFavoritePlatform(prefs, p)) == GetFavoritePlatforms(prefs) + [p]
    ensures IsPlatformFavorite(prefs, p) ==> SaveFavoritePlatform(prefs, p) == prefs
  {
  }

  /** Removal keeps the other entries in their order: removing from a list
      made of two parts removes from each part. */
  lemma RemovePlatformKeepsOrder(prefs: Prefs, p: Platform, front: seq<Platform>, back: seq<Platform>)
    requires GetFavoritePlatforms(prefs) == front + back
    ensures GetFavoritePlatforms(RemoveFavoritePlatform(prefs, p))
         == KeyedList.RemoveAll(front, PlatformKey, p.address) + KeyedList.RemoveAll(back, PlatformKey, p.address)
  {
    KeyedList.RemoveAllDistributes(front, back, PlatformKey, p.address);
  }

  /** The same for favourite channels: a new address goes to the end with the
      platform it was found under; a stored one changes nothing. */
  lemma SaveChannelAppendsOnlyNewAddresses(prefs: Prefs, c: Channel, url: string)
    ensures !IsChannelFavorite(prefs, c) ==> GetFavoriteChannels(SaveFavoriteChannel(prefs, c, url)) == GetFavoriteChannels(prefs) + [FavoriteChannel(c, url)]
    ensures IsChannelFavorite(prefs, c) ==> SaveFavoriteChannel(prefs, c, url) == prefs
  {
  }

  /** The same for blocked channels. */
  lemma BlockAppendsOnlyNewAddresses(prefs: Prefs, c: Channel)
    ensures !IsChannelBlocked(prefs, c) ==> GetBlockedChannels(AddBlockedChannel(prefs, c)) == GetBlockedChannels(prefs) + [c]
    ensures IsChannelBlocked(prefs, c) ==> AddBlockedChannel(prefs, c) == prefs
  {
  }

  /** Removing a favourite channel keeps the other favourites in their order. */
  lemma RemoveChannelKeepsOrder(prefs: Prefs, c: Channel, front: seq<FavoriteChannel>, back: seq<FavoriteChannel>)
    requires GetFavoriteChannels(prefs) == front + back
    ensures GetFavoriteChannels(RemoveFavoriteChannel(prefs, c))
         == KeyedList.RemoveAll(front, FavoriteKey, c.address) + KeyedList.RemoveAll(back, FavoriteKey, c.address)
  {
    KeyedList.RemoveAllDistributes(front, back, FavoriteKey, c.address);
  }

  /** Unblocking a channel keeps the other blocked channels in their order. */
  lemma UnblockKeepsOrder(prefs: Prefs, c: Channel, front: seq<Channel>, back: seq<Channel>)
    requires GetBlockedChannels(prefs) == front + back
    ensures GetBlockedChannels(RemoveBlockedChannel(prefs, c))
         == KeyedList.RemoveAll(front, ChannelKey, c.address) + KeyedList.RemoveAll(back, ChannelKey, c.address)
  {
    KeyedList.RemoveAllDistributes(front, back, ChannelKey, c.address);
  }

  /** Favouriting a channel whose address is already a favourite, from any
      platform, writes nothing: the stored entry keeps the platform it was
      first favourited under. */
  lemma FavoriteKeepsFirstPlatform(prefs: Prefs, c: Channel, again: Channel, firstUrl: string, laterUrl: string)
    ensures IsChannelFavorite(prefs, c) && again.address == c.address ==> SaveFavoriteChannel(prefs, again, laterUrl) == prefs
    ensures !IsChannelFavorite(prefs, c) && again.address == c.address ==>
              (GetFavoriteChannels(SaveFavoriteChannel(SaveFavoriteChannel(prefs, c, firstUrl), again, laterUrl))
               == GetFavoriteChannels(prefs) + [FavoriteChannel(c, firstUrl)])
  {
  }

  /** Saving and then removing the same address forgets it, leaving the rest as removal alone would. */
  lemma RemoveUndoesSave(prefs: Prefs, p: Platform)
    ensures !IsPlatformFavorite(RemoveFavoritePlatform(SaveFavoritePlatform(prefs, p), p), p)
    ensures GetFavoritePlatforms(RemoveFavoritePlatform(SaveFavoritePlatform(prefs, p), p))
         == GetFavoritePlatforms(RemoveFavoritePlatform(prefs, p))
  {
    KeyedList.RemoveUndoesInsert(GetFavoritePlatforms(prefs), p, PlatformKey);
  }
}
