/** The catalog records: channels (a streamer's stream address), platforms, and
    a favourited channel together with the platform it was found under. */
module Channels {
  import opened Text

  /** A channel: display title and stream address. Identity is the address. */
  datatype Channel = Channel(title: string, address: string)

  /** A platform of the catalog. Identity is the address (a catalog-relative path). */
  datatype Platform = Platform(title: string, address: string, xinimg: string, number: string)

  /** A favourite channel remembers the platform catalog it was found under. */
  datatype FavoriteChannel = FavoriteChannel(channel: Channel, platformUrl: string)

  const HlsMarker: string := ".m3u8"
  const FlvMarker: string := ".flv"

  /** A channel is live when its address mentions an HLS playlist or an FLV
      stream anywhere, in any letter case; every other address, `rtmp://` ones
      included, is treated as a recording. */
  function IsLive(c: Channel): (live: bool)
    ensures live <==> Occurs(c.address, HlsMarker, true) || Occurs(c.address, FlvMarker, true)
  {
    Contains(c.address, HlsMarker, true) || Contains(c.address, FlvMarker, true)
  }

  /** Liveness is exactly an (ignore-case) occurrence of one of the two markers. */
  lemma IsLiveMeansMarkerOccurs(c: Channel)
    ensures IsLive(c) <==> Occurs(c.address, ".m3u8", true) || Occurs(c.address, ".flv", true)
  {
  }

  /** Changing the letter case of the address never changes liveness. */
  lemma IsLiveIgnoresCase(c: Channel, d: Channel)
    requires SameIgnoringCase(c.address, d.address)
    ensures IsLive(c) == IsLive(d)
  {
    ContainsIgnoringCaseIsCaseBlind(c.address, d.address, HlsMarker);
    ContainsIgnoringCaseIsCaseBlind(c.address, d.address, FlvMarker);
  }

  /** A marker anywhere in the address makes the channel live; it need not be a suffix. */
  lemma MarkerAnywhereIsLive(title: string, p: string, q: string)
    ensures IsLive(Channel(title, p + ".m3u8" + q))
    ensures IsLive(Channel(title, p + ".flv" + q))
  {
    ContainsInfix(p, HlsMarker, q, true);
    ContainsInfix(p, FlvMarker, q, true);
  }

  /** The HLS address documented beside the property is live. */
  lemma DocumentedHlsExampleIsLive()
    ensures IsLive(Channel("", "http://dsj.jshfgy.cn:8880/mgtv/624878396.m3u8"))
  {
    var p := "http://dsj.jshfgy.cn:8880/mgtv/624878396";
    MarkerAnywhereIsLive("", p, "");
    assert p + ".m3u8" + "" == "http://dsj.jshfgy.cn:8880/mgtv/624878396.m3u8";
  }

  /** The FLV address documented beside the property is live. */
  lemma DocumentedFlvExampleIsLive()
    ensures IsLive(Channel("", "http://mtfvihalkhofnzhftui.xinzhitushu.xyz/live/cx_363373.flv"))
  {
    var p := "http://mtfvihalkhofnzhftui.xinzhitushu.xyz/live/cx_363373";
    MarkerAnywhereIsLive("", p, "");
    assert p + ".flv" + "" == "http://mtfvihalkhofnzhftui.xinzhitushu.xyz/live/cx_363373.flv";
  }

  /** A dot-led marker cannot occur in an address whose only dots are each
      followed by a character other than the marker's second one. */
  lemma DotMarkerAbsent(a: string, b: string, c: string, marker: string)
    requires |marker| >= 2 && marker[0] == '.'
    requires '.' !in a && '.' !in b && '.' !in c
    requires |b| > 0 && Lower(b[0]) != Lower(marker[1])
    requires |c| > 0 && Lower(c[0]) != Lower(marker[1])
    ensures !Occurs(a + "." + b + "." + c, marker, true)
  {
  }

  /** An address with two dots, followed by neither 'm' nor 'f', is a recording. */
  lemma TwoDotAddressIsRecorded(title: string, a: string, b: string, c: string)
    requires '.' !in a && '.' !in b && '.' !in c
    requires |b| > 0 && Lower(b[0]) != 'm' && Lower(b[0]) != 'f'
    requires |c| > 0 && Lower(c[0]) != 'm' && Lower(c[0]) != 'f'
    ensures !IsLive(Channel(title, a + "." + b + "." + c))
  {
    DotMarkerAbsent(a, b, c, HlsMarker);
    DotMarkerAbsent(a, b, c, FlvMarker);
  }

  /** A dot-led marker cannot occur where no dot is followed by the marker's
      second letter, in either case. */
  lemma DotMarkerAbsentAnywhere(s: string, marker: string)
    requires |marker| >= 2 && marker[0] == '.'
    requires forall i :: 0 <= i < |s| - 1 && s[i] == '.' ==> Lower(s[i + 1]) != Lower(marker[1])
    ensures !Occurs(s, marker, true)
  {
    forall i | 0 <= i && i + |marker| <= |s|
      ensures !MatchesAt(s, marker, i, true)
    {
      assert Lower(s[i]) == '.' ==> s[i] == '.';
      assert !CharEq(s[i + 0], marker[0], true) || !CharEq(s[i + 1], marker[1], true);
    }
  }

  /** An address, with any number of dots, in which no dot is followed by an
      'm' or an 'f' in either case is a recording. */
  lemma DotsWithoutMarkerLetterAreRecorded(c: Channel)
    requires forall i :: 0 <= i < |c.address| - 1 && c.address[i] == '.' ==>
               Lower(c.address[i + 1]) != 'm' && Lower(c.address[i + 1]) != 'f'
    ensures !IsLive(c)
  {
    DotMarkerAbsentAnywhere(c.address, HlsMarker);
    DotMarkerAbsentAnywhere(c.address, FlvMarker);
  }

  /** The RTMP address documented beside the property. */
  const DocumentedRtmpAddress: string := "rtmp://xueli130.vihyvz.top/live/4516_1751345"

  /** The documented RTMP address mentions neither marker, so it is a recording. */
  lemma DocumentedRtmpExampleIsRecorded()
    ensures !IsLive(Channel("", DocumentedRtmpAddress))
  {
    var a, b, c := "rtmp://xueli130", "vihyvz", "top/live/4516_1751345";
    assert a + "." + b + "." + c == DocumentedRtmpAddress;
    TwoDotAddressIsRecorded("", a, b, c);
  }

  /** Upper-case markers count too. */
  lemma UpperCaseMarkersAreLive()
    ensures IsLive(Channel("", "http://h/x.M3U8"))
    ensures IsLive(Channel("", "http://h/x.FLV"))
  {
    assert MatchesAt("http://h/x.M3U8", HlsMarker, 10, true);
    assert MatchesAt("http://h/x.FLV", FlvMarker, 10, true);
  }
}
