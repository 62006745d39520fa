/** The cache in front of the GTFS-Realtime feed: a parsed feed is kept for
    45 seconds under one key, and a request inside that time is answered
    from memory without downloading. The download and the protocol-buffer
    decoding are inputs: `fetch` is what they would produce now. */
module GtfsRtCache {
  import opened Util
  import opened GtfsRt

  /** How long (ms) a parsed feed stays cached. */
  const CacheTime: int := 45 * 1000

  /** What downloading and decoding the feed yields: the decoded message,
      or the error the download or the decoder reported. */
  datatype Fetched = Decoded(msg: FeedMessage) | FetchFailed(error: Error)

  /** A cached value and the instant (ms) after which it is gone. */
  datatype Entry = Entry(value: Parsed, expires: int)

  class FeedCache {
    /** The one key the core uses; `None` when nothing was ever stored. */
    var entry: Option<Entry>

    constructor()
      ensures entry == None
    {
      entry := None;
    }

    /** A cache read at `now`: the stored value while its expiry time has not
        passed, nothing otherwise. */
    function Lookup(now: int): (r: Option<Parsed>)
      reads this
      ensures r.Some? <==> entry.Some? && now <= entry.value.expires
      ensures r.Some? ==> r.value == entry.value.value
    {
      if entry.Some? && now <= entry.value.expires then Some(entry.value.value) else None
    }

    /** Store `value` at `now` for `CacheTime` milliseconds. */
    method Put(value: Parsed, now: int)
      modifies this
      ensures entry == Some(Entry(value, now + CacheTime))
      ensures forall t :: now <= t <= now + CacheTime ==> Lookup(t) == Some(value)
      ensures Lookup(now + CacheTime + 1) == None
    {
      entry := Some(Entry(value, now + CacheTime));
    }

    /** The feed at `now`. A live cached value is returned and nothing is
        downloaded. Otherwise the feed is fetched and parsed: a download,
        decode or parse error is returned and nothing is stored; a parsed
        feed is stored for 45 seconds and returned. */
    method GetData(fetch: Fetched, now: int) returns (r: Result<Parsed>, downloaded: bool)
      modifies this
      ensures old(Lookup(now)).Some? ==> !downloaded && r == Ok(old(Lookup(now)).value) && entry == old(entry)
      ensures old(Lookup(now)).None? ==> downloaded
      ensures old(Lookup(now)).None? && fetch.FetchFailed? ==> r == Err(fetch.error) && entry == old(entry)
      ensures old(Lookup(now)).None? && fetch.Decoded? ==> r == ParseSpec(fetch.msg, now)
      ensures downloaded && r.Ok? ==> entry == Some(Entry(r.value, now + CacheTime))
      ensures downloaded && r.Err? ==> entry == old(entry)
      ensures r.Ok? ==> Lookup(now) == Some(r.value)
    {
      var cached := Lookup(now);
      if cached.Some? {
        return Ok(cached.value), false;
      }
      downloaded := true;
      match fetch
      case FetchFailed(e) =>
        r := Err(e);
      case Decoded(msg) =>
        r := ParseData(msg, now);
        if r.Ok? {
          Put(r.value, now);
        }
    }
  }
}
