/** The metadata that the playlist service keeps for the songs of the MPD queue, by their addresses:
    OHPlaylist::makeIdArray, cacheFind and cacheSet of src/ohplaylist.cxx. */
module MetaCache {
  import opened M = MpdCli
  import opened Strings

  type Meta = map<string, string>

  const FROM_MPD := "<orig>mpd</orig>"

  predicate Contains(s: string, t: string) {
    |t| <= |s| && (s[..|t|] == t || (s != [] && Contains(s[1..], t)))
  }

  /** The text stands somewhere, at any place. */
  ghost predicate Holds(s: string, t: string) { exists a, b :: s == a + t + b }

  lemma ContainsExactly(s: string, t: string)
    ensures Contains(s, t) <==> Holds(s, t)
  {
    if Contains(s, t) { var a, b := SplitAt(s, t); }
    if Holds(s, t) {
      var a, b :| s == a + t + b;
      FoundIn(a, t, b);
    }
  }

  lemma {:induction false} SplitAt(s: string, t: string) returns (a: string, b: string)
    requires Contains(s, t)
    ensures s == a + t + b
    decreases |s|
  {
    if s[..|t|] == t {
      a, b := "", s[|t|..];
    } else {
      a, b := SplitAt(s[1..], t);
      a := [s[0]] + a;
    }
  }

  lemma {:induction false} FoundIn(a: string, t: string, b: string)
    ensures Contains(a + t + b, t)
    decreases |a|
  {
    var s := a + t + b;
    if a == "" {
      assert s[..|t|] == t;
    } else {
      FoundIn(a[1..], t, b);
      assert s[1..] == a[1..] + t + b;
    }
  }

  function Addresses(q: Queue): set<string> { set k | 0 <= k < |q| :: q[k].uri }

  /** The ids that translateIdArray encodes. */
  function IdArray(q: Queue): (r: seq<int>)
    ensures forall id :: id in r <==> id != 0 && exists k :: 0 <= k < |q| && q[k].id == id
    ensures |r| <= |q| && ((forall k :: 0 <= k < |q| ==> q[k].id != 0) ==> |r| == |q| && forall k :: 0 <= k < |q| ==> r[k] == q[k].id)
  {
    if q == [] then []
    else
      var rest := IdArray(q[..|q| - 1]);
      assert forall k :: 0 <= k < |q| - 1 ==> q[..|q| - 1][k] == q[k];
      rest + IdCode(q[|q| - 1].id)
  }

  function IdCode(id: int): seq<int> { if id != 0 then [id] else [] }

  /** The order of the queue is kept, whatever ids are 0. */
  lemma {:induction false} IdArrayConcat(a: Queue, b: Queue)
    ensures IdArray(a + b) == IdArray(a) + IdArray(b)
    decreases |b|
  {
    if b == [] {
      assert a + b == a && IdArray(a) + [] == IdArray(a);
    } else {
      var n := |b| - 1;
      IdArrayConcat(a, b[..n]);
      assert (a + b)[..|a + b| - 1] == a + b[..n] && (a + b)[|a + b| - 1] == b[n];
      IdArrayAppend(a + b);
      IdArrayAppend(b);
      hide IdArray, IdCode;
      Regroup(IdArray(a), IdArray(b[..n]), IdCode(b[n].id));
    }
  }

  lemma IdArrayAppend(q: Queue)
    requires q != []
    ensures IdArray(q) == IdArray(q[..|q| - 1]) + IdCode(q[|q| - 1].id)
  {
  }

  /** The first song with an address. */
  function FirstSong(q: Queue, uri: string): (s: Song)
    requires uri in Addresses(q)
    ensures exists k :: 0 <= k < |q| && q[k] == s && s.uri == uri && forall j :: 0 <= j < k ==> q[j].uri != uri
  {
    var n := |q| - 1;
    assert forall k :: 0 <= k < n ==> q[..n][k] == q[k];
    if uri in Addresses(q[..n]) then FirstSong(q[..n], uri)
    else
      assert forall k :: 0 <= k < n ==> q[..n][k].uri in Addresses(q[..n]);
      q[n]
  }

  /** What the cache becomes: an address keeps its old entry, a new one gets that of its first song. */
  ghost predicate Follows(before: Meta, q: Queue, didl: Song -> string, now: Meta) {
    now.Keys == Addresses(q) &&
    forall u :: u in now ==> now[u] == if u in before then before[u] else didl(FirstSong(q, u))
  }

  lemma FollowsAppend(before: Meta, q: Queue, k: nat, didl: Song -> string, now: Meta, then_: Meta)
    requires k < |q| && Follows(before, q[..k], didl, now)
    requires then_ == if q[k].uri in now then now
                      else now[q[k].uri := if q[k].uri in before then before[q[k].uri] else didl(q[k])]
    ensures Follows(before, q[..k + 1], didl, then_)
  {
    AddressesGrow(q, k);
    hide Addresses, FirstSong;
    forall u | u in then_ && u !in before ensures then_[u] == didl(FirstSong(q[..k + 1], u)) { FirstSongOfMore(q, k, u); }
  }

  lemma FirstSongOfMore(q: Queue, k: nat, u: string)
    requires k < |q| && u in Addresses(q[..k + 1])
    ensures FirstSong(q[..k + 1], u) == if u in Addresses(q[..k]) then FirstSong(q[..k], u) else q[k]
  {
    assert q[..k + 1][..k] == q[..k];
  }

  /** A queue with the addresses of the cache changes nothing. */
  lemma FollowsSame(before: Meta, q: Queue, didl: Song -> string, now: Meta)
    requires Follows(before, q, didl, now) && before.Keys == Addresses(q)
    ensures now == before
  {
  }

  /** The saved map is up to date, but for the titles of streams that MPD changed. */
  ghost predicate UpToDate(saved: Meta, cache: Meta) {
    saved.Keys == cache.Keys && forall u :: u in cache ==> saved[u] == cache[u] || Holds(saved[u], FROM_MPD)
  }

  class OHPlaylist {
    const persist: bool
    const didlmake: Song -> string
    const sameTitle: (string, string) -> bool
    var active: bool
    var metacache: Meta
    var cachedirty: bool
    var mpdqvers: int
    var idArrayCached: seq<int>
    // the last map handed to dmcacheSave, and the queue of the version last looked at while active
    ghost var saved: Meta
    ghost var seen: Queue

    ghost predicate Valid()
      reads this
    {
      (persist ==> cachedirty || UpToDate(saved, metacache)) && Addresses(seen) <= metacache.Keys
    }

    constructor (persist: bool, didlmake: Song -> string, sameTitle: (string, string) -> bool, restored: Meta)
      ensures Valid() && metacache == restored && active && mpdqvers == -1
    {
      this.persist, this.didlmake, this.sameTitle := persist, didlmake, sameTitle;
      active, metacache, cachedirty, mpdqvers, idArrayCached := true, restored, false, -1, [];
      saved, seen := restored, [];
    }

    method CacheSet(uri: string, meta: string)
      requires Valid()
      modifies this`metacache, this`cachedirty
      ensures Valid() && metacache == old(metacache)[uri := meta] && cachedirty
    {
      metacache := metacache[uri := meta];
      cachedirty := true;
    }

    /** makeIdArray. */
    method MakeIdArray(qvers: int, current: Song, queue: Queue) returns (out: seq<int>)
      requires Valid()
      modifies this
      ensures Valid() && mpdqvers == qvers && active == old(active)
      ensures qvers != old(mpdqvers) ==> out == idArrayCached == IdArray(queue)
      ensures qvers != old(mpdqvers) && active ==> seen == queue && Follows(old(metacache), queue, didlmake, metacache)
      ensures qvers != old(mpdqvers) && active && persist ==> !cachedirty && UpToDate(saved, metacache)
      ensures qvers != old(mpdqvers) && !active ==> metacache == old(metacache)
      ensures qvers == old(mpdqvers) ==>
        if old(NewTitle(current)) then out == [] && metacache == old(metacache)[current.uri := didlmake(current)]
        else out == idArrayCached && metacache == old(metacache)
      ensures qvers == old(mpdqvers) ==> unchanged(`idArrayCached, `cachedirty, `saved, `seen)
      // the song being played is always found
      ensures qvers == old(mpdqvers) && current.uri in Addresses(seen) ==> current.uri in old(metacache)
    {
      if qvers == mpdqvers {
        out := idArrayCached;
        if current.uri in metacache { ContainsExactly(metacache[current.uri], FROM_MPD); }
        if current.id != -1 && current.uri in metacache && Contains(metacache[current.uri], FROM_MPD) {
          var nmeta := didlmake(current);
          if !sameTitle(nmeta, metacache[current.uri]) {
            out := [];
            metacache := metacache[current.uri := nmeta];
          }
        }
      } else {
        out := Refill(qvers, queue);
      }
    }

    /** The stream being played, which MPD told of, has another title than its entry. */
    ghost predicate NewTitle(current: Song)
      reads this
    {
      current.id != -1 && current.uri in metacache && Holds(metacache[current.uri], FROM_MPD) &&
      !sameTitle(didlmake(current), metacache[current.uri])
    }

    /** The queue changed: entries of songs that are gone go too, new songs get one from the data of MPD. */
    method Refill(qvers: int, queue: Queue) returns (out: seq<int>)
      requires Valid() && qvers != mpdqvers
      modifies this
      ensures Valid() && mpdqvers == qvers && active == old(active)
      ensures out == idArrayCached == IdArray(queue)
      ensures active ==> seen == queue && Follows(old(metacache), queue, didlmake, metacache)
      ensures active && persist ==> !cachedirty && UpToDate(saved, metacache)
      ensures !active ==> metacache == old(metacache) && cachedirty == old(cachedirty) && seen == old(seen)
    {
      out := IdArray(queue);
      idArrayCached := out;
      mpdqvers := qvers;
      if !active { return; }
      var nmeta := Walk(queue);
      if persist && (metacache != map[] || cachedirty) {
        saved := nmeta;
        cachedirty := false;
      } else if persist {
        assert metacache.Keys == {} && Addresses(queue) <= old(metacache).Keys;
        assert forall u :: u in old(metacache).Keys && u !in Addresses(queue) ==> u in metacache.Keys;
        FollowsSame(old(metacache), queue, didlmake, nmeta);
      }
      metacache := nmeta;
      seen := queue;
    }

    /** Moves the entries of the queue out of the cache, which keeps the stale ones. */
    method Walk(queue: Queue) returns (nmeta: Meta)
      modifies this`metacache, this`cachedirty
      ensures Follows(old(metacache), queue, didlmake, nmeta)
      ensures metacache.Keys == old(metacache).Keys - Addresses(queue)
      ensures cachedirty == (old(cachedirty) || !(Addresses(queue) <= old(metacache).Keys))
    {
      nmeta := map[];
      var k := 0;
      while k < |queue|
        invariant 0 <= k <= |queue|
        invariant Follows(old(metacache), queue[..k], didlmake, nmeta)
        invariant metacache.Keys == old(metacache).Keys - Addresses(queue[..k])
        invariant forall u :: u in metacache ==> metacache[u] == old(metacache)[u]
        invariant cachedirty == (old(cachedirty) || !(Addresses(queue[..k]) <= old(metacache).Keys))
      {
        var uri := queue[k].uri;
        AddressesGrow(queue, k);
        ghost var before := nmeta;
        if uri in metacache {
          nmeta := nmeta[uri := metacache[uri]];
          metacache := metacache - {uri};
        } else if uri !in nmeta {
          nmeta := nmeta[uri := didlmake(queue[k])];
          cachedirty := true;
        }
        FollowsAppend(old(metacache), queue, k, didlmake, before, nmeta);
        k := k + 1;
      }
      assert queue[..k] == queue;
    }
  }

  lemma AddressesGrow(q: Queue, k: nat)
    requires k < |q|
    ensures Addresses(q[..k + 1]) == Addresses(q[..k]) + {q[k].uri}
  {
  }
}
