/** The client side of the MPD queue: class MPDCli of src/mpdcli.cxx. MPD itself is the queue of the songs, the
    ids it hands out and the version that grows with every change. */
module MpdCli {
  /** title stands for the tags. */
  datatype Song = Song(id: int, uri: string, title: string)

  type Queue = seq<Song>

  ghost predicate Distinct(q: Queue, next: int) {
    (forall k :: 0 <= k < |q| ==> 0 < q[k].id < next) &&
    (forall j, k :: 0 <= j < k < |q| ==> q[j].id != q[k].id)
  }

  function Uris(q: Queue): (r: seq<string>)
    ensures |r| == |q| && forall k :: 0 <= k < |q| ==> r[k] == q[k].uri
  {
    seq(|q|, k requires 0 <= k < |q| => q[k].uri)
  }

  function Inserted(q: Queue, pos: nat, s: Song): Queue
    requires pos <= |q|
  {
    q[..pos] + [s] + q[pos..]
  }

  lemma RemovedStaysDistinct(q: Queue, next: int, k: nat)
    requires Distinct(q, next) && k < |q|
    ensures Distinct(q[..k] + q[k + 1..], next)
  {
    var r := q[..k] + q[k + 1..];
    assert forall i :: 0 <= i < |r| ==> r[i] == q[if i < k then i else i + 1];
  }

  lemma InsertedStaysDistinct(q: Queue, next: int, pos: nat, s: Song)
    requires Distinct(q, next) && pos <= |q| && s.id == next && 0 < next
    ensures Distinct(Inserted(q, pos, s), next + 1)
  {
    var r := Inserted(q, pos, s);
    assert forall i :: 0 <= i < |r| && i != pos ==> r[i] == q[if i < pos then i else i - 1];
  }

  // ----- Where a song goes -----

  /** After the song with the id, at the end if there is none, at the start for 0. */
  function ScanPos(q: Queue, id: int): (p: nat)
    ensures p <= |q|
    ensures id != 0 && (exists k :: 0 <= k < |q| && q[k].id == id) ==> p > 0 && q[p - 1].id == id
    ensures id != 0 && (forall k :: 0 <= k < |q| ==> q[k].id != id) ==> p == |q|
  {
    if id == 0 then 0 else AfterId(q, id)
  }

  function AfterId(q: Queue, id: int): (p: nat)
    ensures p <= |q|
    ensures (exists k :: 0 <= k < |q| && q[k].id == id) ==> p > 0 && q[p - 1].id == id
    ensures (forall k :: 0 <= k < |q| ==> q[k].id != id) ==> p == |q|
  {
    if q == [] then 0 else if q[0].id == id then 1 else
      assert forall k :: 1 <= k < |q| ==> q[1..][k - 1] == q[k];
      1 + AfterId(q[1..], id)
  }

  lemma {:induction false} AfterIdFirst(q: Queue, id: int, p: nat)
    requires p < |q| && q[p].id == id && forall k :: 0 <= k < p ==> q[k].id != id
    ensures AfterId(q, id) == p + 1
  {
    if p > 0 {
      assert q[0].id != id;
      AfterIdFirst(q[1..], id, p - 1);
    }
  }

  /** What the client remembers of its last insertion. */
  datatype Last = Last(id: int, pos: int, qvers: int)

  ghost predicate Remembers(q: Queue, version: int, last: Last) {
    last.qvers <= version && last.id >= -1 &&
    (last.qvers == version && last.pos >= 0 ==>
      last.pos < |q| && (last.id >= 0 ==> q[last.pos].id == last.id))
  }

  predicate HasPos(q: Queue, pos: int) { -1 <= pos <= |q| }

  predicate Shortcut(version: int, last: Last, id: int) {
    last.id == id && last.pos >= 0 && last.qvers == version
  }

  /** The position insertAfterId uses. */
  function ChosenPos(q: Queue, version: int, last: Last, id: int): int {
    if id != 0 && Shortcut(version, last, id) then last.pos + 1 else ScanPos(q, id)
  }

  /** The remembered position is the one the scan would find, except that after a failed insertion -1, an
      unknown id, passes for the id of the last song inserted. */
  lemma ShortcutIsScan(q: Queue, next: int, version: int, last: Last, id: int)
    requires Distinct(q, next) && Remembers(q, version, last)
    ensures ChosenPos(q, version, last, id) == ScanPos(q, id) <==>
            !(id == -1 && Shortcut(version, last, -1) && last.pos + 1 != |q|)
  {
    if id != 0 && Shortcut(version, last, id) && id >= 0 {
      AfterIdFirst(q, id, last.pos);
    }
  }

  // ----- Song addresses as the client reports them -----

  predicate IsAlpha(c: char) { 'a' <= c <= 'z' || 'A' <= c <= 'Z' }

  function AlphaRun(uri: string): (n: nat)
    ensures n <= |uri|
  {
    if uri != [] && IsAlpha(uri[0]) then 1 + AlphaRun(uri[1..]) else 0
  }

  /** ^[[:alpha:]]+://.+ */
  predicate LooksLikeTransport(uri: string) {
    var n := AlphaRun(uri);
    0 < n && n + 3 < |uri| && uri[n..n + 3] == "://"
  }

  const LOCAL := "http://127.0.0.1/"

  function Reported(uri: string): string {
    if LooksLikeTransport(uri) then uri else LOCAL + uri
  }

  function ReportedAll(uris: seq<string>): (r: seq<string>)
    ensures |r| == |uris| && forall k :: 0 <= k < |uris| ==> r[k] == Reported(uris[k])
  {
    seq(|uris|, k requires 0 <= k < |uris| => Reported(uris[k]))
  }

  lemma ReportedLooksLikeTransport(uri: string)
    ensures LooksLikeTransport(Reported(uri))
  {
    if !LooksLikeTransport(uri) {
      var u := LOCAL + uri;
      assert u[0] == 'h' && u[1] == 't' && u[2] == 't' && u[3] == 'p' && u[4] == ':';
      assert u[4..][0] == ':';
      assert AlphaRun(u[4..]) == 0;
      assert AlphaRun(u[3..]) == 1 by { assert u[3..][1..] == u[4..]; }
      assert AlphaRun(u[2..]) == 2 by { assert u[2..][1..] == u[3..]; }
      assert AlphaRun(u[1..]) == 3 by { assert u[1..][1..] == u[2..]; }
      assert AlphaRun(u) == 4;
      assert u[4..7] == "://";
    }
  }

  lemma {:induction false} AlphaRunIs(uri: string, n: nat)
    requires n <= |uri| && (forall i :: 0 <= i < n ==> IsAlpha(uri[i])) && (n < |uri| ==> !IsAlpha(uri[n]))
    ensures AlphaRun(uri) == n
    decreases n
  {
    if n > 0 { AlphaRunIs(uri[1..], n - 1); }
  }

  /** Letters, a colon and two slashes, and something behind them. */
  ghost predicate HasScheme(uri: string, scheme: string, rest: string) {
    uri == scheme + "://" + rest && scheme != "" && rest != "" && forall i :: 0 <= i < |scheme| ==> IsAlpha(scheme[i])
  }

  lemma {:induction false} AlphaRunLetters(uri: string)
    ensures forall i :: 0 <= i < AlphaRun(uri) ==> IsAlpha(uri[i])
  {
    if uri != [] && IsAlpha(uri[0]) { AlphaRunLetters(uri[1..]); }
  }

  /** An address with a scheme is reported as it is, every other one as a file of this host. */
  lemma ReportedExactly(uri: string)
    ensures forall scheme, rest :: HasScheme(uri, scheme, rest) ==> Reported(uri) == uri
    ensures (forall scheme, rest :: !HasScheme(uri, scheme, rest)) ==> Reported(uri) == "http://127.0.0.1/" + uri
  {
    forall scheme, rest | HasScheme(uri, scheme, rest) ensures Reported(uri) == uri {
      var n := |scheme|;
      assert uri[n..n + 3] == "://" && uri[n] == ':';
      assert forall i :: 0 <= i < n ==> uri[i] == scheme[i];
      AlphaRunIs(uri, n);
    }
    if LooksLikeTransport(uri) {
      var n := AlphaRun(uri);
      AlphaRunLetters(uri);
      assert uri == uri[..n] + "://" + uri[n + 3..];
      assert HasScheme(uri, uri[..n], uri[n + 3..]);
    }
  }

  /** A saved playlist restored and saved again does not change any more; the first time it keeps its addresses
      exactly if all look like transport ones. */
  lemma ReportedTwice(uris: seq<string>)
    ensures ReportedAll(ReportedAll(uris)) == ReportedAll(uris)
    ensures ReportedAll(uris) == uris <==> forall k :: 0 <= k < |uris| ==> LooksLikeTransport(uris[k])
  {
    forall k | 0 <= k < |uris| ensures Reported(Reported(uris[k])) == Reported(uris[k]) {
      ReportedLooksLikeTransport(uris[k]);
    }
    forall k | 0 <= k < |uris| ensures Reported(uris[k]) == uris[k] <==> LooksLikeTransport(uris[k]) {
      if !LooksLikeTransport(uris[k]) { assert |Reported(uris[k])| > |uris[k]|; }
    }
    if ReportedAll(uris) == uris {
      forall k | 0 <= k < |uris| ensures LooksLikeTransport(uris[k]) { assert ReportedAll(uris)[k] == uris[k]; }
    }
  }

  /** The longest prefix without a song that MPD refuses. */
  ghost function AcceptedPrefix(uris: seq<string>, accepts: string -> bool): (r: seq<string>)
    ensures |r| <= |uris| && r == uris[..|r|]
    ensures r == uris <==> forall k :: 0 <= k < |uris| ==> accepts(uris[k])
  {
    if uris == [] || !accepts(uris[0]) then []
    else
      assert forall k :: 1 <= k < |uris| ==> uris[1..][k - 1] == uris[k];
      [uris[0]] + AcceptedPrefix(uris[1..], accepts)
  }

  lemma {:induction false} FirstRefused(uris: seq<string>, accepts: string -> bool, i: nat)
    requires i < |uris| && !accepts(uris[i]) && forall k :: 0 <= k < i ==> accepts(uris[k])
    ensures AcceptedPrefix(uris, accepts) == uris[..i]
  {
    if i > 0 {
      FirstRefused(uris[1..], accepts, i - 1);
      assert uris[..i] == [uris[0]] + uris[1..][..i - 1];
    }
  }

  // ----- The client -----

  class MpdCli {
    // MPD
    var queue: Queue
    var version: int
    var next: int
    const accepts: string -> bool
    const addtagid: bool
    // the client
    var last: Last

    ghost predicate Valid()
      reads this
    {
      0 < next && Distinct(queue, next) && Remembers(queue, version, last)
    }

    constructor (queue: Queue, version: int, next: int, accepts: string -> bool, addtagid: bool)
      requires 0 < next && Distinct(queue, next) && 0 <= version
      ensures Valid() && this.queue == queue && this.accepts == accepts && last == Last(-1, -1, -1)
    {
      this.queue, this.version, this.next, this.accepts, this.addtagid := queue, version, next, accepts, addtagid;
      last := Last(-1, -1, -1);
    }

    method Changed()
      modifies this`version
      ensures version > old(version)
    {
      var v: int := *;
      version := if v > version then v else version + 1;
    }

    /** Another client changes the queue. */
    method ForeignChange(q: Queue, n: int)
      requires Valid() && n >= next && Distinct(q, n)
      modifies this
      ensures Valid() && queue == q && last == old(last) && version > old(version)
    {
      queue, next := q, n;
      Changed();
    }

    /** MPD's addid, at the end for -1. It refuses an address, or takes the song away again when there is no such
        position. */
    method AddId(uri: string, pos: int) returns (id: int)
      requires Valid()
      modifies this`queue, this`version, this`next
      ensures version >= old(version) && next >= old(next)
      ensures !accepts(uri) ==> version == old(version) && next == old(next)
      ensures !(accepts(uri) && HasPos(old(queue), pos)) ==> id == -1 && queue == old(queue)
      ensures accepts(uri) && HasPos(old(queue), pos) ==>
        id == old(next) && next == old(next) + 1 && version > old(version) &&
        queue == Inserted(old(queue), if pos == -1 then |old(queue)| else pos, Song(id, uri, ""))
    {
      if !accepts(uri) { return -1; }
      id := next;
      next := next + 1;
      Changed();
      if !HasPos(queue, pos) { return -1; }
      queue := Inserted(queue, if pos == -1 then |queue| else pos, Song(id, uri, ""));
    }

    method Insert(uri: string, pos: int) returns (id: int)
      requires Valid()
      modifies this
      ensures Valid() && version >= old(version)
      ensures !accepts(uri) ==> version == old(version) && next == old(next)
      ensures !(accepts(uri) && HasPos(old(queue), pos)) ==>
        id == -1 && queue == old(queue) && last == old(last).(id := -1)
      ensures accepts(uri) && HasPos(old(queue), pos) ==>
        id == old(next) && next == old(next) + 1 && last == Last(id, pos, version) &&
        queue == Inserted(old(queue), if pos == -1 then |old(queue)| else pos, Song(id, uri, ""))
    {
      var added := AddId(uri, pos);
      if added != -1 {
        InsertedStaysDistinct(old(queue), old(next), if pos == -1 then |old(queue)| else pos, Song(added, uri, ""));
      }
      last := last.(id := added);
      if added == -1 { return -1; }
      if addtagid { Changed(); }
      last := last.(pos := pos);
      last := last.(qvers := version);
      return added;
    }

    /** The song is inserted at the place of the scan, whatever happened to the queue since the last insertion;
        the exception is an id of -1 after a failed one. */
    method InsertAfterId(uri: string, id: int) returns (newid: int)
      requires Valid()
      modifies this
      ensures Valid()
      ensures !accepts(uri) ==> newid == -1 && queue == old(queue)
      ensures accepts(uri) ==>
        newid == old(next) && old(ChosenPos(queue, version, last, id)) <= |old(queue)| &&
        queue == Inserted(old(queue), old(ChosenPos(queue, version, last, id)), Song(newid, uri, ""))
      ensures accepts(uri) && id != -1 ==>
        queue == Inserted(old(queue), ScanPos(old(queue), id), Song(newid, uri, ""))
    {
      ShortcutIsScan(queue, next, version, last, id);
      if id == 0 {
        newid := Insert(uri, 0);
        return;
      }
      var newpos := 0;
      if last.id == id && last.pos >= 0 && last.qvers == version {
        newpos := last.pos + 1;
      } else {
        newpos := Scan(id);
      }
      newid := Insert(uri, newpos);
    }

    method Scan(id: int) returns (newpos: int)
      requires id != 0
      ensures newpos == ScanPos(queue, id)
    {
      newpos := 0;
      var pos := 0;
      while pos < |queue|
        invariant 0 <= pos <= |queue| && newpos == 0 && (pos == |queue| ==> queue == [])
        invariant forall k :: 0 <= k < pos ==> queue[k].id != id
      {
        if queue[pos].id == id || pos == |queue| - 1 {
          if queue[pos].id == id { AfterIdFirst(queue, id, pos); }
          newpos := pos + 1;
          break;
        }
        pos := pos + 1;
      }
    }

    method ClearQueue()
      requires Valid()
      modifies this
      ensures Valid() && queue == [] && next == old(next) && last == old(last)
    {
      queue := [];
      Changed();
    }

    method DeleteId(id: int) returns (ok: bool)
      requires Valid()
      modifies this
      ensures Valid() && last == old(last)
      ensures ok <==> exists k :: 0 <= k < |old(queue)| && old(queue)[k].id == id
      ensures (forall k :: 0 <= k < |old(queue)| ==> old(queue)[k].id != id) ==> queue == old(queue)
      ensures forall k :: 0 <= k < |old(queue)| && old(queue)[k].id == id ==>
        queue == old(queue)[..k] + old(queue)[k + 1..]
    {
      var k := AfterId(queue, id);
      if k == 0 || queue[k - 1].id != id { return false; }
      AfterIdFirst(queue, id, k - 1);
      RemovedStaysDistinct(queue, next, k - 1);
      queue := queue[..k - 1] + queue[k..];
      Changed();
      return true;
    }

    /** getQueueData. */
    method GetQueueData() returns (songs: Queue)
      requires Valid()
      ensures |songs| == |queue| && Uris(songs) == ReportedAll(Uris(queue))
      ensures forall k :: 0 <= k < |queue| ==> songs[k] == queue[k].(uri := Reported(queue[k].uri))
    {
      songs := [];
      var pos := 0;
      while pos < |queue|
        invariant 0 <= pos <= |queue| && |songs| == pos
        invariant forall k :: 0 <= k < pos ==> songs[k] == queue[k].(uri := Reported(queue[k].uri))
      {
        songs := songs + [queue[pos].(uri := Reported(queue[pos].uri))];
        pos := pos + 1;
      }
    }

    /** The queue part of restoreState. */
    method RestoreState(st: Queue) returns (ok: bool)
      requires Valid()
      modifies this
      ensures Valid()
      ensures Uris(queue) == AcceptedPrefix(Uris(st), accepts)
      ensures ok <==> Uris(queue) == Uris(st)
    {
      ClearQueue();
      var i := 0;
      ok := true;
      while i < |st|
        invariant 0 <= i <= |st| && Valid() && Uris(queue) == Uris(st)[..i]
        invariant forall k :: 0 <= k < i ==> accepts(Uris(st)[k])
      {
        assert |queue| == |Uris(queue)| == i;
        if !accepts(st[i].uri) { FirstRefused(Uris(st), accepts, i); }
        ghost var before := queue;
        var id := Insert(st[i].uri, i);
        if id < 0 { return false; }
        assert Uris(queue) == Uris(before) + [st[i].uri];
        i := i + 1;
      }
    }
  }

  /** An insertion at the start, one that MPD refuses, and one after the unknown id -1: where the scan would
      append, the song lands at 1. */
  method UnknownIdAfterFailure(m: MpdCli, good: string, bad: string) returns (before: Queue)
    requires m.Valid() && m.queue != [] && m.accepts(good) && !m.accepts(bad)
    modifies m
    ensures |before| >= 2 && ScanPos(before, -1) == |before|
    ensures |m.queue| == |before| + 1 && m.queue == Inserted(before, 1, m.queue[1])
  {
    hide AfterId;
    var a := m.Insert(good, 0);
    var b := m.Insert(bad, 0);
    before := m.queue;
    assert ScanPos(before, -1) == |before|;
    assert ChosenPos(before, m.version, m.last, -1) == 1;
    var c := m.InsertAfterId(good, -1);
    assert m.queue[1].id == c;
  }
}
