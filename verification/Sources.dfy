/** Switching between the sources of the renderer: OHProduct::iSetSourceIndex of src/ohproduct.cxx over the
    playlist, radio, receiver and sender services, which share the MPD client of the device. */
module Sources {
  import opened Strings
  import opened M = MpdCli

  datatype Source = Source(tp: string, name: string)
  datatype Code = Success | InvalidParam | InternalError

  /** What a source is for. */
  datatype Role = Playlist | Receiver | Radio | PlaylistSender | RadioSender | Script

  const PLAYLIST := Source("Playlist", "Playlist")
  const RECEIVER := Source("Receiver", "Songcast")
  const RADIO := Source("Radio", "Radio")
  const PLAYLIST_SENDER := Source("Playlist", "PL-to-Songcast")
  const RADIO_SENDER := Source("Radio", "RD-to-Songcast")

  /** The branch that leaves a source, chosen by type and name. */
  function Leaving(s: Source): Role {
    if s == PLAYLIST then Playlist
    else if s == RECEIVER then Receiver
    else if s == RADIO then Radio
    else if s == PLAYLIST_SENDER then PlaylistSender
    else if s == RADIO_SENDER then RadioSender
    else Script
  }

  /** The branch that enters a source, chosen by its name alone. */
  function Entering(s: Source): Role {
    if s.name == PLAYLIST.name then Playlist
    else if s.name == RECEIVER.name then Receiver
    else if s.name == RADIO.name then Radio
    else if s.name == PLAYLIST_SENDER.name then PlaylistSender
    else if s.name == RADIO_SENDER.name then RadioSender
    else Script
  }

  /** The services that are active. */
  datatype Flags = Flags(pl: bool, rcv: bool, rd: bool)

  function ActiveIn(r: Role): Flags {
    Flags(r.Playlist? || r.PlaylistSender?, r.Receiver?, r.Radio? || r.RadioSender?)
  }

  function Without(f: Flags, g: Flags): Flags { Flags(f.pl && !g.pl, f.rcv && !g.rcv, f.rd && !g.rd) }

  function With(f: Flags, g: Flags): Flags { Flags(f.pl || g.pl, f.rcv || g.rcv, f.rd || g.rd) }

  function Switched(f: Flags, from: Source, to: Source): Flags {
    With(Without(f, ActiveIn(Leaving(from))), ActiveIn(Entering(to)))
  }

  /** A script does not carry the name of a built-in source. */
  predicate WellNamed(s: Source) {
    s in {PLAYLIST, RECEIVER, RADIO, PLAYLIST_SENDER, RADIO_SENDER} ||
    s.name !in {PLAYLIST.name, RECEIVER.name, RADIO.name, PLAYLIST_SENDER.name, RADIO_SENDER.name}
  }

  lemma BranchesAgree(s: Source)
    ensures Leaving(s) == Entering(s) <==> WellNamed(s)
    ensures Leaving(s) == Entering(s) || Leaving(s).Script?
  {
    assert s.name == "Playlist" && s != PLAYLIST ==> s.tp != "Playlist";
    assert s.name == "Songcast" && s != RECEIVER ==> s.tp != "Receiver";
    assert s.name == "Radio" && s != RADIO ==> s.tp != "Radio";
    assert s.name == "PL-to-Songcast" && s != PLAYLIST_SENDER ==> s.tp != "Playlist";
    assert s.name == "RD-to-Songcast" && s != RADIO_SENDER ==> s.tp != "Radio";
    assert !WellNamed(s) ==> Leaving(s).Script? && !Entering(s).Script?;
  }

  /** A switch leaves active exactly the services of the new source, unless the old one is a script with the
      name of a built-in source whose service the new one does not use. */
  lemma SwitchIsRight(from: Source, to: Source)
    ensures Switched(ActiveIn(Entering(from)), from, to) == ActiveIn(Entering(to)) <==>
            WellNamed(from) || With(ActiveIn(Entering(from)), ActiveIn(Entering(to))) == ActiveIn(Entering(to))
  {
    BranchesAgree(from);
    hide Leaving, Entering, WellNamed, ActiveIn, With, Without;
    RolesSwitch(Leaving(from), Entering(from), Entering(to));
  }

  /** The sources by their names, and the services that each of them uses. */
  lemma ServicesByName(s: Source)
    ensures ActiveIn(Entering(s)) ==
      Flags(s.name == "Playlist" || s.name == "PL-to-Songcast", s.name == "Songcast", s.name == "Radio" || s.name == "RD-to-Songcast")
    ensures BuiltIn(true) == [Source("Playlist", "Playlist"), Source("Radio", "Radio"), Source("Receiver", "Songcast"),
                              Source("Playlist", "PL-to-Songcast"), Source("Radio", "RD-to-Songcast")]
    ensures BuiltIn(false) == BuiltIn(true)[..3]
  {
    var names := ["Playlist", "Songcast", "Radio", "PL-to-Songcast", "RD-to-Songcast"];
    assert |names[0]| == 8 && |names[1]| == 8 && |names[2]| == 5 && names[0][0] != names[1][0] && names[3][0] != names[4][0];
  }

  lemma RolesSwitch(leaving: Role, entered: Role, to: Role)
    requires leaving == entered || leaving.Script?
    ensures With(Without(ActiveIn(entered), ActiveIn(leaving)), ActiveIn(to)) == ActiveIn(to) <==>
            leaving == entered || With(ActiveIn(entered), ActiveIn(to)) == ActiveIn(to)
  {
    match entered
    case Playlist =>
    case Receiver =>
    case Radio =>
    case PlaylistSender =>
    case RadioSender =>
    case Script =>
  }

  ghost predicate AllWellNamed(sources: seq<Source>) { forall k :: 0 <= k < |sources| ==> WellNamed(sources[k]) }

  /** The receiver has to play through ALSA for the senders to be offered. */
  function BuiltIn(senders: bool): seq<Source> {
    [PLAYLIST, RADIO, RECEIVER] + if senders then [PLAYLIST_SENDER, RADIO_SENDER] else []
  }

  lemma WellNamedAt(sources: seq<Source>, k: nat)
    requires AllWellNamed(sources) && k < |sources|
    ensures WellNamed(sources[k])
  {
  }

  /** The way the start of a sender ends. */
  datatype Start = Started | NoOutput | BadOutput | NoMpd | NoReceiver

  class Device {
    const sources: seq<Source>
    const main: MpdCli
    const auxAccepts: string -> bool
    var sourceIndex: nat
    // the services
    var plActive: bool
    var plSaved: Queue
    var rcvActive: bool
    var rcvCmd: bool
    var rdActive: bool
    var rdId: nat
    var rdSaved: Option<Queue>
    // the device's client and the sender
    var mpdcli: MpdCli
    var aux: MpdCli?
    var origmpd: MpdCli?
    var isender: bool
    var ssender: bool

    ghost predicate Valid()
      reads this, main, aux
    {
      Wired() && 3 <= |sources| && sources[..3] == [PLAYLIST, RADIO, RECEIVER] && sourceIndex < |sources| &&
      Uris(plSaved) == ReportedAll(Uris(plSaved)) && (forall k :: 0 <= k < |plSaved| ==> plSaved[k].id > 0) &&
      (Leaving(sources[sourceIndex]) in {Playlist, Receiver, Radio} ==> SenderIdle()) &&
      (rcvCmd ==> Leaving(sources[sourceIndex]) !in {Playlist, Radio})
    }

    /** The client in use is the sender's while an internal sender runs, else the main one. */
    ghost predicate Wired()
      reads this, main, aux
    {
      main.Valid() && (aux != null ==> aux.Valid() && aux != main) &&
      (if origmpd == null then mpdcli == main && aux == null else origmpd == main && mpdcli == aux) &&
      (isender <==> aux != null)
    }

    predicate SenderIdle()
      reads this
    {
      mpdcli == main && aux == null && origmpd == null && !isender && !ssender
    }

    function Active(): Flags
      reads this
    {
      Flags(plActive, rcvActive, rdActive)
    }

    /** The playlist that control points see. */
    ghost function Shown(): seq<string>
      reads this, mpdcli
    {
      ReportedAll(Uris(if plActive then mpdcli.queue else plSaved))
    }

    constructor (main: MpdCli, scripts: seq<Source>, senders: bool, auxAccepts: string -> bool)
      requires main.Valid()
      ensures sources == BuiltIn(senders) + scripts && sourceIndex == 0 && this.main == main && this.auxAccepts == auxAccepts
      ensures Valid() && SenderIdle() && Active() == Flags(true, false, false) && !rcvCmd && rdId == 0 && rdSaved.None?
      ensures Shown() == ReportedAll(Uris(main.queue))
      ensures AllWellNamed(scripts) ==> Right()
    {
      this.main, this.auxAccepts := main, auxAccepts;
      sources := BuiltIn(senders) + scripts;
      sourceIndex := 0;
      plActive, plSaved, rcvActive, rcvCmd, rdActive, rdId, rdSaved := true, [], false, false, false, 0, None;
      mpdcli, aux, origmpd, isender, ssender := main, null, null, false, false;
      new;
      assert sources[..3] == [PLAYLIST, RADIO, RECEIVER];
    }

    // ----- The services -----

    method PlSetActive(onoff: bool)
      requires Wired()
      modifies this`plActive, this`plSaved, mpdcli
      ensures Wired() && plActive == onoff
      ensures onoff ==> plSaved == old(plSaved) && Uris(mpdcli.queue) == AcceptedPrefix(Uris(plSaved), mpdcli.accepts)
      ensures !onoff ==> Uris(plSaved) == ReportedAll(old(Uris(mpdcli.queue)))
      ensures !onoff ==> forall k :: 0 <= k < |plSaved| ==> plSaved[k].id > 0
    {
      if onoff {
        mpdcli.ClearQueue();
        var ok := mpdcli.RestoreState(plSaved);
        plActive := true;
      } else {
        plSaved := mpdcli.GetQueueData();
        plActive := false;
      }
    }

    method RdSetActive(onoff: bool)
      requires Wired()
      modifies this`rdActive, this`rdSaved, mpdcli
      ensures Wired() && rdActive == onoff
      ensures onoff ==> rdSaved == old(rdSaved)
      ensures onoff && rdId != 0 && rdSaved.Some? ==>
        Uris(mpdcli.queue) == AcceptedPrefix(Uris(rdSaved.value), mpdcli.accepts)
      ensures onoff && !(rdId != 0 && rdSaved.Some?) ==> mpdcli.queue == old(mpdcli.queue)
      ensures !onoff ==> mpdcli.queue == [] && rdSaved.Some? && Uris(rdSaved.value) == ReportedAll(old(Uris(mpdcli.queue)))
    {
      rdActive := onoff;
      if rdActive {
        if rdId != 0 && rdSaved.Some? {
          var ok := mpdcli.RestoreState(rdSaved.value);
        }
      } else {
        var songs := mpdcli.GetQueueData();
        rdSaved := Some(songs);
        mpdcli.ClearQueue();
      }
    }

    method RcvSetActive(onoff: bool)
      modifies this`rcvActive, this`rcvCmd
      ensures rcvActive == onoff && rcvCmd == (onoff && old(rcvCmd))
    {
      rcvActive := onoff;
      if !rcvActive { rcvCmd := false; }
    }

    // ----- The sender -----

    method Clear()
      requires main.Valid() && (origmpd == null ==> mpdcli == main) && (origmpd != null ==> origmpd == main)
      modifies this`mpdcli, this`aux, this`origmpd, this`isender, this`ssender, this`rcvCmd
      ensures Wired() && SenderIdle() && !rcvCmd
    {
      if origmpd != null {
        mpdcli := origmpd;
        origmpd := null;
      }
      rcvCmd := false;
      aux, isender, ssender := null, false, false;
    }

    /** An internal source gets its own MPD, with a copy of the queue; how says what the processes it starts do. A
        running internal sender is used again. */
    method SenderStart(script: string, how: Start) returns (ok: bool)
      requires Wired()
      modifies this`mpdcli, this`aux, this`origmpd, this`isender, this`ssender, this`rcvCmd, aux
      ensures main.Valid() && (aux != null ==> aux.Valid())
      ensures ok <==> how.Started? || (how.NoMpd? && script != "") || (script == "" && old(isender) && !how.NoReceiver?)
      ensures rcvCmd == ok && (!ok ==> Wired() && SenderIdle())
      ensures ok && script == "" ==> isender && aux != null && mpdcli == aux && origmpd == old(mpdcli)
      ensures ok && script == "" ==>
        Uris(aux.queue) == AcceptedPrefix(ReportedAll(old(Uris(mpdcli.queue))), aux.accepts)
      ensures ok && script == "" ==> if old(isender) then aux == old(aux) else fresh(aux)
      ensures ok && script != "" ==> ssender && origmpd == null && mpdcli == old(mpdcli) && aux == old(aux) && isender == old(isender)
      ensures old(SenderIdle()) ==> Wired() && (aux == null || fresh(aux))
    {
      hide Uris, ReportedAll, AcceptedPrefix, Distinct, Remembers;
      var sndcmd := false;
      if script == "" && !isender {
        isender, sndcmd := true, true;
      } else if script != "" {
        ssender, sndcmd := true, true;
      }
      if sndcmd && (how.NoOutput? || how.BadOutput?) {
        Clear();
        return false;
      }
      if sndcmd && script == "" {
        aux := new MpdCli([], 0, 1, auxAccepts, true);
        if how.NoMpd? {
          Clear();
          return false;
        }
      }
      if how.NoReceiver? {
        Clear();
        return false;
      }
      rcvCmd := true;
      if script == "" {
        CopyMpd(mpdcli, aux);
        origmpd := mpdcli;
        mpdcli := aux;
      } else {
        origmpd := null;
      }
      return true;
    }

    method CopyMpd(src: MpdCli, dest: MpdCli)
      requires src.Valid() && dest.Valid()
      modifies dest
      ensures src.Valid() && dest.Valid()
      ensures Uris(dest.queue) == AcceptedPrefix(ReportedAll(old(Uris(src.queue))), dest.accepts)
    {
      var st := src.GetQueueData();
      var ok := dest.RestoreState(st);
    }

    method SenderStop() returns (ok: bool)
      requires Wired()
      modifies this`mpdcli, this`aux, this`origmpd, this`isender, this`ssender, this`rcvCmd, main
      ensures Wired() && SenderIdle() && !rcvCmd && ok
      ensures if old(aux) == null then main.queue == old(main.queue)
              else Uris(main.queue) == AcceptedPrefix(ReportedAll(old(Uris(aux.queue))), main.accepts)
    {
      rcvCmd := false;
      if origmpd != null && aux != null {
        CopyMpd(aux, origmpd);
        mpdcli := origmpd;
        origmpd := null;
      }
      ssender, isender, aux := false, false, null;
      return true;
    }

    // ----- The product -----

    method Leave() returns (ok: bool)
      requires Valid()
      modifies this, main, aux
      ensures Wired() && SenderIdle() && ok && sourceIndex == old(sourceIndex) && rdId == old(rdId)
      ensures Active() == Without(old(Active()), ActiveIn(Leaving(sources[sourceIndex])))
      ensures !rcvCmd
      ensures Uris(plSaved) == ReportedAll(Uris(plSaved)) && forall k :: 0 <= k < |plSaved| ==> plSaved[k].id > 0
      ensures ActiveIn(Leaving(sources[sourceIndex])).pl && old(plActive) ==> ReportedAll(Uris(plSaved)) == old(Shown())
      ensures !ActiveIn(Leaving(sources[sourceIndex])).pl ==> plSaved == old(plSaved)
    {
      hide Distinct, Remembers, AcceptedPrefix, Reported;
      ok := true;
      ReportedTwice(Uris(mpdcli.queue));
      match Leaving(sources[sourceIndex])
      case Playlist => PlSetActive(false);
      case Receiver => RcvSetActive(false);
      case Radio => RdSetActive(false);
      case PlaylistSender =>
        PlSetActive(false);
        ok := SenderStop();
      case RadioSender =>
        RdSetActive(false);
        ok := SenderStop();
      case Script => ok := SenderStop();
    }

    method Enter(sindex: nat, how: Start) returns (ok: bool)
      requires Wired() && SenderIdle() && sindex < |sources| && !rcvCmd
      modifies this, main
      ensures Wired() && (aux == null || fresh(aux))
      ensures sourceIndex == old(sourceIndex) && plSaved == old(plSaved) && rdId == old(rdId)
      ensures Active() == With(old(Active()), ActiveIn(Entering(sources[sindex])))
      ensures Entering(sources[sindex]) in {Playlist, Receiver, Radio} ==> SenderIdle() && !rcvCmd && ok
      ensures Entering(sources[sindex]) !in {Playlist, Receiver, Radio} ==> ok == Starts(sources[sindex], how)
      ensures ActiveIn(Entering(sources[sindex])).pl ==>
        Uris(mpdcli.queue) == AcceptedPrefix(Uris(plSaved), mpdcli.accepts)
    {
      hide Distinct, Remembers, AcceptedPrefix, ReportedAll, Uris;
      ok := true;
      match Entering(sources[sindex])
      case Playlist => PlSetActive(true);
      case Receiver => RcvSetActive(true);
      case Radio => RdSetActive(true);
      case PlaylistSender =>
        ok := SenderStart("", how);
        PlSetActive(true);
      case RadioSender =>
        ok := SenderStart("", how);
        RdSetActive(true);
      case Script => ok := SenderStart("scripts/" + sources[sindex].tp + "-" + sources[sindex].name, how);
    }

    /** iSetSourceIndex. The playlist survives every switch, up to the first song that MPD does not take back. */
    method SetSourceIndex(sindex: int, how: Start) returns (r: Code)
      requires Valid()
      modifies this, main, aux
      ensures Valid() && (aux == null || aux == old(aux) || fresh(aux)) && rdId == old(rdId)
      ensures r == InvalidParam <==> !(0 <= sindex < |sources|)
      ensures r == InvalidParam || sindex == old(sourceIndex) ==>
        unchanged(this) && unchanged(main) && (aux != null ==> unchanged(aux))
      ensures 0 <= sindex < |sources| ==> sourceIndex == sindex
      ensures r != InvalidParam && sindex != old(sourceIndex) ==>
        Active() == Switched(old(Active()), sources[old(sourceIndex)], sources[sindex]) &&
        (r == Success <==> Entering(sources[sindex]) in {Playlist, Receiver, Radio} || Starts(sources[sindex], how))
      ensures r != InvalidParam && sindex != old(sourceIndex) &&
              old(plActive) == ActiveIn(Leaving(sources[old(sourceIndex)])).pl ==>
        Shown() == if plActive then AcceptedPrefix(old(Shown()), mpdcli.accepts) else old(Shown())
      ensures !ActiveIn(Leaving(sources[old(sourceIndex)])).pl ==> plSaved == old(plSaved)
    {
      if sindex < 0 || sindex >= |sources| { return InvalidParam; }
      if sourceIndex == sindex { return Success; }
      var ok := Leave();
      if !ok { return InternalError; }
      ok := Enter(sindex, how);
      sourceIndex := sindex;
      ReportedTwice(Uris(plSaved));
      PrefixStaysReported(Uris(plSaved), mpdcli.accepts);
      return if ok then Success else InternalError;
    }

    /** Everything is as the current source wants it. */
    ghost predicate Right()
      reads this, main, aux
    {
      Valid() && AllWellNamed(sources) && Active() == ActiveIn(Entering(sources[sourceIndex]))
    }

    method SrcNameToIndex(name: string) returns (i: int)
      ensures i == -1 ==> forall k :: 0 <= k < |sources| ==> sources[k].name != name
      ensures i != -1 ==> 0 <= i < |sources| && sources[i].name == name
      ensures i != -1 ==> forall k :: 0 <= k < i ==> sources[k].name != name
    {
      i := 0;
      while i < |sources|
        invariant 0 <= i <= |sources| && forall k :: 0 <= k < i ==> sources[k].name != name
      {
        if sources[i].name == name { return i; }
        i := i + 1;
      }
      i := -1;
    }

    /** A control point selects a source by its index. */
    method Select(sindex: int, how: Start) returns (r: Code)
      requires Right()
      modifies this, main, aux
      ensures Right() && (aux == null || aux == old(aux) || fresh(aux)) && rdId == old(rdId)
      ensures 0 <= sindex < |sources| ==> sourceIndex == sindex && r != InvalidParam
      ensures var name := sources[sourceIndex].name;
        (plActive <==> name == "Playlist" || name == "PL-to-Songcast") && (rcvActive <==> name == "Songcast") &&
        (rdActive <==> name == "Radio" || name == "RD-to-Songcast")
      ensures Shown() ==
        if plActive && sourceIndex != old(sourceIndex) then AcceptedPrefix(old(Shown()), mpdcli.accepts) else old(Shown())
      ensures !old(plActive) ==> plSaved == old(plSaved)
      ensures !(0 <= sindex < |sources|) || sindex == old(sourceIndex) ==>
        unchanged(this) && unchanged(main) && (aux != null ==> unchanged(aux))
    {
      hide Leaving, Entering, WellNamed, ReportedAll, AcceptedPrefix, Uris, AllWellNamed;
      assert WellNamed(sources[sourceIndex]) by { WellNamedAt(sources, sourceIndex); }
      BranchesAgree(sources[sourceIndex]);
      if 0 <= sindex < |sources| { SwitchIsRight(sources[sourceIndex], sources[sindex]); }
      r := SetSourceIndex(sindex, how);
      ServicesByName(sources[sourceIndex]);
    }

    method SelectByName(name: string, how: Start) returns (r: Code)
      requires Right() && name in {PLAYLIST.name, RECEIVER.name, RADIO.name}
      modifies this, main, aux
      ensures Right() && (aux == null || aux == old(aux) || fresh(aux)) && rdId == old(rdId) && SenderIdle()
      ensures Leaving(sources[sourceIndex]) == Entering(sources[sourceIndex]) ==
        (if name == PLAYLIST.name then Playlist else if name == RADIO.name then Radio else Receiver)
      ensures Shown() ==
        if plActive && sourceIndex != old(sourceIndex) then AcceptedPrefix(old(Shown()), mpdcli.accepts) else old(Shown())
      ensures !old(plActive) ==> plSaved == old(plSaved)
    {
      assert sources[0] == PLAYLIST && sources[1] == RADIO && sources[2] == RECEIVER by {
        assert sources[..3][0] == PLAYLIST && sources[..3][1] == RADIO && sources[..3][2] == RECEIVER;
      }
      var i := SrcNameToIndex(name);
      r := Select(i, how);
      assert WellNamed(sources[sourceIndex]);
      BranchesAgree(sources[sourceIndex]);
    }

    // ----- What control points do to the playlist -----

    /** idFromOldId: an id of the saved playlist, found again by its address in the restored one. */
    method IdFromOldId(oldid: int) returns (id: int)
      requires Valid()
      ensures id == IdAt(mpdcli.queue, OldIndex(plSaved, oldid, ReportedAll(Uris(mpdcli.queue))))
    {
      hide AfterId, Distinct, Remembers, First, Leaving, AcceptedPrefix, Reported;
      var uri := "";
      var k := 0;
      while k < |plSaved|
        invariant 0 <= k <= |plSaved| && uri == ""
        invariant forall j :: 0 <= j < k ==> plSaved[j].id != oldid
      {
        if plSaved[k].id == oldid {
          uri := plSaved[k].uri;
          break;
        }
        k := k + 1;
      }
      ghost var shown := ReportedAll(Uris(mpdcli.queue));
      if k < |plSaved| {
        SavedAt(plSaved, oldid, k);
        SavedHasAddress(plSaved, k);
      } else {
        NotSaved(plSaved, oldid);
      }
      if uri == "" { return -1; }
      var songs := mpdcli.GetQueueData();
      var n := 0;
      while n < |songs|
        invariant 0 <= n <= |songs| && forall j :: 0 <= j < n ==> shown[j] != uri
      {
        if songs[n].uri == uri {
          FirstAt(shown, uri, n);
          return songs[n].id;
        }
        n := n + 1;
      }
      FirstAt(shown, uri, n);
      id := -1;
    }

    method InsertHere(id: int, uri: string) returns (newid: int)
      requires Right() && plActive
      modifies main, aux
      ensures Right()
      ensures Shown() ==
        if mpdcli.accepts(uri)
        then WithAt(old(Shown()), old(ChosenPos(mpdcli.queue, mpdcli.version, mpdcli.last, id)), Reported(uri))
        else old(Shown())
      ensures id != -1 ==> old(ChosenPos(mpdcli.queue, mpdcli.version, mpdcli.last, id)) == ScanPos(old(mpdcli.queue), id)
      ensures newid == -1 <==> !mpdcli.accepts(uri)
      ensures newid != -1 ==>
        HasIdAt(mpdcli.queue, old(ChosenPos(mpdcli.queue, mpdcli.version, mpdcli.last, id)), newid)
    {
      hide Leaving, Entering, AllWellNamed, ReportedAll, Uris, Reported, ScanPos;
      ghost var before, pos := mpdcli.queue, ChosenPos(mpdcli.queue, mpdcli.version, mpdcli.last, id);
      ShortcutIsScan(before, mpdcli.next, mpdcli.version, mpdcli.last, id);
      newid := mpdcli.InsertAfterId(uri, id);
      if mpdcli.accepts(uri) { ShownInserted(before, pos, Song(newid, uri, "")); }
    }

    /** Back to the playlist, with an id for the song that had the given one when it was saved. */
    method BackToPlaylist(oldid: int) returns (id: int)
      requires Right() && !plActive
      modifies this, main, aux
      ensures Right() && plActive && SenderIdle() && Shown() == AcceptedPrefix(old(Shown()), mpdcli.accepts)
      ensures var k := OldIndex(old(plSaved), oldid, Shown());
        if k < |Shown()| then id > 0 && id == mpdcli.queue[k].id && ScanPos(mpdcli.queue, id) == k + 1 else id == -1
    {
      hide Leaving, Entering, AllWellNamed, ReportedAll, Uris, Reported, ScanPos, Distinct, Remembers, AcceptedPrefix, OldIndex;
      var r := SelectByName(PLAYLIST.name, Started);
      id := IdFromOldId(oldid);
      IdAtIs(mpdcli.queue, mpdcli.next, OldIndex(plSaved, oldid, Shown()));
    }

    /** While the playlist is not active, its source is selected and the id mapped first. */
    method PlaylistInsert(afterid: int, uri: string) returns (newid: int)
      requires Right()
      modifies this, main, aux
      ensures Right() && plActive
      ensures old(plActive) ==>
        Shown() ==
          if mpdcli.accepts(uri)
          then WithAt(old(Shown()), old(ChosenPos(mpdcli.queue, mpdcli.version, mpdcli.last, afterid)), Reported(uri))
          else old(Shown())
      ensures old(plActive) && afterid != -1 ==>
        old(ChosenPos(mpdcli.queue, mpdcli.version, mpdcli.last, afterid)) == ScanPos(old(mpdcli.queue), afterid)
      ensures !old(plActive) ==>
        var back := AcceptedPrefix(old(Shown()), mpdcli.accepts);
        var k := OldIndex(old(plSaved), afterid, back);
        Shown() == (if k < |back| && mpdcli.accepts(uri) then WithAt(back, k + 1, Reported(uri)) else back) &&
        (newid == -1 <==> !(k < |back| && mpdcli.accepts(uri))) && (newid != -1 ==> HasIdAt(mpdcli.queue, k + 1, newid))
      ensures old(plActive) ==> (newid == -1 <==> !mpdcli.accepts(uri))
      ensures old(plActive) && newid != -1 ==>
        HasIdAt(mpdcli.queue, old(ChosenPos(mpdcli.queue, mpdcli.version, mpdcli.last, afterid)), newid)
    {
      hide Right, Valid, Shown, ScanPos, AcceptedPrefix, OldIndex, Leaving, Entering, ReportedAll, Reported, Uris, WithAt;
      if plActive {
        newid := InsertHere(afterid, uri);
        return;
      }
      newid := InsertInactive(afterid, uri);
    }

    method InsertInactive(afterid: int, uri: string) returns (newid: int)
      requires Right() && !plActive
      modifies this, main, aux
      ensures Right() && plActive
      ensures
        var back := AcceptedPrefix(old(Shown()), mpdcli.accepts);
        var k := OldIndex(old(plSaved), afterid, back);
        Shown() == (if k < |back| && mpdcli.accepts(uri) then WithAt(back, k + 1, Reported(uri)) else back) &&
        (newid == -1 <==> !(k < |back| && mpdcli.accepts(uri))) && (newid != -1 ==> HasIdAt(mpdcli.queue, k + 1, newid))
    {
      hide Right, Valid, Shown, ScanPos, AcceptedPrefix, OldIndex, WithAt, Leaving, Entering, ReportedAll, Reported, Uris;
      var id := BackToPlaylist(afterid);
      if id < 0 { return -1; }
      newid := InsertBehind(OldIndex(old(plSaved), afterid, Shown()), id, uri);
    }

    method InsertBehind(ghost k: nat, id: int, uri: string) returns (newid: int)
      requires Right() && plActive && k < |Shown()| && id != -1 && ScanPos(mpdcli.queue, id) == k + 1
      modifies main, aux
      ensures Right()
      ensures Shown() == if mpdcli.accepts(uri) then WithAt(old(Shown()), k + 1, Reported(uri)) else old(Shown())
      ensures newid == -1 <==> !mpdcli.accepts(uri)
      ensures newid != -1 ==> HasIdAt(mpdcli.queue, k + 1, newid)
    {
      hide Leaving, Entering, AllWellNamed, ReportedAll, Uris, Reported, ScanPos, Distinct, Remembers, WithAt, ChosenPos;
      newid := InsertHere(id, uri);
    }

    /** deleteId, with the same mapping of the id. */
    method PlaylistDelete(id: int) returns (done: bool)
      requires Right()
      modifies this, main, aux
      ensures Right() && plActive
      ensures old(plActive) ==>
        var k := IdIndex(old(mpdcli.queue), id);
        Shown() == LessAt(old(Shown()), k) && (done <==> k < |old(mpdcli.queue)|)
      ensures !old(plActive) ==>
        var back := AcceptedPrefix(old(Shown()), mpdcli.accepts);
        var k := OldIndex(old(plSaved), id, back);
        Shown() == LessAt(back, k) && (done <==> k < |back|)
    {
      hide Leaving, Entering, AllWellNamed, ReportedAll, Uris, Reported, ScanPos, Distinct, Remembers, AcceptedPrefix, OldIndex, LessAt;
      if plActive {
        done := DeleteHere(id);
        return;
      }
      var newid := BackToPlaylist(id);
      if newid < 0 {
        NothingLess(Shown(), |Shown()|);
        return false;
      }
      IdIndexIs(mpdcli.queue, mpdcli.next, OldIndex(old(plSaved), id, Shown()));
      done := DeleteHere(newid);
    }

    method DeleteHere(id: int) returns (done: bool)
      requires Right() && plActive
      modifies main, aux
      ensures Right() && Shown() == LessAt(old(Shown()), IdIndex(old(mpdcli.queue), id))
      ensures done <==> IdIndex(old(mpdcli.queue), id) < |old(mpdcli.queue)|
    {
      hide Leaving, Entering, AllWellNamed, Reported, ScanPos, AfterId, ReportedAll, Uris, IdIndex, Distinct, Remembers, ActiveIn;
      ghost var before, k := mpdcli.queue, IdIndex(mpdcli.queue, id);
      IdIndexFinds(before, id);
      done := mpdcli.DeleteId(id);
      assert mpdcli.queue == LessAt(before, k);
      hide LessAt;
      ShownLess(before, k);
    }

    method DeleteAll()
      requires Right()
      modifies this, main, aux
      ensures Right() && plActive && Shown() == []
    {
      hide Leaving, Entering, AllWellNamed, Reported, ScanPos, Distinct, Remembers, AcceptedPrefix;
      if !plActive {
        var r := SelectByName(PLAYLIST.name, Started);
      }
      mpdcli.ClearQueue();
    }

    // ----- What they do to the other services -----

    /** A channel replaces the queue, but never the playlist. */
    method RadioPlay(channel: nat, audiourl: string) returns (ok: bool)
      requires Right()
      modifies this, main, aux
      ensures Right() && rdActive && !plActive && Shown() == old(Shown())
      ensures ok <==> Uris(mpdcli.queue) == [audiourl]
    {
      hide Leaving, Entering, AllWellNamed, ReportedAll, Reported, ScanPos, Distinct, Remembers, AcceptedPrefix;
      if !rdActive {
        var r := SelectByName(RADIO.name, Started);
      }
      rdId := channel;
      mpdcli.ClearQueue();
      var id := mpdcli.Insert(audiourl, 0);
      ok := id >= 0;
    }

    method ReceiverPlay(starts: bool) returns (ok: bool)
      requires Right()
      modifies this, main, aux
      ensures Right() && rcvActive && !plActive && Shown() == old(Shown()) && rcvCmd == ok
    {
      hide Leaving, Entering, AllWellNamed, ReportedAll, Reported, ScanPos, Distinct, Remembers, AcceptedPrefix;
      if !rcvActive {
        var r := SelectByName(RECEIVER.name, Started);
      }
      WellNamedAt(sources, sourceIndex);
      BranchesAgree(sources[sourceIndex]);
      ok := starts;
      rcvCmd := ok;
    }

    /** Stopping the receiver goes back to the playlist. */
    method ReceiverStop()
      requires Right()
      modifies this, main, aux
      ensures Right() && plActive && !rcvCmd && SenderIdle()
      ensures Shown() == if sourceIndex == old(sourceIndex) then old(Shown()) else AcceptedPrefix(old(Shown()), mpdcli.accepts)
    {
      hide Leaving, Entering, AllWellNamed, ReportedAll, Reported, ScanPos, Distinct, Remembers, AcceptedPrefix;
      rcvCmd := false;
      var r := SelectByName(PLAYLIST.name, Started);
    }
  }

  function WithAt(l: seq<string>, k: nat, u: string): seq<string>
    requires k <= |l|
  {
    l[..k] + [u] + l[k..]
  }

  /** Without the element at k, if there is one. */
  function LessAt<T>(l: seq<T>, k: nat): seq<T> { if k < |l| then l[..k] + l[k + 1..] else l }

  lemma NothingLess<T>(l: seq<T>, k: nat)
    requires k >= |l|
    ensures LessAt(l, k) == l
  {
  }

  function IdIndex(q: Queue, id: int): nat {
    var p := AfterId(q, id);
    if p > 0 && q[p - 1].id == id then p - 1 else |q|
  }

  lemma IdIndexFinds(q: Queue, id: int)
    ensures var k := IdIndex(q, id);
      if k < |q| then q[k].id == id else forall j :: 0 <= j < |q| ==> q[j].id != id
  {
  }

  lemma IdIndexIs(q: Queue, next: int, k: nat)
    requires Distinct(q, next) && k < |q|
    ensures IdIndex(q, q[k].id) == k
  {
    AfterIdFirst(q, q[k].id, k);
  }

  lemma ShownLess(q: Queue, k: nat)
    ensures ReportedAll(Uris(LessAt(q, k))) == LessAt(ReportedAll(Uris(q)), k)
  {
  }

  function First(l: seq<string>, u: string): (k: nat)
    ensures k <= |l| && (k < |l| ==> l[k] == u) && u !in l[..k]
  {
    if l == [] || l[0] == u then 0
    else
      var k := 1 + First(l[1..], u);
      assert l[..k] == [l[0]] + l[1..][..k - 1];
      k
  }

  lemma {:induction false} FirstAt(l: seq<string>, u: string, k: nat)
    requires k <= |l| && (k < |l| ==> l[k] == u) && forall j :: 0 <= j < k ==> l[j] != u
    ensures First(l, u) == k
  {
    if k > 0 { FirstAt(l[1..], u, k - 1); }
  }

  /** Where the song with an id of the saved playlist is found again: at the first song with its address. */
  function OldIndex(saved: Queue, oldid: int, shown: seq<string>): (k: nat)
    ensures k <= |shown|
  {
    var p := AfterId(saved, oldid);
    if p > 0 && saved[p - 1].id == oldid then First(shown, saved[p - 1].uri) else |shown|
  }

  function IdAt(q: Queue, k: nat): int { if k < |q| then q[k].id else -1 }

  lemma IdAtIs(q: Queue, next: int, k: nat)
    requires Distinct(q, next)
    ensures k < |q| ==> IdAt(q, k) > 0 && ScanPos(q, IdAt(q, k)) == k + 1
  {
    if k < |q| { AfterIdFirst(q, q[k].id, k); }
  }

  lemma SavedAt(saved: Queue, oldid: int, k: nat)
    requires k < |saved| && saved[k].id == oldid && forall j :: 0 <= j < k ==> saved[j].id != oldid
    ensures AfterId(saved, oldid) == k + 1
  {
    AfterIdFirst(saved, oldid, k);
  }

  lemma SavedHasAddress(saved: Queue, k: nat)
    requires k < |saved| && Uris(saved) == ReportedAll(Uris(saved))
    ensures saved[k].uri != ""
  {
    assert Uris(saved)[k] == Reported(saved[k].uri);
  }

  lemma NotSaved(saved: Queue, oldid: int)
    requires forall j :: 0 <= j < |saved| ==> saved[j].id != oldid
    ensures var p := AfterId(saved, oldid); !(p > 0 && saved[p - 1].id == oldid)
  {
  }

  ghost predicate HasIdAt(q: Queue, p: int, id: int) { 0 <= p < |q| && q[p].id == id }

  lemma ShownInserted(q: Queue, p: nat, s: Song)
    requires p <= |q|
    ensures ReportedAll(Uris(Inserted(q, p, s))) == WithAt(ReportedAll(Uris(q)), p, Reported(s.uri))
  {
  }

  /** A song of the saved playlist is found again where it was unless an earlier one has its address; an id of 0,
      the start of the playlist, never is. */
  lemma FoundAgain(saved: Queue, k: nat)
    requires k < |saved| && (forall i, j :: 0 <= i < j < |saved| ==> saved[i].id != saved[j].id)
    requires forall i :: 0 <= i < |saved| ==> saved[i].id > 0
    ensures OldIndex(saved, saved[k].id, Uris(saved)) == k <==> saved[k].uri !in Uris(saved)[..k]
    ensures OldIndex(saved, 0, Uris(saved)) == |saved|
  {
    SavedAt(saved, saved[k].id, k);
    if saved[k].uri !in Uris(saved)[..k] {
      forall j | 0 <= j < k ensures Uris(saved)[j] != saved[k].uri { assert Uris(saved)[..k][j] == Uris(saved)[j]; }
      FirstAt(Uris(saved), saved[k].uri, k);
    }
    NotSaved(saved, 0);
  }

  predicate Starts(s: Source, how: Start) { how.Started? || (how.NoMpd? && Entering(s).Script?) }

  lemma PrefixStaysReported(uris: seq<string>, accepts: string -> bool)
    requires ReportedAll(uris) == uris
    ensures ReportedAll(AcceptedPrefix(uris, accepts)) == AcceptedPrefix(uris, accepts)
  {
    var r := AcceptedPrefix(uris, accepts);
    forall k | 0 <= k < |r| ensures Reported(r[k]) == r[k] { assert ReportedAll(uris)[k] == uris[k]; }
  }

  /** A script with the name of the radio: once selected and left again, it leaves the radio service active beside
      the playlist. */
  method ScriptKeepsRadioOn(main: MpdCli, accepts: string -> bool) returns (d: Device)
    requires main.Valid()
    modifies main
    ensures fresh(d) && d.Valid() && d.sources == BuiltIn(false) + [Source("Analog", "Radio")]
    ensures d.sourceIndex == 0 && d.plActive && d.rdActive && !d.Right()
  {
    var script := Source("Analog", "Radio");
    d := new Device(main, [script], false, accepts);
    assert d.sources[3] == script && d.sources[0] == PLAYLIST;
    var r := d.SetSourceIndex(3, Started);
    r := d.SetSourceIndex(0, Started);
  }
}
