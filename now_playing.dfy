/**
 * The now-playing projection (`api_now_playing`, monitor.py:85-116): one item per listed player,
 * across sessions of every kind, in session-then-player order.
 */
module NowPlaying {
  import opened Wrappers
  import opened Sessions
  import opened Selection
  import PlaybackDetection

  /** One entry of the `items` list. `player` is the player's own title, without the product fallback. */
  datatype Item = Item(kind: string, title: string, series: string, season: string, player: string, state: string)

  /** The response body: `playing` and `items`. */
  datatype NowPlayingResponse = NowPlayingResponse(playing: bool, items: seq<Item>)

  /** The lower-cased states that are listed. */
  predicate IsActive(state: string)
  {
    state == "playing" || state == "paused" || state == "buffering"
  }

  /** A player is listed when its lower-cased state is active and it passes the client filter. */
  predicate Listed(clientName: string, x: Slot)
  {
    IsActive(Lower(x.player.state)) && PassesClientFilter(clientName, x.player)
  }

  function ListedBy(clientName: string): Slot -> bool
  {
    x => Listed(clientName, x)
  }

  /** The record emitted for one player of one session. */
  function ItemOf(x: Slot): Item
  {
    Item(x.session.kind, x.session.title, x.session.series, x.session.season, x.player.title, Lower(x.player.state))
  }

  /** The items of a flattened session list. */
  function ListedItems(clientName: string, xs: seq<Slot>): seq<Item>
  {
    Select(xs, ListedBy(clientName), ItemOf)
  }

  /** The response for a query result; a failed query lists nothing. */
  function NowPlaying(clientName: string, sessions: Option<seq<Session>>): NowPlayingResponse
  {
    match sessions
    case None => NowPlayingResponse(false, [])
    case Some(ss) =>
      var items := ListedItems(clientName, Slots(ss));
      NowPlayingResponse(items != [], items)
  }

  /** `api_now_playing`: nested loops that append one item per listed player. */
  method ApiNowPlaying(clientName: string, sessions: Option<seq<Session>>) returns (r: NowPlayingResponse)
    ensures r == NowPlaying(clientName, sessions)
    ensures sessions.None? ==> r == NowPlayingResponse(false, [])
    ensures r.playing <==> r.items != []
  {
    if sessions.None? {
      return NowPlayingResponse(false, []);
    }
    var ss := sessions.value;
    var items: seq<Item> := [];
    for i := 0 to |ss|
      invariant items == ListedItems(clientName, Slots(ss[..i]))
    {
      var s := ss[i];
      SelectPlayerStart(ss, i, ListedBy(clientName), ItemOf);
      for j := 0 to |s.players|
        invariant items == ListedItems(clientName, Slots(ss[..i]) + SessionSlots(s)[..j])
      {
        var p := s.players[j];
        SelectPlayerStep(Slots(ss[..i]), s, j, ListedBy(clientName), ItemOf);
        var st := Lower(p.state);
        if !IsActive(st) {
          continue;
        }
        if clientName != "" {
          var name := PlayerName(p);
          if Lower(name) != Lower(clientName) {
            continue;
          }
        }
        var item := Item(s.kind, s.title, s.series, s.season, p.title, st);
        items := items + [item];
      }
      SlotsPrefixStep(ss, i);
    }
    assert ss[..|ss|] == ss;
    r := NowPlayingResponse(items != [], items);
  }

  /**
   * The items are exactly the records of the players, of sessions of any kind, whose state is
   * playing, paused or buffering and that pass the client filter; every item carries an active state.
   */
  lemma NowPlayingSpec(clientName: string, ss: seq<Session>, item: Item)
    ensures item in NowPlaying(clientName, Some(ss)).items <==>
            exists i, j :: 0 <= i < |ss| && 0 <= j < |ss[i].players| &&
                           Listed(clientName, Slot(ss[i], ss[i].players[j])) && item == ItemOf(Slot(ss[i], ss[i].players[j]))
    ensures item in NowPlaying(clientName, Some(ss)).items ==> IsActive(item.state)
  {
    var xs := Slots(ss);
    SelectMembership(xs, ListedBy(clientName), ItemOf, item);
    if item in NowPlaying(clientName, Some(ss)).items {
      var m :| 0 <= m < |xs| && ListedBy(clientName)(xs[m]) && item == ItemOf(xs[m]);
      SlotsMembership(ss, xs[m]);
    }
    if exists i, j :: 0 <= i < |ss| && 0 <= j < |ss[i].players| &&
                      Listed(clientName, Slot(ss[i], ss[i].players[j])) && item == ItemOf(Slot(ss[i], ss[i].players[j])) {
      var i, j :| 0 <= i < |ss| && 0 <= j < |ss[i].players| &&
                  Listed(clientName, Slot(ss[i], ss[i].players[j])) && item == ItemOf(Slot(ss[i], ss[i].players[j]));
      SlotsMembership(ss, Slot(ss[i], ss[i].players[j]));
      var m :| 0 <= m < |xs| && xs[m] == Slot(ss[i], ss[i].players[j]);
      assert ListedBy(clientName)(xs[m]);
    }
  }

  /** `playing` holds exactly when some player of some session is listed. */
  lemma NowPlayingFlag(clientName: string, ss: seq<Session>)
    ensures NowPlaying(clientName, Some(ss)).playing <==>
            exists i, j :: 0 <= i < |ss| && 0 <= j < |ss[i].players| && Listed(clientName, Slot(ss[i], ss[i].players[j]))
  {
    var items := NowPlaying(clientName, Some(ss)).items;
    if exists i, j :: 0 <= i < |ss| && 0 <= j < |ss[i].players| && Listed(clientName, Slot(ss[i], ss[i].players[j])) {
      var i, j :| 0 <= i < |ss| && 0 <= j < |ss[i].players| && Listed(clientName, Slot(ss[i], ss[i].players[j]));
      NowPlayingSpec(clientName, ss, ItemOf(Slot(ss[i], ss[i].players[j])));
    }
    if items != [] {
      NowPlayingSpec(clientName, ss, items[0]);
    }
  }

  /** Whenever the monitor's detection reports playback, the now-playing view lists something. */
  lemma DetectionImpliesNowPlaying(clientName: string, sessions: Option<seq<Session>>)
    ensures PlaybackDetection.Detection(clientName, sessions).0 ==> NowPlaying(clientName, sessions).playing
  {
    if sessions.Some? && PlaybackDetection.Detection(clientName, sessions).0 {
      var ss := sessions.value;
      PlaybackDetection.DetectionSpec(clientName, ss);
      var i, j :| 0 <= i < |ss| && 0 <= j < |ss[i].players| && PlaybackDetection.Detects(clientName, Slot(ss[i], ss[i].players[j]));
      NowPlayingFlag(clientName, ss);
    }
  }
}
