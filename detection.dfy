/**
 * Playback detection (`any_video_playing`, monitor.py:44-61) and the boolean status query
 * built on it (`api_is_playing`, monitor.py:80-83).
 */
module PlaybackDetection {
  import opened Wrappers
  import opened Sessions

  /** Only movies and episodes count as video. */
  predicate IsVideo(s: Session)
  {
    s.kind == "movie" || s.kind == "episode"
  }

  /** A player counts as playback: video session, state "playing" ignoring case, and it passes the filter. */
  predicate Detects(clientName: string, x: Slot)
  {
    IsVideo(x.session) && Lower(x.player.state) == "playing" && PassesClientFilter(clientName, x.player)
  }

  /** The title of the session of the first slot that counts as playback, if any. */
  function FirstDetected(clientName: string, xs: seq<Slot>): Option<string>
  {
    if xs == [] then None
    else if Detects(clientName, xs[0]) then Some(xs[0].session.title)
    else FirstDetected(clientName, xs[1..])
  }

  /** What a poll reports: whether something plays and the title found; a failed query reports nothing. */
  function Detection(clientName: string, sessions: Option<seq<Session>>): (bool, Option<string>)
  {
    match sessions
    case None => (false, None)
    case Some(ss) =>
      var t := FirstDetected(clientName, Slots(ss));
      (t.Some?, t)
  }

  /** The first match of a concatenation is the first part's, unless that part has none. */
  lemma {:induction false} FirstDetectedAppend(clientName: string, a: seq<Slot>, b: seq<Slot>)
    ensures FirstDetected(clientName, a + b) ==
            if FirstDetected(clientName, a).Some? then FirstDetected(clientName, a) else FirstDetected(clientName, b)
    decreases |a|
  {
    if a == [] {
      assert a + b == b;
    } else {
      assert (a + b)[0] == a[0];
      assert (a + b)[1..] == a[1..] + b;
      FirstDetectedAppend(clientName, a[1..], b);
    }
  }

  /**
   * First-match: nothing is found exactly when no slot counts; when a title is found it is the
   * title of the session of a slot that counts, and no earlier slot counts.
   */
  lemma {:induction false} FirstDetectedIsFirst(clientName: string, xs: seq<Slot>) returns (k: int)
    ensures FirstDetected(clientName, xs).None? <==> forall m :: 0 <= m < |xs| ==> !Detects(clientName, xs[m])
    ensures FirstDetected(clientName, xs).Some? ==>
              0 <= k < |xs| && Detects(clientName, xs[k]) &&
              FirstDetected(clientName, xs) == Some(xs[k].session.title) &&
              forall m :: 0 <= m < k ==> !Detects(clientName, xs[m])
    decreases |xs|
  {
    k := 0;
    if xs != [] && !Detects(clientName, xs[0]) {
      var k' := FirstDetectedIsFirst(clientName, xs[1..]);
      k := k' + 1;
      forall m | 0 < m < |xs|
        ensures xs[m] == xs[1..][m - 1]
      {
      }
    }
  }

  /**
   * A poll over a list of sessions reports playback exactly when some player of some video
   * session is playing and passes the client filter; a negative report carries no title and a
   * positive one carries the title of the first such session in session-then-player order.
   */
  lemma DetectionSpec(clientName: string, ss: seq<Session>)
    ensures Detection(clientName, Some(ss)).0 <==>
            exists i, j :: 0 <= i < |ss| && 0 <= j < |ss[i].players| && Detects(clientName, Slot(ss[i], ss[i].players[j]))
    ensures !Detection(clientName, Some(ss)).0 ==> Detection(clientName, Some(ss)).1 == None
    ensures Detection(clientName, Some(ss)).0 ==>
            exists k :: 0 <= k < |Slots(ss)| && Detects(clientName, Slots(ss)[k]) &&
                        Detection(clientName, Some(ss)).1 == Some(Slots(ss)[k].session.title) &&
                        forall m :: 0 <= m < k ==> !Detects(clientName, Slots(ss)[m])
  {
    var xs := Slots(ss);
    var k := FirstDetectedIsFirst(clientName, xs);
    if exists i, j :: 0 <= i < |ss| && 0 <= j < |ss[i].players| && Detects(clientName, Slot(ss[i], ss[i].players[j])) {
      var i, j :| 0 <= i < |ss| && 0 <= j < |ss[i].players| && Detects(clientName, Slot(ss[i], ss[i].players[j]));
      SlotsMembership(ss, Slot(ss[i], ss[i].players[j]));
    }
    if FirstDetected(clientName, xs).Some? {
      SlotsMembership(ss, xs[k]);
    }
  }

  /** A session that is not a movie or an episode never contributes a match. */
  lemma NonVideoNeverDetected(clientName: string, s: Session)
    requires !IsVideo(s)
    ensures FirstDetected(clientName, SessionSlots(s)) == None
  {
    var k := FirstDetectedIsFirst(clientName, SessionSlots(s));
  }

  /** A match at player `j` of session `i`, with none before it, is the first match of the whole list. */
  lemma MatchIsFirst(clientName: string, ss: seq<Session>, i: int, j: int)
    requires 0 <= i < |ss| && 0 <= j < |ss[i].players|
    requires FirstDetected(clientName, Slots(ss[..i])) == None
    requires FirstDetected(clientName, SessionSlots(ss[i])[..j]) == None
    requires Detects(clientName, Slot(ss[i], ss[i].players[j]))
    ensures FirstDetected(clientName, Slots(ss)) == Some(ss[i].title)
  {
    var x := Slot(ss[i], ss[i].players[j]);
    var a, whole, rest := Slots(ss[..i]), SessionSlots(ss[i]), Slots(ss[i + 1..]);
    var pre, post := whole[..j], whole[j + 1..];
    SlotsSplit(ss, i);
    FirstDetectedAppend(clientName, a + whole, rest);
    FirstDetectedAppend(clientName, a, whole);
    assert whole == pre + ([x] + post);
    FirstDetectedAppend(clientName, pre, [x] + post);
  }

  /** `any_video_playing`: the nested scan with an early return on the first match. */
  method AnyVideoPlaying(clientName: string, sessions: Option<seq<Session>>) returns (playing: bool, title: Option<string>)
    ensures (playing, title) == Detection(clientName, sessions)
    ensures sessions.None? ==> !playing && title == None
    ensures playing <==> title.Some?
  {
    if sessions.None? {
      return false, None;
    }
    var ss := sessions.value;
    for i := 0 to |ss|
      invariant FirstDetected(clientName, Slots(ss[..i])) == None
    {
      var s := ss[i];
      if IsVideo(s) {
        for j := 0 to |s.players|
          invariant FirstDetected(clientName, SessionSlots(s)[..j]) == None
        {
          var p := s.players[j];
          SessionSlotsPrefix(s, j);
          FirstDetectedAppend(clientName, SessionSlots(s)[..j], [Slot(s, p)]);
          var st := Lower(p.state);
          if st == "playing" {
            var t := s.title;
            if clientName != "" {
              var name := PlayerName(p);
              if Lower(name) != Lower(clientName) {
                continue;
              }
            }
            MatchIsFirst(clientName, ss, i, j);
            return true, Some(t);
          }
        }
        assert SessionSlots(s)[..|s.players|] == SessionSlots(s);
      } else {
        NonVideoNeverDetected(clientName, s);
      }
      SlotsSnoc(ss[..i], s);
      assert ss[..i + 1] == ss[..i] + [s];
      FirstDetectedAppend(clientName, Slots(ss[..i]), SessionSlots(s));
    }
    assert ss[..|ss|] == ss;
    return false, None;
  }

  /** `api_is_playing`: a live detection, reporting only the boolean. */
  method IsPlaying(clientName: string, sessions: Option<seq<Session>>) returns (playing: bool)
    ensures playing <==> sessions.Some? && exists x :: x in Slots(sessions.value) && Detects(clientName, x)
  {
    var title;
    playing, title := AnyVideoPlaying(clientName, sessions);
    if sessions.Some? {
      var k := FirstDetectedIsFirst(clientName, Slots(sessions.value));
    }
  }

  /** One playing episode with no client filter is reported as playing, with its title. */
  lemma PlayingEpisodeIsDetected(s: Session)
    requires s.kind == "episode" && |s.players| == 1 && Lower(s.players[0].state) == "playing"
    ensures Detection("", Some([s])) == (true, Some(s.title))
  {
    assert [s][..0] == [];
    assert Slots([s]) == [Slot(s, s.players[0])];
  }

  /** The same session is not reported when a client filter is set that the player's name does not match. */
  lemma FilteredOutEpisodeIsNotDetected(clientName: string, s: Session)
    requires |s.players| == 1 && clientName != "" && Lower(PlayerName(s.players[0])) != Lower(clientName)
    ensures Detection(clientName, Some([s])) == (false, None)
  {
    assert [s][..0] == [];
    assert Slots([s]) == [Slot(s, s.players[0])];
    var x := Slot(s, s.players[0]);
    assert !Detects(clientName, x);
    assert [x][1..] == [];
    assert FirstDetected(clientName, [x]) == FirstDetected(clientName, []);
  }
}
