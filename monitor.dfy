/**
 * The polling loop (`monitor_loop`, monitor.py:127-134): edge-triggered updates of the
 * monitor state and the cinema-mode switch fired once per change of the playback flag.
 * The infinite loop and its five-second sleep become a run over a finite list of poll results.
 */
module Monitor {
  import opened Wrappers
  import opened Sessions
  import opened PlaybackDetection
  import opened Cinema

  /** The module-level `state` record: the stored flag and the title seen when it last changed. */
  datatype MonitorState = MonitorState(playing: bool, lastTitle: Option<string>)

  /**
   * One iteration on a poll result: the new state and the values passed to
   * `trigger_cinema_mode` (none, or the new flag).
   */
  function Step(st: MonitorState, detected: (bool, Option<string>)): (MonitorState, seq<bool>)
  {
    if detected.0 == st.playing then (st, [])
    else (MonitorState(detected.0, detected.1), [detected.0])
  }

  /** Iterations over a list of poll results: the final state and every notification, in order. */
  function Run(st: MonitorState, ds: seq<(bool, Option<string>)>): (MonitorState, seq<bool>)
  {
    if ds == [] then (st, [])
    else
      var before := Run(st, ds[..|ds| - 1]);
      var after := Step(before.0, ds[|ds| - 1]);
      (after.0, before.1 + after.1)
  }

  /** The flag seen before position `k`. */
  function Previous(start: bool, ds: seq<(bool, Option<string>)>, k: int): bool
    requires 0 <= k <= |ds|
  {
    if k == 0 then start else ds[k - 1].0
  }

  /** Position `k` changes the flag. */
  predicate IsEdge(start: bool, ds: seq<(bool, Option<string>)>, k: int)
    requires 0 <= k < |ds|
  {
    ds[k].0 != Previous(start, ds, k)
  }

  /** The positions whose flag differs from the one before it (from `start` at the first position). */
  function EdgePositions(start: bool, ds: seq<(bool, Option<string>)>): set<int>
  {
    set k | 0 <= k < |ds| && IsEdge(start, ds, k)
  }

  /** After a non-empty run the stored flag is the last poll's flag, whatever happened before. */
  lemma RunEndsOnLastPoll(st: MonitorState, ds: seq<(bool, Option<string>)>)
    ensures Run(st, ds).0.playing == Previous(st.playing, ds, |ds|)
  {
  }

  lemma EdgePositionsSnoc(start: bool, ds: seq<(bool, Option<string>)>)
    requires ds != []
    ensures var n := |ds| - 1;
            EdgePositions(start, ds) ==
            EdgePositions(start, ds[..n]) + (if IsEdge(start, ds, n) then {n} else {})
  {
    var n := |ds| - 1;
    var init := ds[..n];
    forall k | 0 <= k < n
      ensures IsEdge(start, init, k) == IsEdge(start, ds, k)
    {
    }
  }

  /** Over any list of poll results, the number of notifications is the number of flag edges. */
  lemma {:induction false} NotificationsCountEdges(st: MonitorState, ds: seq<(bool, Option<string>)>)
    ensures |Run(st, ds).1| == |EdgePositions(st.playing, ds)|
    decreases |ds|
  {
    if ds == [] {
      assert EdgePositions(st.playing, ds) == {};
    } else {
      var n := |ds| - 1;
      var init := ds[..n];
      NotificationsCountEdges(st, init);
      EdgePositionsSnoc(st.playing, ds);
      RunEndsOnLastPoll(st, init);
      assert Previous(st.playing, init, n) == Previous(st.playing, ds, n);
      assert n !in EdgePositions(st.playing, init);
    }
  }

  /**
   * The final state of a run: unchanged when no poll changed the flag; otherwise the flag and
   * title of the last poll at which the flag changed.
   */
  lemma {:induction false} RunFinalState(st: MonitorState, ds: seq<(bool, Option<string>)>) returns (last: int)
    ensures EdgePositions(st.playing, ds) == {} ==> Run(st, ds).0 == st
    ensures EdgePositions(st.playing, ds) != {} ==>
              last in EdgePositions(st.playing, ds) &&
              (forall k :: k in EdgePositions(st.playing, ds) ==> k <= last) &&
              Run(st, ds).0 == MonitorState(ds[last].0, ds[last].1)
    decreases |ds|
  {
    last := 0;
    if ds != [] {
      var n := |ds| - 1;
      var init := ds[..n];
      last := RunFinalState(st, init);
      EdgePositionsSnoc(st.playing, ds);
      RunEndsOnLastPoll(st, init);
      assert Previous(st.playing, init, n) == Previous(st.playing, ds, n);
      if IsEdge(st.playing, ds, n) {
        last := n;
      } else if EdgePositions(st.playing, init) != {} {
        assert init[last] == ds[last];
      }
    }
  }

  /**
   * Notifications alternate: the first one differs from the starting flag, each differs from the
   * one before it, and the last one is the final flag. No notification means an unchanged state.
   */
  lemma {:induction false} NotificationsAlternate(st: MonitorState, ds: seq<(bool, Option<string>)>)
    ensures var (final, notified) := Run(st, ds);
            (notified == [] ==> final == st) &&
            (notified != [] ==> notified[0] != st.playing && notified[|notified| - 1] == final.playing) &&
            (forall k :: 0 < k < |notified| ==> notified[k] != notified[k - 1])
    decreases |ds|
  {
    if ds != [] {
      NotificationsAlternate(st, ds[..|ds| - 1]);
    }
  }

  /** The detection result of each poll. */
  function Detections(clientName: string, polls: seq<Option<seq<Session>>>): seq<(bool, Option<string>)>
  {
    seq(|polls|, k requires 0 <= k < |polls| => Detection(clientName, polls[k]))
  }

  /** Every URL requested by a run, notification by notification. */
  function CallsFor(notified: seq<bool>, lightsHost: string, fanHost: string): seq<string>
  {
    if notified == [] then []
    else CallsFor(notified[..|notified| - 1], lightsHost, fanHost) + CinemaModeUrls(notified[|notified| - 1], lightsHost, fanHost)
  }

  lemma DetectionsPrefixStep(clientName: string, polls: seq<Option<seq<Session>>>, k: int)
    requires 0 <= k < |polls|
    ensures var d := Detections(clientName, polls[..k + 1]);
            d[..k] == Detections(clientName, polls[..k]) && d[k] == Detection(clientName, polls[k]) && |d| == k + 1
  {
  }

  lemma CallsForStep(notified: seq<bool>, n: seq<bool>, lightsHost: string, fanHost: string)
    requires |n| <= 1
    ensures CallsFor(notified + n, lightsHost, fanHost) ==
            CallsFor(notified, lightsHost, fanHost) + (if n == [] then [] else CinemaModeUrls(n[0], lightsHost, fanHost))
  {
    if n == [] {
      assert notified + n == notified;
    } else {
      assert (notified + n)[..|notified|] == notified;
    }
  }

  /** The monitor: the two fields the loop reads and writes. */
  class Monitor {
    var playing: bool
    var lastTitle: Option<string>

    function State(): MonitorState
      reads this
    {
      MonitorState(playing, lastTitle)
    }

    /** The state at process start: not playing, no title. */
    constructor ()
      ensures State() == MonitorState(false, None)
    {
      playing := false;
      lastTitle := None;
    }

    /**
     * One iteration of the loop: detect, and only when the flag changed store the new flag and
     * title and switch cinema mode once, returning the URLs that switch requests.
     */
    method Poll(clientName: string, sessions: Option<seq<Session>>, lightsHost: string, fanHost: string)
      returns (notified: seq<bool>, calls: seq<string>)
      modifies this
      ensures (State(), notified) == Step(old(State()), Detection(clientName, sessions))
      ensures Detection(clientName, sessions).0 == old(playing) ==> unchanged(this) && notified == [] && calls == []
      ensures Detection(clientName, sessions).0 != old(playing) ==>
                notified == [playing] && calls == CinemaModeUrls(playing, lightsHost, fanHost)
    {
      var nowPlaying, title := AnyVideoPlaying(clientName, sessions);
      notified, calls := [], [];
      if nowPlaying != playing {
        playing := nowPlaying;
        lastTitle := title;
        notified := [nowPlaying];
        calls := CinemaModeUrls(nowPlaying, lightsHost, fanHost);
      }
    }

    /** The loop over a finite list of poll results. */
    method PollEach(clientName: string, polls: seq<Option<seq<Session>>>, lightsHost: string, fanHost: string)
      returns (notified: seq<bool>, calls: seq<string>)
      modifies this
      ensures (State(), notified) == Run(old(State()), Detections(clientName, polls))
      ensures calls == CallsFor(notified, lightsHost, fanHost)
    {
      notified, calls := [], [];
      for k := 0 to |polls|
        invariant (State(), notified) == Run(old(State()), Detections(clientName, polls[..k]))
        invariant calls == CallsFor(notified, lightsHost, fanHost)
      {
        DetectionsPrefixStep(clientName, polls, k);
        var n, c := Poll(clientName, polls[k], lightsHost, fanHost);
        CallsForStep(notified, n, lightsHost, fanHost);
        notified, calls := notified + n, calls + c;
      }
      assert polls[..|polls|] == polls;
    }
  }
}
