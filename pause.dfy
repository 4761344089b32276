/**
 * Pausing (`pause_all`, monitor.py:63-78) and the motion-triggered pause endpoint behind its
 * shared-secret gate (`api_pause_from_motion`, monitor.py:118-125). Each `p.pause()` of the
 * media-server library is an input: `pauseSucceeds(p)` says whether that call returns normally.
 */
module Pause {
  import opened Wrappers
  import opened Sessions
  import opened Selection

  /** One attempted pause and whether it went through. */
  datatype PauseAttempt = PauseAttempt(player: Player, paused: bool)

  function PassesFilterBy(clientName: string): Slot -> bool
  {
    (x: Slot) => PassesClientFilter(clientName, x.player)
  }

  function PlayerOf(x: Slot): Player
  {
    x.player
  }

  /** The players to pause: all that pass the client filter, whatever their session's kind or their state. */
  function PauseTargets(clientName: string, sessions: Option<seq<Session>>): seq<Player>
  {
    match sessions
    case None => []
    case Some(ss) => Select(Slots(ss), PassesFilterBy(clientName), PlayerOf)
  }

  /** The players of a list of attempts, in order. */
  function Attempted(attempts: seq<PauseAttempt>): seq<Player>
  {
    seq(|attempts|, k requires 0 <= k < |attempts| => attempts[k].player)
  }

  /** The attempt made on the player of a slot. */
  function AttemptOn(pauseSucceeds: Player -> bool): Slot -> PauseAttempt
  {
    (x: Slot) => PauseAttempt(x.player, pauseSucceeds(x.player))
  }

  /** Attempting every selected slot attempts exactly the selected players, each with its own outcome. */
  lemma {:induction false} AttemptsOfSelection(xs: seq<Slot>, keep: Slot -> bool, pauseSucceeds: Player -> bool)
    ensures Attempted(Select(xs, keep, AttemptOn(pauseSucceeds))) == Select(xs, keep, PlayerOf)
    ensures forall a :: a in Select(xs, keep, AttemptOn(pauseSucceeds)) ==> a.paused == pauseSucceeds(a.player)
    decreases |xs|
  {
    if xs != [] {
      var n := |xs| - 1;
      AttemptsOfSelection(xs[..n], keep, pauseSucceeds);
      var before := Select(xs[..n], keep, AttemptOn(pauseSucceeds));
      if keep(xs[n]) {
        var a := AttemptOn(pauseSucceeds)(xs[n]);
        assert Attempted(before + [a]) == Attempted(before) + [a.player];
      }
    }
  }

  /**
   * `pause_all`: every target is attempted in session-then-player order, and a failing pause
   * does not stop the attempts on the players after it.
   */
  method PauseAll(clientName: string, sessions: Option<seq<Session>>, pauseSucceeds: Player -> bool)
    returns (attempts: seq<PauseAttempt>)
    ensures Attempted(attempts) == PauseTargets(clientName, sessions)
    ensures forall k :: 0 <= k < |attempts| ==> attempts[k].paused == pauseSucceeds(attempts[k].player)
    ensures sessions.None? ==> attempts == []
  {
    attempts := [];
    if sessions.None? {
      return;
    }
    var ss := sessions.value;
    for i := 0 to |ss|
      invariant attempts == Select(Slots(ss[..i]), PassesFilterBy(clientName), AttemptOn(pauseSucceeds))
    {
      var s := ss[i];
      SelectPlayerStart(ss, i, PassesFilterBy(clientName), AttemptOn(pauseSucceeds));
      for j := 0 to |s.players|
        invariant attempts == Select(Slots(ss[..i]) + SessionSlots(s)[..j], PassesFilterBy(clientName), AttemptOn(pauseSucceeds))
      {
        var p := s.players[j];
        SelectPlayerStep(Slots(ss[..i]), s, j, PassesFilterBy(clientName), AttemptOn(pauseSucceeds));
        if clientName != "" {
          var name := PlayerName(p);
          if Lower(name) != Lower(clientName) {
            continue;
          }
        }
        var paused := pauseSucceeds(p);
        attempts := attempts + [PauseAttempt(p, paused)];
      }
      SlotsPrefixStep(ss, i);
    }
    assert ss[..|ss|] == ss;
    AttemptsOfSelection(Slots(ss), PassesFilterBy(clientName), pauseSucceeds);
  }

  /**
   * A player is a target exactly when it is a player of some session and passes the client
   * filter; neither the session's kind nor the player's state matters.
   */
  lemma PauseTargetsSpec(clientName: string, ss: seq<Session>, p: Player)
    ensures p in PauseTargets(clientName, Some(ss)) <==>
            PassesClientFilter(clientName, p) &&
            exists i, j :: 0 <= i < |ss| && 0 <= j < |ss[i].players| && p == ss[i].players[j]
  {
    var xs := Slots(ss);
    SelectMembership(xs, PassesFilterBy(clientName), PlayerOf, p);
    if p in PauseTargets(clientName, Some(ss)) {
      var m :| 0 <= m < |xs| && PassesFilterBy(clientName)(xs[m]) && p == PlayerOf(xs[m]);
      SlotsMembership(ss, xs[m]);
    }
    if PassesClientFilter(clientName, p) &&
       exists i, j :: 0 <= i < |ss| && 0 <= j < |ss[i].players| && p == ss[i].players[j] {
      var i, j :| 0 <= i < |ss| && 0 <= j < |ss[i].players| && p == ss[i].players[j];
      SlotsMembership(ss, Slot(ss[i], ss[i].players[j]));
      var m :| 0 <= m < |xs| && xs[m] == Slot(ss[i], ss[i].players[j]);
      assert PassesFilterBy(clientName)(xs[m]) && p == PlayerOf(xs[m]);
    }
  }

  lemma {:induction false} UnfilteredSessionTargets(s: Session, j: int)
    requires 0 <= j <= |s.players|
    ensures Select(SessionSlots(s)[..j], PassesFilterBy(""), PlayerOf) == s.players[..j]
    decreases j
  {
    if j == 0 {
      assert SessionSlots(s)[..0] == [];
    } else {
      UnfilteredSessionTargets(s, j - 1);
      SessionSlotsPrefix(s, j - 1);
      SelectSnoc(SessionSlots(s)[..j - 1], Slot(s, s.players[j - 1]), PassesFilterBy(""), PlayerOf);
      assert s.players[..j] == s.players[..j - 1] + [s.players[j - 1]];
    }
  }

  /** Without a client filter every player of every session is a target, in session-then-player order. */
  lemma {:induction false} UnfilteredPausesEveryPlayer(ss: seq<Session>)
    ensures PauseTargets("", Some(ss)) == AllPlayers(ss)
    decreases |ss|
  {
    if ss != [] {
      var n := |ss| - 1;
      UnfilteredPausesEveryPlayer(ss[..n]);
      SelectAppend(Slots(ss[..n]), SessionSlots(ss[n]), PassesFilterBy(""), PlayerOf);
      UnfilteredSessionTargets(ss[n], |ss[n].players|);
      assert SessionSlots(ss[n])[..|ss[n].players|] == SessionSlots(ss[n]);
      assert ss[n].players[..|ss[n].players|] == ss[n].players;
    }
  }

  /** The secret field of the request body; a missing body or field reads as the empty string. */
  function SubmittedSecret(payloadSecret: Option<string>): string
  {
    payloadSecret.GetOr("")
  }

  /**
   * `api_pause_from_motion`: status 403 with `ok` false and no pause attempted unless a
   * secret is configured and the submitted one equals it exactly; otherwise every target is
   * attempted and the answer is `ok` with status 200, however many pauses went through.
   */
  method PauseFromMotion(configuredSecret: string, payloadSecret: Option<string>, clientName: string,
                         sessions: Option<seq<Session>>, pauseSucceeds: Player -> bool)
    returns (status: int, ok: bool, attempts: seq<PauseAttempt>)
    ensures ok <==> configuredSecret != "" && SubmittedSecret(payloadSecret) == configuredSecret
    ensures status == (if ok then 200 else 403)
    ensures configuredSecret == "" ==> status == 403 && attempts == []
    ensures !ok ==> attempts == []
    ensures ok ==> Attempted(attempts) == PauseTargets(clientName, sessions)
    ensures forall k :: 0 <= k < |attempts| ==> attempts[k].paused == pauseSucceeds(attempts[k].player)
  {
    var secret := SubmittedSecret(payloadSecret);
    if configuredSecret == "" || secret != configuredSecret {
      return 403, false, [];
    }
    attempts := PauseAll(clientName, sessions, pauseSucceeds);
    return 200, true, attempts;
  }
}
