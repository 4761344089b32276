/**
 * The read-only view of the media server's sessions that the monitor works on, the
 * client-name filter shared by detection, now-playing and pausing, and the flattening of
 * all sessions' players into one sequence in session-then-player order.
 */
module Sessions {
  import opened Selection

  /** A client attached to a session: its `title`, its `product` and its playback `state`. */
  datatype Player = Player(title: string, product: string, state: string)

  /**
   * One session: its `TYPE` (`kind`), its `title`, its `grandparentTitle` (`series`),
   * its `parentTitle` (`season`) and its players, in the server's order.
   */
  datatype Session = Session(kind: string, title: string, series: string, season: string, players: seq<Player>)

  /** One player together with the session it belongs to. */
  datatype Slot = Slot(session: Session, player: Player)

  /** ASCII lower-casing of one character. */
  function LowerChar(c: char): char
  {
    if 'A' <= c <= 'Z' then (c as int - 'A' as int + 'a' as int) as char else c
  }

  /** ASCII lower-casing of a string. */
  function Lower(s: string): string
  {
    seq(|s|, i requires 0 <= i < |s| => LowerChar(s[i]))
  }

  /** The name the filter compares: the player's title, or its product when the title is empty. */
  function PlayerName(p: Player): string
  {
    if p.title != "" then p.title else p.product
  }

  /** An empty client name lets every player through; otherwise the names must agree ignoring case. */
  predicate PassesClientFilter(clientName: string, p: Player)
  {
    clientName == "" || Lower(PlayerName(p)) == Lower(clientName)
  }

  /** The players of one session, each paired with the session. */
  function SessionSlots(s: Session): seq<Slot>
  {
    seq(|s.players|, j requires 0 <= j < |s.players| => Slot(s, s.players[j]))
  }

  /** Every player of every session, session by session and, within a session, player by player. */
  function Slots(ss: seq<Session>): seq<Slot>
  {
    if ss == [] then [] else Slots(ss[..|ss| - 1]) + SessionSlots(ss[|ss| - 1])
  }

  /** Every player of every session, without its session. */
  function AllPlayers(ss: seq<Session>): seq<Player>
  {
    if ss == [] then [] else AllPlayers(ss[..|ss| - 1]) + ss[|ss| - 1].players
  }

  lemma SlotsSnoc(ss: seq<Session>, s: Session)
    ensures Slots(ss + [s]) == Slots(ss) + SessionSlots(s)
  {
    assert (ss + [s])[..|ss|] == ss;
  }

  lemma SessionSlotsPrefix(s: Session, j: int)
    requires 0 <= j < |s.players|
    ensures SessionSlots(s)[..j + 1] == SessionSlots(s)[..j] + [Slot(s, s.players[j])]
  {
  }

  /** Advancing the outer loop over sessions: the finished prefix grows by one whole session. */
  lemma SlotsPrefixStep(ss: seq<Session>, i: int)
    requires 0 <= i < |ss|
    ensures Slots(ss[..i]) + SessionSlots(ss[i])[..|ss[i].players|] == Slots(ss[..i + 1])
  {
    assert SessionSlots(ss[i])[..|ss[i].players|] == SessionSlots(ss[i]);
    assert ss[..i + 1] == ss[..i] + [ss[i]];
    SlotsSnoc(ss[..i], ss[i]);
  }

  /** Advancing the inner loop over players: one more slot is appended to what has been visited. */
  lemma SelectPlayerStep<T>(done: seq<Slot>, s: Session, j: int, keep: Slot -> bool, f: Slot -> T)
    requires 0 <= j < |s.players|
    ensures Select(done + SessionSlots(s)[..j + 1], keep, f) ==
            Select(done + SessionSlots(s)[..j], keep, f) +
            (if keep(Slot(s, s.players[j])) then [f(Slot(s, s.players[j]))] else [])
  {
    SessionSlotsPrefix(s, j);
    assert done + SessionSlots(s)[..j + 1] == (done + SessionSlots(s)[..j]) + [Slot(s, s.players[j])];
    SelectSnoc(done + SessionSlots(s)[..j], Slot(s, s.players[j]), keep, f);
  }

  /** Entering the inner loop: nothing of the current session has been visited yet. */
  lemma SelectPlayerStart<T>(ss: seq<Session>, i: int, keep: Slot -> bool, f: Slot -> T)
    requires 0 <= i < |ss|
    ensures Select(Slots(ss[..i]) + SessionSlots(ss[i])[..0], keep, f) == Select(Slots(ss[..i]), keep, f)
  {
    assert Slots(ss[..i]) + SessionSlots(ss[i])[..0] == Slots(ss[..i]);
  }

  /** Flattening a concatenation of session lists concatenates their flattenings. */
  lemma {:induction false} SlotsAppend(a: seq<Session>, b: seq<Session>)
    ensures Slots(a + b) == Slots(a) + Slots(b)
    decreases |b|
  {
    if b == [] {
      assert a + b == a;
    } else {
      var init, last := b[..|b| - 1], b[|b| - 1];
      assert b == init + [last];
      assert a + b == (a + init) + [last];
      SlotsAppend(a, init);
      SlotsSnoc(a + init, last);
      SlotsSnoc(init, last);
    }
  }

  /**
   * The flattening lists all players of the sessions before session `i`, then the players of
   * session `i` in their order, then those of the sessions after it.
   */
  lemma {:induction false} SlotsSplit(ss: seq<Session>, i: int)
    requires 0 <= i < |ss|
    ensures Slots(ss) == Slots(ss[..i]) + SessionSlots(ss[i]) + Slots(ss[i + 1..])
  {
    var front, back := ss[..i] + [ss[i]], ss[i + 1..];
    assert ss == front + back;
    SlotsAppend(front, back);
    SlotsSnoc(ss[..i], ss[i]);
  }

  /** A slot of one session pairs that session with one of its players. */
  lemma SessionSlotsMembership(s: Session, x: Slot)
    ensures x in SessionSlots(s) <==> exists j :: 0 <= j < |s.players| && x == Slot(s, s.players[j])
  {
    if exists j :: 0 <= j < |s.players| && x == Slot(s, s.players[j]) {
      var j :| 0 <= j < |s.players| && x == Slot(s, s.players[j]);
      assert SessionSlots(s)[j] == x;
    }
  }

  /** Every slot of the flattening pairs some session with one of its players. */
  lemma {:induction false} SlotsMembershipSound(ss: seq<Session>, x: Slot)
    requires x in Slots(ss)
    ensures exists i, j :: 0 <= i < |ss| && 0 <= j < |ss[i].players| && x == Slot(ss[i], ss[i].players[j])
    decreases |ss|
  {
    var n := |ss| - 1;
    var init := ss[..n];
    assert Slots(ss) == Slots(init) + SessionSlots(ss[n]);
    if x in Slots(init) {
      SlotsMembershipSound(init, x);
      var i, j :| 0 <= i < |init| && 0 <= j < |init[i].players| && x == Slot(init[i], init[i].players[j]);
      assert init[i] == ss[i];
    } else {
      SessionSlotsMembership(ss[n], x);
      var j :| 0 <= j < |ss[n].players| && x == Slot(ss[n], ss[n].players[j]);
    }
  }

  /** Every pairing of a session with one of its players occurs in the flattening. */
  lemma {:induction false} SlotsMembershipComplete(ss: seq<Session>, i: int, j: int)
    requires 0 <= i < |ss| && 0 <= j < |ss[i].players|
    ensures Slot(ss[i], ss[i].players[j]) in Slots(ss)
  {
    SlotsSplit(ss, i);
    SessionSlotsMembership(ss[i], Slot(ss[i], ss[i].players[j]));
  }

  /** A slot occurs in the flattening exactly when it pairs some session with one of its players. */
  lemma SlotsMembership(ss: seq<Session>, x: Slot)
    ensures x in Slots(ss) <==>
            exists i, j :: 0 <= i < |ss| && 0 <= j < |ss[i].players| && x == Slot(ss[i], ss[i].players[j])
  {
    if x in Slots(ss) {
      SlotsMembershipSound(ss, x);
    }
    if exists i, j :: 0 <= i < |ss| && 0 <= j < |ss[i].players| && x == Slot(ss[i], ss[i].players[j]) {
      var i, j :| 0 <= i < |ss| && 0 <= j < |ss[i].players| && x == Slot(ss[i], ss[i].players[j]);
      SlotsMembershipComplete(ss, i, j);
    }
  }
}
