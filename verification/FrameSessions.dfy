// What one connection has been sent, shared by the three parts of the
// controller that send photos, and which connection a frame is reached on.
module FrameSessions {
  import opened FiniteSets
  import opened Wrappers

  const SENT_HISTORY: nat := 64

  /** The newest entries of a list, as `del list[:-64]` keeps them. */
  function Newest(ids: seq<PhotoId>): (kept: seq<PhotoId>)
    ensures |kept| == if |ids| < SENT_HISTORY then |ids| else SENT_HISTORY
  {
    if |ids| <= SENT_HISTORY then ids else ids[|ids| - SENT_HISTORY..]
  }

  class FrameSession {
    const frameId: string
    var sentPhotoIds: seq<PhotoId>

    constructor (frameId: string)
      ensures this.frameId == frameId && sentPhotoIds == []
    {
      this.frameId, sentPhotoIds := frameId, [];
    }

    predicate AlreadySent(id: PhotoId)
      reads this
    {
      id in sentPhotoIds
    }

    method RecordSent(id: PhotoId)
      modifies this
      ensures sentPhotoIds == Newest(old(sentPhotoIds) + [id])
    {
      sentPhotoIds := sentPhotoIds + [id];
      if |sentPhotoIds| > SENT_HISTORY {
        sentPhotoIds := sentPhotoIds[|sentPhotoIds| - SENT_HISTORY..];
      }
    }
  }

  // Opening and closing, of whichever of a frame's connections.
  datatype Link<Connection> =
    | Connect(frame: string, connection: Connection)
    | Close(frame: string, connection: Connection)

  /** Registering by frame, and unregistering by frame whichever connection closed. */
  function Registry<Connection>(links: seq<Link<Connection>>): map<string, Connection>
    decreases |links|
  {
    if links == [] then map[]
    else
      var before := Registry(links[..|links| - 1]);
      match links[|links| - 1]
      case Connect(frame, connection) => before[frame := connection]
      case Close(frame, _) => before - {frame}
  }

  /** Opening `connection` was the last thing to happen to any of the frame's connections. */
  ghost predicate OpenedLast<Connection>(links: seq<Link<Connection>>, frame: string, connection: Connection) {
    exists k :: 0 <= k < |links| && links[k] == Connect(frame, connection)
             && forall later :: k < later < |links| ==> links[later].frame != frame
  }

  class ControlServer {
    var sessions: map<string, FrameSession>
    /** Every connection opened and closed so far. */
    ghost var links: seq<Link<FrameSession>>

    ghost predicate Valid()
      reads this
    {
      sessions == Registry(links)
    }

    constructor ()
      ensures Valid() && links == []
    {
      sessions, links := map[], [];
    }

    /** The session a frame is reached on: the one whose opening was the last thing
        to happen to any of the frame's connections, if there is one. */
    method Session(frameId: string) returns (r: Option<FrameSession>)
      requires Valid()
      ensures forall s: FrameSession {:trigger OpenedLast(links, frameId, s)} ::
        r == Some(s) <==> OpenedLast(links, frameId, s)
    {
      forall s: FrameSession
        ensures (frameId in sessions && sessions[frameId] == s) <==> OpenedLast(links, frameId, s)
      {
        ReachedOnlyIfNothingClosedSince(links, frameId, s);
      }
      return if frameId in sessions then Some(sessions[frameId]) else None;
    }

    /** A connection opens: its frame is reached on it, and on no other. */
    method Register(session: FrameSession)
      requires Valid()
      modifies this
      ensures Valid() && links == old(links) + [Connect(session.frameId, session)]
      ensures OpenedLast(links, session.frameId, session)
    {
      links := links + [Connect(session.frameId, session)];
      assert links[..|links| - 1] == old(links);
      OpenedLastAfter(old(links), Connect(session.frameId, session), session.frameId, session);
      sessions := sessions[session.frameId := session];
    }

    /** A connection closes: its frame is reached on no connection at all, even if
        it was a newer one that the frame was reached on. */
    method Unregister(frameId: string, ghost closed: FrameSession)
      requires Valid()
      modifies this
      ensures Valid() && links == old(links) + [Close(frameId, closed)]
      ensures forall s: FrameSession :: !OpenedLast(links, frameId, s)
    {
      links := links + [Close(frameId, closed)];
      assert links[..|links| - 1] == old(links);
      forall s: FrameSession
        ensures !OpenedLast(links, frameId, s)
      {
        OpenedLastAfter(old(links), Close(frameId, closed), frameId, s);
      }
      sessions := sessions - {frameId};
    }

    /** Send one photo, unless this connection had it recently. The photo is
        recorded before it is sent, so a failed send still counts as sent. */
    method SendRender(frameId: string, id: Option<PhotoId>, delivered: bool) returns (sent: bool)
      modifies if frameId in sessions then {sessions[frameId]} else {}
      ensures frameId !in sessions ==> !sent
      ensures frameId in sessions && id.None? ==>
        sent == delivered && sessions[frameId].sentPhotoIds == old(sessions[frameId].sentPhotoIds)
      ensures frameId in sessions && id.Some? ==>
        var (history, accepted) := Offered(old(sessions[frameId].sentPhotoIds), id.value);
        sessions[frameId].sentPhotoIds == history && sent == (accepted && delivered)
    {
      if frameId !in sessions {
        return false;
      }
      var session := sessions[frameId];
      if id.Some? {
        if session.AlreadySent(id.value) {
          return false;
        }
        session.RecordSent(id.value);
      }
      return delivered;
    }
  }

  /** What an offer makes of the history, and whether it goes out. */
  function Offered(history: seq<PhotoId>, id: PhotoId): (seq<PhotoId>, bool) {
    if id in history then (history, false) else (Newest(history + [id]), true)
  }

  // Whole runs of offers on one connection, from whichever sender.

  /** The ids that went out, oldest first. */
  function Accepted(offers: seq<PhotoId>): seq<PhotoId>
    decreases |offers|
  {
    if offers == [] then []
    else
      var before := Accepted(offers[..|offers| - 1]);
      var id := offers[|offers| - 1];
      if id in Newest(before) then before else before + [id]
  }

  function History(offers: seq<PhotoId>): seq<PhotoId>
    decreases |offers|
  {
    if offers == [] then []
    else Offered(History(offers[..|offers| - 1]), offers[|offers| - 1]).0
  }

  lemma NewestOfNewest(ids: seq<PhotoId>, id: PhotoId)
    ensures Newest(Newest(ids) + [id]) == Newest(ids + [id])
  {
  }

  /** The history is always the newest 64 of everything that went out. */
  lemma {:induction false} HistoryIsTheNewestAccepted(offers: seq<PhotoId>)
    ensures History(offers) == Newest(Accepted(offers))
    decreases |offers|
  {
    if offers != [] {
      var before, id := offers[..|offers| - 1], offers[|offers| - 1];
      HistoryIsTheNewestAccepted(before);
      NewestOfNewest(Accepted(before), id);
    }
  }

  ghost predicate Apart(ids: seq<PhotoId>, distance: nat) {
    forall i, j :: 0 <= i < j < |ids| && j - i <= distance ==> ids[i] != ids[j]
  }

  lemma NewestHoldsTheLast(ids: seq<PhotoId>, i: nat)
    requires i < |ids| && |ids| - i <= SENT_HISTORY
    ensures ids[i] in Newest(ids)
  {
    if |ids| > SENT_HISTORY {
      assert Newest(ids)[i - (|ids| - SENT_HISTORY)] == ids[i];
    }
  }

  lemma NewIdKeepsApart(before: seq<PhotoId>, id: PhotoId)
    requires Apart(before, SENT_HISTORY) && id !in Newest(before)
    ensures Apart(before + [id], SENT_HISTORY)
  {
    hide Newest;
    var after := before + [id];
    forall i, j | 0 <= i < j < |after| && j - i <= SENT_HISTORY
      ensures after[i] != after[j]
    {
      if j == |before| {
        NewestHoldsTheLast(before, i);
      }
    }
  }

  /** Any 65 photos in a row on one connection are different photos. */
  lemma {:induction false} RepeatsAreFarApart(offers: seq<PhotoId>)
    ensures Apart(Accepted(offers), SENT_HISTORY)
    decreases |offers|
  {
    if offers != [] {
      hide Newest, Apart;
      var before, id := Accepted(offers[..|offers| - 1]), offers[|offers| - 1];
      RepeatsAreFarApart(offers[..|offers| - 1]);
      if id !in Newest(before) {
        NewIdKeepsApart(before, id);
      }
    } else {
      assert Apart([], SENT_HISTORY);
    }
  }

  /** Nothing is held twice. */
  lemma HistoryIsDistinct(offers: seq<PhotoId>)
    ensures Distinct(History(offers)) && |History(offers)| <= SENT_HISTORY
  {
    HistoryIsTheNewestAccepted(offers);
    RepeatsAreFarApart(offers);
  }

  lemma {:induction false} AcceptedWereOffered(offers: seq<PhotoId>)
    ensures forall id :: id in Accepted(offers) ==> id in offers
    decreases |offers|
  {
    if offers != [] {
      AcceptedWereOffered(offers[..|offers| - 1]);
    }
  }

  /** From a pool of at most 64 photos a connection is sent each at most once,
      and then nothing more however long it lasts. */
  lemma {:induction false} SmallPoolFallsSilent(offers: seq<PhotoId>, pool: set<PhotoId>)
    requires |pool| <= SENT_HISTORY && forall id :: id in offers ==> id in pool
    ensures Distinct(Accepted(offers))
    ensures |Accepted(offers)| <= |pool|
    ensures |Accepted(offers)| == |pool| ==> forall id :: id in pool ==> !Offered(History(offers), id).1
    decreases |offers|
  {
    var accepted := Accepted(offers);
    if offers != [] {
      SmallPoolFallsSilent(offers[..|offers| - 1], pool);
    }
    assert Distinct(accepted);
    AcceptedWereOffered(offers);
    DistinctCount(accepted);
    SubsetSize(Members(accepted), pool);
    HistoryIsTheNewestAccepted(offers);
  }

  // One pass over a larger pool.

  function SentIn(history: seq<PhotoId>, pass: seq<PhotoId>): seq<PhotoId>
    decreases |pass|
  {
    if pass == [] then []
    else
      var (after, accepted) := Offered(history, pass[0]);
      (if accepted then [pass[0]] else []) + SentIn(after, pass[1..])
  }

  lemma {:induction false} RefusedWereHeld(history: seq<PhotoId>, pass: seq<PhotoId>, held: set<PhotoId>)
    requires Distinct(pass)
    requires forall id :: id in history && id in pass ==> id in held
    ensures |SentIn(history, pass)| + |held| >= |pass|
    decreases |pass|
  {
    if pass != [] {
      var id, rest := pass[0], pass[1..];
      var (after, accepted) := Offered(history, id);
      assert id !in rest;
      if accepted {
        RefusedWereHeld(after, rest, held);
      } else {
        RefusedWereHeld(history, rest, held - {id});
      }
    }
  }

  ghost predicate AlwaysSendsSomething(n: nat) {
    forall history, pass {:trigger SentIn(history, pass)} ::
      |history| <= SENT_HISTORY && |pass| == n && Distinct(pass) ==> SentIn(history, pass) != []
  }

  /** A pass over `n` different photos sends at least n - 64 of them. */
  lemma PassSendsTheExcess(history: seq<PhotoId>, pass: seq<PhotoId>)
    requires |history| <= SENT_HISTORY
    requires Distinct(pass)
    ensures |SentIn(history, pass)| >= |pass| - SENT_HISTORY
  {
    MembersBound(history);
    RefusedWereHeld(history, pass, Members(history));
  }

  function Tally(n: nat): (id: PhotoId)
    ensures |id| == n
  {
    seq(n, _ => 'i')
  }

  lemma {:induction false} NothingNewNothingSent(history: seq<PhotoId>, pass: seq<PhotoId>)
    requires forall id :: id in pass ==> id in history
    ensures SentIn(history, pass) == []
  {
    if pass != [] {
      NothingNewNothingSent(history, pass[1..]);
    }
  }

  /** A full pass of the slideshow is sure to show something new exactly when the
      pool has more than 64 photos. */
  lemma ProgressNeedsMoreThanTheHistory(n: nat)
    ensures AlwaysSendsSomething(n) <==> n > SENT_HISTORY
  {
    if n > SENT_HISTORY {
      forall history, pass | |history| <= SENT_HISTORY && |pass| == n && Distinct(pass)
        ensures SentIn(history, pass) != []
      {
        PassSendsTheExcess(history, pass);
      }
    } else {
      var pass := seq(n, i requires 0 <= i < n => Tally(i));
      assert forall i :: 0 <= i < n ==> |pass[i]| == i;
      NothingNewNothingSent(pass, pass);
    }
  }

  // Which connection a frame is reached on.

  lemma OpenedLastAfter<Connection>(
      before: seq<Link<Connection>>, last: Link<Connection>, frame: string, connection: Connection)
    ensures OpenedLast(before + [last], frame, connection)
       <==> last == Connect(frame, connection) || (last.frame != frame && OpenedLast(before, frame, connection))
  {
    var links := before + [last];
    assert links[|before|] == last;
    assert forall k :: 0 <= k < |before| ==> links[k] == before[k];
    if last.frame != frame && OpenedLast(before, frame, connection) {
      var k :| 0 <= k < |before| && before[k] == Connect(frame, connection)
            && forall later :: k < later < |before| ==> before[later].frame != frame;
      assert links[k] == Connect(frame, connection);
    }
  }

  /** A frame is reached on a connection exactly when opening that connection was
      the last thing to happen to any of the frame's connections. */
  lemma {:induction false} ReachedOnlyIfNothingClosedSince<Connection>(
      links: seq<Link<Connection>>, frame: string, connection: Connection)
    ensures frame in Registry(links) && Registry(links)[frame] == connection
       <==> OpenedLast(links, frame, connection)
    decreases |links|
  {
    if links != [] {
      var before, last := links[..|links| - 1], links[|links| - 1];
      ReachedOnlyIfNothingClosedSince(before, frame, connection);
      OpenedLastAfter(before, last, frame, connection);
      assert links == before + [last];
    }
  }

  /** So a late close of an older connection cuts off the newer one. */
  lemma LateCloseCutsOffTheNewConnection<Connection>(
      before: seq<Link<Connection>>, frame: string, older: Connection, newer: Connection)
    ensures var open := before + [Connect(frame, older)] + [Connect(frame, newer)];
      && OpenedLast(open, frame, newer)
      && frame !in Registry(open + [Close(frame, older)])
  {
    var open := before + [Connect(frame, older)] + [Connect(frame, newer)];
    OpenedLastAfter(before + [Connect(frame, older)], Connect(frame, newer), frame, newer);
    assert (open + [Close(frame, older)])[..|open|] == open;
  }
}
