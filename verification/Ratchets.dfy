/**
 Persistence of Olm ratchet states: sends, receives and session initialisations run concurrently, mutate the sessions in
 memory under the write lock and afterwards store them under the read lock.

 A session state is represented by a stamp: every mutation or creation gives the session a new, larger one, so a larger
 stamp is a newer state. Operations advance in atomic steps; a step that needs a lock that is taken does nothing.
 Storage succeeds, and a failed decryption leaves the session as it was.
*/
module Ratchets {

  type Peer = string
  type OpId = nat

  /** Where an operation is. */
  datatype Phase =
    | InitQueued          // waits for the initialisation lock
    | InitLocked          // holds it, has not looked for a session yet
    | Creating            // found no session and derived one, not inserted yet
    | Dirty               // changed the session, has not stored it yet
    | Storing(pickle: nat)  // holds the read lock and the pickle to store

  datatype Op = Op(peer: Peer, phase: Phase, ifNeeded: bool)

  datatype State = State(sessions: map<Peer, nat>, stored: map<Peer, nat>, next: nat, ops: map<OpId, Op>)

  /** What a send or a receive does to the session it finds. */
  datatype Effect =
    | Advances      // encrypted, or decrypted
    | Fails         // an ordinary message that does not decrypt: the operation ends
    | FailsFirst    // a pre-key message that does not decrypt: the session is stored all the same

  datatype Event =
    | BeginInit(id: OpId, peer: Peer)               // init_session_if_needed
    | BeginDirectInit(id: OpId, peer: Peer)         // init_session_as_initiator
    | BeginInbound(id: OpId, peer: Peer)            // a first message of a peer without a session
    | Use(id: OpId, peer: Peer, effect: Effect)     // encrypt or decrypt
    | Step(id: OpId)                                // the next step of an operation in flight
    | Restart                                       // the process restarts from the stored sessions

  predicate InitLockFree(s: State) {
    forall id :: id in s.ops && s.ops[id].ifNeeded ==> s.ops[id].phase.InitQueued?
  }

  predicate WriteLockFree(s: State) {
    forall id :: id in s.ops ==> !s.ops[id].phase.Storing?
  }

  function Begun(s: State, id: OpId, op: Op): State {
    if id in s.ops then s else s.(ops := s.ops[id := op])
  }

  /** A new session state for the peer, with the operation left to store it. */
  function Changed(s: State, id: OpId, op: Op): State {
    s.(sessions := s.sessions[op.peer := s.next], next := s.next + 1, ops := s.ops[id := op.(phase := Dirty)])
  }

  function Stepped(s: State, id: OpId, op: Op): State {
    match op.phase
    case InitQueued =>
      if InitLockFree(s) then s.(ops := s.ops[id := op.(phase := InitLocked)]) else s
    case InitLocked =>
      if op.peer in s.sessions then s.(ops := s.ops - {id})
      else s.(ops := s.ops[id := op.(phase := Creating)])
    case Creating =>
      if WriteLockFree(s) then Changed(s, id, op) else s
    case Dirty =>
      if op.peer in s.sessions then s.(ops := s.ops[id := op.(phase := Storing(s.sessions[op.peer]))])
      else s.(ops := s.ops - {id})
    case Storing(pickle) =>
      s.(stored := s.stored[op.peer := pickle], ops := s.ops - {id})
  }

  function Next(s: State, e: Event): State {
    match e
    case BeginInit(id, peer) => Begun(s, id, Op(peer, InitQueued, true))
    case BeginDirectInit(id, peer) => Begun(s, id, Op(peer, Creating, false))
    case BeginInbound(id, peer) =>
      if peer in s.sessions || !WriteLockFree(s) then s else Begun(s, id, Op(peer, Creating, false))
    case Use(id, peer, effect) =>
      if id in s.ops || peer !in s.sessions || !WriteLockFree(s) || effect.Fails? then s
      else if effect.Advances? then Changed(s, id, Op(peer, Dirty, false))
      else Begun(s, id, Op(peer, Dirty, false))
    case Step(id) =>
      if id in s.ops then Stepped(s, id, s.ops[id]) else s
    case Restart => s.(sessions := s.stored, ops := map[])
  }

  const EMPTY := State(map[], map[], 0, map[])

  function Run(es: seq<Event>): State {
    if es == [] then EMPTY else Next(Run(es[..|es| - 1]), es[|es| - 1])
  }

  // ---- The handler ----

  class DirectMessageHandler {
    var sessions: map<Peer, nat>
    var storage: map<Peer, nat>
    var ops: map<OpId, Op>
    ghost var next: nat

    ghost function Value(): State
      reads this
    {
      State(sessions, storage, next, ops)
    }

    constructor ()
      ensures Value() == EMPTY
    {
      sessions, storage, ops, next := map[], map[], map[], 0;
    }

    /** Queues for the initialisation lock. */
    method InitSessionIfNeeded(id: OpId, peer: Peer)
      modifies this
      ensures Value() == Next(old(Value()), BeginInit(id, peer))
    {
      if id !in ops {
        ops := ops[id := Op(peer, InitQueued, true)];
      }
    }

    method InitSessionAsInitiator(id: OpId, peer: Peer)
      modifies this
      ensures Value() == Next(old(Value()), BeginDirectInit(id, peer))
    {
      if id !in ops {
        ops := ops[id := Op(peer, Creating, false)];
      }
    }

    /** A first message: looks for a session under the write lock, and derives one if there is none. */
    method ReceiveFirst(id: OpId, peer: Peer)
      modifies this
      ensures Value() == Next(old(Value()), BeginInbound(id, peer))
    {
      if peer !in sessions && WriteLockFree(State(sessions, storage, 0, ops)) && id !in ops {
        ops := ops[id := Op(peer, Creating, false)];
      }
    }

    /** The part of a send or a receive under the write lock. `stamp` is the new state of the session if it advances. */
    method UseSession(id: OpId, peer: Peer, effect: Effect, stamp: nat)
      requires stamp == next
      modifies this
      ensures Value() == Next(old(Value()), Use(id, peer, effect))
    {
      if id !in ops && peer in sessions && WriteLockFree(State(sessions, storage, 0, ops)) {
        match effect
        case Advances =>
          sessions, next, ops := sessions[peer := stamp], next + 1, ops[id := Op(peer, Dirty, false)];
        case Fails =>
        case FailsFirst =>
          ops := ops[id := Op(peer, Dirty, false)];
      }
    }

    /** The next step of an operation in flight. `stamp` is the state of a session it creates. */
    method Continue(id: OpId, stamp: nat)
      requires stamp == next
      modifies this
      ensures Value() == Next(old(Value()), Step(id))
    {
      if id !in ops {
        return;
      }
      var op, now := ops[id], State(sessions, storage, 0, ops);
      match op.phase
      case InitQueued =>
        if InitLockFree(now) {
          ops := ops[id := op.(phase := InitLocked)];
        }
      case InitLocked =>
        // Another initialisation, or an inbound message, may have created the session.
        ops := if op.peer in sessions then ops - {id} else ops[id := op.(phase := Creating)];
      case Creating =>
        if WriteLockFree(now) {
          sessions, next, ops := sessions[op.peer := stamp], next + 1, ops[id := op.(phase := Dirty)];
        }
      case Dirty =>
        ops := if op.peer in sessions then ops[id := op.(phase := Storing(sessions[op.peer]))] else ops - {id};
      case Storing(pickle) =>
        // The read lock is held until the pickle is stored.
        storage, ops := storage[op.peer := pickle], ops - {id};
    }

    method RestoreSessions()
      modifies this
      ensures Value() == Next(old(Value()), Restart)
    {
      sessions, ops := storage, map[];
    }
  }

  // ---- Properties ----

  /** Somebody is still going to store the session of the peer. */
  predicate BeingStored(s: State, peer: Peer) {
    exists id :: id in s.ops && s.ops[id].peer == peer && (s.ops[id].phase.Dirty? || s.ops[id].phase.Storing?)
  }

  predicate UpToDate(s: State, peer: Peer) {
    peer in s.sessions && peer in s.stored && s.stored[peer] == s.sessions[peer]
  }

  /** A pickle about to be stored is that of the session now in memory: the read lock keeps writers out. */
  predicate PicklesCurrent(s: State) {
    forall id :: id in s.ops && s.ops[id].phase.Storing? ==>
      s.ops[id].peer in s.sessions && s.ops[id].phase.pickle == s.sessions[s.ops[id].peer]
  }

  /** Stamps only grow, and nothing is stored that was not in memory. */
  predicate Ordered(s: State) {
    && (forall peer :: peer in s.sessions ==> s.sessions[peer] < s.next)
    && (forall peer :: peer in s.stored ==> peer in s.sessions && s.stored[peer] <= s.sessions[peer])
  }

  predicate AllAccounted(s: State) {
    forall peer :: peer in s.sessions ==> UpToDate(s, peer) || BeingStored(s, peer)
  }

  predicate NeverOlder(s: State, t: State) {
    forall peer :: peer in s.stored ==> peer in t.stored && s.stored[peer] <= t.stored[peer]
  }

  lemma PicklesStayCurrent(s: State, e: Event)
    requires PicklesCurrent(s)
    ensures PicklesCurrent(Next(s, e))
  {
  }

  lemma StaysOrdered(s: State, e: Event)
    requires PicklesCurrent(s) && Ordered(s)
    ensures Ordered(Next(s, e)) && NeverOlder(s, Next(s, e))
  {
  }

  lemma StaysAccounted(s: State, e: Event, peer: Peer)
    requires PicklesCurrent(s) && AllAccounted(s) && Ordered(s) && peer in Next(s, e).sessions
    ensures UpToDate(Next(s, e), peer) || BeingStored(Next(s, e), peer)
  {
    match e
    case Use(id, p, _) =>
      UseAccounted(s, e, peer);
    case Step(id) =>
      StepAccounted(s, e, peer);
    case BeginInit(id, _) => CarriedOver(s, Next(s, e), peer, id);
    case BeginDirectInit(id, _) => CarriedOver(s, Next(s, e), peer, id);
    case BeginInbound(id, _) => CarriedOver(s, Next(s, e), peer, id);
    case Restart =>
  }

  lemma UseAccounted(s: State, e: Event, peer: Peer)
    requires AllAccounted(s) && e.Use? && peer in Next(s, e).sessions
    ensures UpToDate(Next(s, e), peer) || BeingStored(Next(s, e), peer)
  {
    var t := Next(s, e);
    CarriedOver(s, t, peer, e.id);
    assert e.id in t.ops && e.id !in s.ops && e.peer == peer ==> t.ops[e.id].phase.Dirty?;
  }

  lemma StepAccounted(s: State, e: Event, peer: Peer)
    requires PicklesCurrent(s) && AllAccounted(s) && e.Step? && peer in Next(s, e).sessions
    ensures UpToDate(Next(s, e), peer) || BeingStored(Next(s, e), peer)
  {
    if e.id in s.ops {
      SteppedAccounted(s, e.id, s.ops[e.id], peer);
    }
  }

  lemma SteppedAccounted(s: State, id: OpId, op: Op, peer: Peer)
    requires PicklesCurrent(s) && AllAccounted(s) && id in s.ops && s.ops[id] == op && peer in Stepped(s, id, op).sessions
    ensures UpToDate(Stepped(s, id, op), peer) || BeingStored(Stepped(s, id, op), peer)
  {
    var t := Stepped(s, id, op);
    CarriedOver(s, t, peer, id);
    if peer == op.peer && (op.phase.Creating? || op.phase.Dirty?) && t != s {
      assert id in t.ops ==> t.ops[id].peer == peer && (t.ops[id].phase.Dirty? || t.ops[id].phase.Storing?);
    }
  }

  /** An obligation of another operation than `id` is still there when only `id` moves. */
  lemma CarriedOver(s: State, t: State, peer: Peer, id: OpId)
    requires forall k :: k != id && k in s.ops ==> k in t.ops && t.ops[k] == s.ops[k]
    ensures BeingStored(s, peer) ==>
      || BeingStored(t, peer)
      || (id in s.ops && s.ops[id].peer == peer && (s.ops[id].phase.Dirty? || s.ops[id].phase.Storing?))
  {
    if BeingStored(s, peer) {
      var k :| k in s.ops && s.ops[k].peer == peer && (s.ops[k].phase.Dirty? || s.ops[k].phase.Storing?);
    }
  }

  lemma {:induction false} InvAlways(es: seq<Event>)
    ensures PicklesCurrent(Run(es)) && Ordered(Run(es)) && AllAccounted(Run(es))
  {
    if es != [] {
      var s, e := Run(es[..|es| - 1]), es[|es| - 1];
      InvAlways(es[..|es| - 1]);
      PicklesStayCurrent(s, e);
      StaysOrdered(s, e);
      forall peer | peer in Next(s, e).sessions ensures UpToDate(Next(s, e), peer) || BeingStored(Next(s, e), peer) {
        StaysAccounted(s, e, peer);
      }
    }
  }

  /** In every interleaving, restarts included, no step replaces a stored pickle by an older session state. */
  lemma StoredNeverGoesBack(es: seq<Event>, e: Event)
    ensures NeverOlder(Run(es), Run(es + [e]))
  {
    InvAlways(es);
    assert (es + [e])[..|es|] == es;
    StaysOrdered(Run(es), e);
  }

  /** Whenever no operation is in flight, every session in memory is stored as it is, and nothing else is stored. */
  lemma QuiescentIsStored(es: seq<Event>)
    requires Run(es).ops == map[]
    ensures Run(es).stored == Run(es).sessions
  {
    InvAlways(es);
    assert forall peer :: peer in Run(es).sessions ==> UpToDate(Run(es), peer);
  }

  /** So a restart at such a moment changes nothing. */
  lemma QuiescentRestart(es: seq<Event>)
    requires Run(es).ops == map[]
    ensures Run(es + [Restart]) == Run(es)
  {
    QuiescentIsStored(es);
    assert (es + [Restart])[..|es|] == es;
  }

  // ---- Sends and receives ----

  /** At event `n` a send or a receive finds the session of the peer under the write lock, and goes on to store it. */
  predicate UsesAt(es: seq<Event>, n: nat, id: OpId, peer: Peer)
    requires n < |es|
  {
    var s := Run(es[..n]);
    && es[n].Use? && es[n].id == id && es[n].peer == peer && !es[n].effect.Fails?
    && id !in s.ops && peer in s.sessions && WriteLockFree(s)
  }

  /** The session has at least this state, and it is stored, or the operation is going to store it. */
  predicate OnItsWay(s: State, id: OpId, peer: Peer, stamp: nat) {
    && peer in s.sessions && s.sessions[peer] >= stamp
    && (|| (peer in s.stored && s.stored[peer] >= stamp)
        || (id in s.ops && s.ops[id].peer == peer
            && (s.ops[id].phase.Dirty? || (s.ops[id].phase.Storing? && s.ops[id].phase.pickle >= stamp))))
  }

  lemma StaysOnItsWay(s: State, e: Event, id: OpId, peer: Peer, stamp: nat)
    requires PicklesCurrent(s) && Ordered(s) && OnItsWay(s, id, peer, stamp) && !e.Restart?
    ensures OnItsWay(Next(s, e), id, peer, stamp)
  {
    StaysOrdered(s, e);
    if e.Step? && e.id in s.ops {
      StepOnItsWay(s, e.id, s.ops[e.id], id, peer, stamp);
    }
  }

  lemma StepOnItsWay(s: State, step: OpId, op: Op, id: OpId, peer: Peer, stamp: nat)
    requires PicklesCurrent(s) && Ordered(s) && OnItsWay(s, id, peer, stamp) && step in s.ops && s.ops[step] == op
    ensures OnItsWay(Stepped(s, step, op), id, peer, stamp)
  {
  }

  /**
   A successful send or receive leaves a newer session in memory than it found; a pre-key message that does not decrypt
   leaves the one it found. Either is on its way to the disk.
  */
  lemma UseChanges(es: seq<Event>, n: nat, id: OpId, peer: Peer)
    requires n < |es| && UsesAt(es, n, id, peer)
    ensures var s, t := Run(es[..n]), Run(es[..n + 1]);
      && peer in t.sessions && OnItsWay(t, id, peer, t.sessions[peer])
      && (if es[n].effect.Advances? then t.sessions[peer] > s.sessions[peer] else t.sessions[peer] == s.sessions[peer])
      && forall p :: p != peer ==>
           (p in t.sessions <==> p in s.sessions) && (p in s.sessions ==> t.sessions[p] == s.sessions[p])
  {
    RunStep(es, n);
    InvAlways(es[..n]);
  }

  lemma {:induction false} RemainsOnItsWay(es: seq<Event>, n: nat, m: nat, id: OpId, peer: Peer, stamp: nat)
    requires n <= m <= |es| && OnItsWay(Run(es[..n]), id, peer, stamp) && forall k :: n <= k < m ==> !es[k].Restart?
    ensures OnItsWay(Run(es[..m]), id, peer, stamp)
  {
    if n < m {
      RemainsOnItsWay(es, n, m - 1, id, peer, stamp);
      RunStep(es, m - 1);
      InvAlways(es[..m - 1]);
      StaysOnItsWay(Run(es[..m - 1]), es[m - 1], id, peer, stamp);
    }
  }

  /** In every interleaving: once a send or receive is over, without a restart, the session it left or a newer one is stored. */
  lemma {:induction false} UseIsStored(es: seq<Event>, n: nat, id: OpId, peer: Peer)
    requires n < |es| && UsesAt(es, n, id, peer)
    requires (forall k :: n < k < |es| ==> !es[k].Restart?) && id !in Run(es).ops
    ensures peer in Run(es[..n + 1]).sessions && peer in Run(es).stored
    ensures Run(es).stored[peer] >= Run(es[..n + 1]).sessions[peer]
  {
    UseChanges(es, n, id, peer);
    assert es[..|es|] == es;
    RemainsOnItsWay(es, n + 1, |es|, id, peer, Run(es[..n + 1]).sessions[peer]);
  }

  function Stepping(s: State, id: OpId, k: nat): State {
    if k == 0 then s else Next(Stepping(s, id, k - 1), Step(id))
  }

  /** One session is there and stored, and nothing else is different. */
  predicate Established(s: State, t: State, peer: Peer) {
    && peer in t.sessions && t.sessions == s.sessions[peer := t.sessions[peer]]
    && t.stored == s.stored[peer := t.sessions[peer]] && t.ops == s.ops
  }

  /**
   Each operation alone, from a quiet state: a direct initialisation makes a new session and stores it; so do a first
   message and `init_session_if_needed`, unless there is a session already, which they leave as it is.
  */
  lemma InitAlone(s: State, id: OpId, peer: Peer)
    requires s.ops == map[]
    ensures var direct := Stepping(Next(s, BeginDirectInit(id, peer)), id, 3);
      Established(s, direct, peer) && direct.sessions[peer] == s.next
    ensures var first := Stepping(Next(s, BeginInbound(id, peer)), id, 3);
      if peer in s.sessions then first == s else Established(s, first, peer) && first.sessions[peer] == s.next
    ensures peer !in s.sessions ==>
      var needed := Stepping(Next(s, BeginInit(id, peer)), id, 5);
      Established(s, needed, peer) && needed.sessions[peer] == s.next
    ensures peer in s.sessions ==> Stepping(Next(s, BeginInit(id, peer)), id, 5) == s
  {
    DirectAlone(s, id, peer);
    if peer !in s.sessions {
      NeededAlone(s, id, peer);
    } else {
      Idle(s, id, 3);
      PresentAlone(s, id, peer);
    }
  }

  lemma {:induction false} Idle(s: State, id: OpId, k: nat)
    requires id !in s.ops
    ensures Stepping(s, id, k) == s
  {
    if k != 0 {
      Idle(s, id, k - 1);
    }
  }

  lemma DirectAlone(s: State, id: OpId, peer: Peer)
    requires s.ops == map[]
    ensures var begun := s.(ops := map[id := Op(peer, Creating, false)]);
      Stepping(begun, id, 3) == State(s.sessions[peer := s.next], s.stored[peer := s.next], s.next + 1, map[])
  {
    var begun := s.(ops := map[id := Op(peer, Creating, false)]);
    StoringAlone(State(s.sessions[peer := s.next], s.stored, s.next + 1, map[id := Op(peer, Dirty, false)]), id, peer, false);
    var t := State(s.sessions[peer := s.next], s.stored, s.next + 1, map[id := Op(peer, Dirty, false)]);
    assert Stepping(begun, id, 1) == t;
    SteppingInTwo(begun, id, 1, 2);
  }

  lemma StoringAlone(s: State, id: OpId, peer: Peer, ifNeeded: bool)
    requires s.ops == map[id := Op(peer, Dirty, ifNeeded)] && peer in s.sessions
    ensures Stepping(s, id, 2) == s.(stored := s.stored[peer := s.sessions[peer]], ops := map[])
  {
    assert Stepping(s, id, 1) == s.(ops := map[id := Op(peer, Storing(s.sessions[peer]), ifNeeded)]);
    assert map[id := Op(peer, Storing(s.sessions[peer]), ifNeeded)] - {id} == map[];
  }

  lemma {:induction false} SteppingInTwo(s: State, id: OpId, j: nat, k: nat)
    ensures Stepping(s, id, j + k) == Stepping(Stepping(s, id, j), id, k)
  {
    if k != 0 {
      SteppingInTwo(s, id, j, k - 1);
    }
  }

  lemma NeededAlone(s: State, id: OpId, peer: Peer)
    requires s.ops == map[] && peer !in s.sessions
    ensures Stepping(Next(s, BeginInit(id, peer)), id, 5)
      == State(s.sessions[peer := s.next], s.stored[peer := s.next], s.next + 1, map[])
  {
    var begun := Next(s, BeginInit(id, peer));
    assert begun == s.(ops := map[id := Op(peer, InitQueued, true)]);
    var locked := s.(ops := map[id := Op(peer, InitLocked, true)]);
    assert Stepping(begun, id, 1) == locked;
    var creating := s.(ops := map[id := Op(peer, Creating, true)]);
    assert Stepping(locked, id, 1) == creating;
    var dirty := State(s.sessions[peer := s.next], s.stored, s.next + 1, map[id := Op(peer, Dirty, true)]);
    assert Stepping(creating, id, 1) == dirty;
    SteppingInTwo(begun, id, 1, 4);
    SteppingInTwo(locked, id, 1, 3);
    SteppingInTwo(creating, id, 1, 2);
    StoringAlone(dirty, id, peer, true);
  }

  lemma PresentAlone(s: State, id: OpId, peer: Peer)
    requires s.ops == map[] && peer in s.sessions
    ensures Stepping(Next(s, BeginInit(id, peer)), id, 5) == s
  {
    var begun := Next(s, BeginInit(id, peer));
    var locked := s.(ops := map[id := Op(peer, InitLocked, true)]);
    assert Stepping(begun, id, 1) == locked;
    assert locked.ops - {id} == map[];
    assert Stepping(locked, id, 1) == s;
    SteppingInTwo(begun, id, 1, 4);
    SteppingInTwo(locked, id, 1, 3);
    Idle(s, id, 3);
  }

  // ---- Initialisation ----

  /** Event `j` inserts a new session for the peer. */
  predicate InsertsAt(es: seq<Event>, j: nat, peer: Peer)
    requires j < |es|
  {
    es[j].Step? && Inserts(Run(es[..j]), es[j].id, peer)
  }

  predicate Inserts(s: State, id: OpId, peer: Peer) {
    id in s.ops && s.ops[id].phase.Creating? && s.ops[id].peer == peer && WriteLockFree(s)
  }

  /** The insertion is made by a first message or a direct initialisation, outside the initialisation lock. */
  predicate InsertsOutsideAt(es: seq<Event>, j: nat, peer: Peer)
    requires j < |es|
  {
    InsertsAt(es, j, peer) && !Run(es[..j]).ops[es[j].id].ifNeeded
  }

  /** At event `i` the initialisation `id` looks for a session of its peer under the lock, and finds none. */
  predicate ChecksAt(es: seq<Event>, i: nat, id: OpId)
    requires i < |es|
  {
    var s := Run(es[..i]);
    es[i] == Step(id) && id in s.ops && s.ops[id].phase.InitLocked? && s.ops[id].peer !in s.sessions
  }

  /** At most one initialisation is past the lock. */
  predicate InitSerial(s: State) {
    && (forall i, j :: i in s.ops && j in s.ops && i != j && s.ops[i].ifNeeded && s.ops[j].ifNeeded ==>
          s.ops[i].phase.InitQueued? || s.ops[j].phase.InitQueued?)
    && (forall i :: i in s.ops && (s.ops[i].phase.InitQueued? || s.ops[i].phase.InitLocked?) ==> s.ops[i].ifNeeded)
  }

  lemma InitStaysSerial(s: State, e: Event)
    requires InitSerial(s)
    ensures InitSerial(Next(s, e))
  {
    if e.Step? && e.id in s.ops {
      SteppedSerial(s, e.id, s.ops[e.id]);
    }
  }

  lemma SteppedSerial(s: State, id: OpId, op: Op)
    requires InitSerial(s) && id in s.ops && s.ops[id] == op
    ensures InitSerial(Stepped(s, id, op))
  {
  }

  lemma {:induction false} InitsAreSerial(es: seq<Event>)
    ensures InitSerial(Run(es))
  {
    if es != [] {
      InitsAreSerial(es[..|es| - 1]);
      InitStaysSerial(Run(es[..|es| - 1]), es[|es| - 1]);
    }
  }

  /** One event: the peer has a session afterwards exactly if it had one or the event inserts one. */
  lemma SessionStep(s: State, e: Event, peer: Peer)
    requires !e.Restart?
    ensures peer in Next(s, e).sessions <==> peer in s.sessions || (e.Step? && Inserts(s, e.id, peer))
  {
  }

  /** Nothing but an insertion creates a session. */
  lemma {:induction false} SessionIffInserted(es: seq<Event>, i: nat, peer: Peer)
    requires i <= |es| && peer !in Run(es[..i]).sessions && forall k :: i <= k < |es| ==> !es[k].Restart?
    ensures peer in Run(es).sessions <==> exists j :: i <= j < |es| && InsertsAt(es, j, peer)
  {
    if i == |es| {
      assert es[..i] == es;
    } else {
      var init, n := es[..|es| - 1], |es| - 1;
      assert init[..i] == es[..i];
      SessionIffInserted(init, i, peer);
      SessionStep(Run(init), es[n], peer);
      forall j | i <= j < n ensures InsertsAt(init, j, peer) <==> InsertsAt(es, j, peer) {
        assert init[..j] == es[..j];
      }
      assert InsertsAt(es, n, peer) <==> es[n].Step? && Inserts(Run(init), es[n].id, peer);
      if j :| i <= j < n && InsertsAt(init, j, peer) {
        assert InsertsAt(es, j, peer);
      }
    }
  }

  /** Before event `k` the initialisation `id` is about to insert. */
  predicate Waits(es: seq<Event>, k: nat, id: OpId)
    requires k < |es|
  {
    AboutToInsert(Run(es[..k]), id)
  }

  predicate AboutToInsert(s: State, id: OpId) {
    id in s.ops && s.ops[id].phase.Creating? && s.ops[id].ifNeeded
  }

  /** One event: an initialisation gets to this point by its check only, and is then still there or was before. */
  lemma AboutToInsertStep(s: State, e: Event, id: OpId)
    requires AboutToInsert(Next(s, e), id)
    ensures !e.Restart? && id in s.ops && s.ops[id].peer == Next(s, e).ops[id].peer
    ensures
      || AboutToInsert(s, id)
      || (e == Step(id) && s.ops[id].phase.InitLocked? && s.ops[id].peer !in s.sessions)
  {
  }

  /** An initialisation that is about to insert has made its check, and has held the lock since: nothing restarted. */
  lemma {:induction false} FindCheck(es: seq<Event>, id: OpId) returns (i: nat)
    requires AboutToInsert(Run(es), id)
    ensures i < |es| && ChecksAt(es, i, id) && Run(es[..i]).ops[id].peer == Run(es).ops[id].peer
    ensures forall k :: i <= k < |es| ==> !es[k].Restart?
    ensures forall k :: i < k < |es| ==> Waits(es, k, id)
  {
    var init, n := es[..|es| - 1], |es| - 1;
    AboutToInsertStep(Run(init), es[n], id);
    if AboutToInsert(Run(init), id) {
      i := FindCheck(init, id);
      assert Waits(es, n, id);
      forall k | i < k < |es| ensures Waits(es, k, id) {
        if k < n {
          assert Waits(init, k, id) && init[..k] == es[..k];
        }
      }
      assert init[..i] == es[..i];
    } else {
      i := n;
    }
  }

  /** Such an initialisation has not inserted at event `k` if it is still about to insert afterwards. */
  lemma WaitingInsertsNothing(es: seq<Event>, k: nat, id: OpId, peer: Peer)
    requires k < |es| && InsertsAt(es, k, peer) && (if k + 1 < |es| then Waits(es, k + 1, id) else
      id in Run(es).ops && Run(es).ops[id].phase.Creating?)
    ensures es[k].id != id
  {
    assert es[..k + 1][..k] == es[..k];
    assert k + 1 == |es| ==> es[..k + 1] == es;
  }

  /** While one initialisation is about to insert, the others insert nothing, and its own step would end the wait. */
  lemma OnlyOutsideInsertsMeanwhile(es: seq<Event>, k: nat, id: OpId, peer: Peer)
    requires k < |es| && Waits(es, k, id) && InsertsAt(es, k, peer) && es[k].id != id
    ensures InsertsOutsideAt(es, k, peer)
  {
    InitsAreSerial(es[..k]);
  }

  /**
   In every run, when an initialisation that found no session is about to insert its own, one is there that it will
   replace if and only if, since its check, a first message or a direct initialisation of the same peer has inserted one.
  */
  lemma {:induction false} InsertionReplacesIff(es: seq<Event>, id: OpId) returns (i: nat)
    requires AboutToInsert(Run(es), id)
    ensures i < |es| && ChecksAt(es, i, id)
    ensures var peer := Run(es).ops[id].peer;
      peer in Run(es).sessions <==> exists j :: i < j < |es| && InsertsOutsideAt(es, j, peer)
  {
    var peer := Run(es).ops[id].peer;
    i := FindCheck(es, id);
    SessionIffInserted(es, i, peer);
    if j :| i <= j < |es| && InsertsAt(es, j, peer) {
      assert j != i;
      assert Waits(es, j, id);
      WaitingInsertsNothing(es, j, id, peer);
      OnlyOutsideInsertsMeanwhile(es, j, id, peer);
    }
  }

  // ---- Insertions outside the initialisation lock ----

  /** A first message, or a direct initialisation, is about to insert. */
  predicate AboutToInsertOutside(s: State, id: OpId) {
    id in s.ops && s.ops[id].phase.Creating? && !s.ops[id].ifNeeded
  }

  /** At event `i` it began: a first message by looking for a session and finding none, an initialisation without a look. */
  predicate BeginsAt(es: seq<Event>, i: nat, id: OpId, peer: Peer)
    requires i < |es|
  {
    || (es[i] == BeginInbound(id, peer) && peer !in Run(es[..i]).sessions)
    || es[i] == BeginDirectInit(id, peer)
  }

  predicate WaitsOutside(es: seq<Event>, k: nat, id: OpId)
    requires k < |es|
  {
    AboutToInsertOutside(Run(es[..k]), id)
  }

  lemma AboutToInsertOutsideStep(s: State, e: Event, id: OpId)
    requires InitSerial(s) && AboutToInsertOutside(Next(s, e), id)
    ensures !e.Restart?
    ensures var peer := Next(s, e).ops[id].peer;
      || (AboutToInsertOutside(s, id) && s.ops[id].peer == peer)
      || (e == BeginInbound(id, peer) && peer !in s.sessions)
      || e == BeginDirectInit(id, peer)
  {
  }

  lemma {:induction false} FindBeginning(es: seq<Event>, id: OpId) returns (i: nat)
    requires AboutToInsertOutside(Run(es), id)
    ensures i < |es| && BeginsAt(es, i, id, Run(es).ops[id].peer)
    ensures forall k :: i <= k < |es| ==> !es[k].Restart?
    ensures forall k :: i < k < |es| ==> WaitsOutside(es, k, id)
  {
    var init, n := es[..|es| - 1], |es| - 1;
    InitsAreSerial(init);
    AboutToInsertOutsideStep(Run(init), es[n], id);
    if AboutToInsertOutside(Run(init), id) && Run(init).ops[id].peer == Run(es).ops[id].peer {
      i := FindBeginning(init, id);
      assert init[..i] == es[..i];
      assert WaitsOutside(es, n, id);
      forall k | i < k < |es| ensures WaitsOutside(es, k, id) {
        if k < n {
          assert WaitsOutside(init, k, id) && init[..k] == es[..k];
        }
      }
    } else {
      i := n;
    }
  }

  lemma {:induction false} SessionStays(es: seq<Event>, i: nat, peer: Peer)
    requires i <= |es| && peer in Run(es[..i]).sessions && forall k :: i <= k < |es| ==> !es[k].Restart?
    ensures peer in Run(es).sessions
  {
    if i == |es| {
      assert es[..i] == es;
    } else {
      var init := es[..|es| - 1];
      assert init[..i] == es[..i];
      SessionStays(init, i, peer);
      SessionStep(Run(init), es[|es| - 1], peer);
    }
  }

  /**
   In every run, when a first message that found no session is about to insert its own, one is there that it will replace
   if and only if any insertion for that peer came after its look; for a direct initialisation, if and only if there was
   one when it began or one has been inserted since.
  */
  lemma {:induction false} OutsideInsertionReplacesIff(es: seq<Event>, id: OpId) returns (i: nat)
    requires AboutToInsertOutside(Run(es), id)
    ensures i < |es| && BeginsAt(es, i, id, Run(es).ops[id].peer)
    ensures forall k :: i < k < |es| ==> WaitsOutside(es, k, id)
    ensures var peer := Run(es).ops[id].peer;
      peer in Run(es).sessions <==>
        || (es[i].BeginDirectInit? && peer in Run(es[..i]).sessions)
        || exists j :: i < j < |es| && InsertsAt(es, j, peer)
  {
    var peer := Run(es).ops[id].peer;
    i := FindBeginning(es, id);
    if peer in Run(es[..i]).sessions {
      SessionStays(es, i, peer);
    } else {
      SessionIffInserted(es, i, peer);
      assert !InsertsAt(es, i, peer);
    }
  }

  /** Sessions of the peer are created by `init_session_if_needed` only. */
  predicate InitsOnly(es: seq<Event>, peer: Peer) {
    forall e :: e in es && (e.BeginDirectInit? || e.BeginInbound?) ==> e.peer != peer
  }

  lemma {:induction false} CreatedIfNeeded(es: seq<Event>, peer: Peer, id: OpId)
    requires InitsOnly(es, peer) && id in Run(es).ops && Run(es).ops[id].peer == peer && Run(es).ops[id].phase.Creating?
    ensures Run(es).ops[id].ifNeeded
  {
    var init, e := es[..|es| - 1], es[|es| - 1];
    assert e in es && forall x :: x in init ==> x in es;
    InitsAreSerial(init);
    CreatingStep(Run(init), e, peer, id);
    if id in Run(init).ops && Run(init).ops[id].phase.Creating? {
      CreatedIfNeeded(init, peer, id);
    }
  }

  lemma CreatingStep(s: State, e: Event, peer: Peer, id: OpId)
    requires InitSerial(s) && (e.BeginDirectInit? || e.BeginInbound? ==> e.peer != peer)
    requires id in Next(s, e).ops && Next(s, e).ops[id].peer == peer && Next(s, e).ops[id].phase.Creating?
    ensures id in s.ops && s.ops[id].peer == peer && s.ops[id].ifNeeded == Next(s, e).ops[id].ifNeeded
    ensures s.ops[id].phase.Creating? || Next(s, e).ops[id].ifNeeded
  {
  }

  /** Then concurrent initialisations create one session: an insertion never replaces an existing one. */
  lemma {:induction false} InitNeverOverwrites(es: seq<Event>, id: OpId)
    requires id in Run(es).ops && Run(es).ops[id].phase.Creating? && InitsOnly(es, Run(es).ops[id].peer)
    ensures Run(es).ops[id].peer !in Run(es).sessions
  {
    var peer := Run(es).ops[id].peer;
    CreatedIfNeeded(es, peer, id);
    var i := InsertionReplacesIff(es, id);
    if j :| i < j < |es| && InsertsOutsideAt(es, j, peer) {
      assert forall x :: x in es[..j] ==> x in es;
      CreatedIfNeeded(es[..j], peer, es[j].id);
    }
  }

  // An initialisation has found no session; a first message of the peer then creates one, and is followed by the insertion.
  const RACE: seq<Event> := [BeginInit(0, "peer"), Step(0), Step(0), BeginInbound(1, "peer"), Step(1), Step(0)]

  /** The race occurs: the session of the first message is replaced. */
  lemma RacingInboundIsOverwritten()
    ensures AboutToInsert(Run(RACE[..5]), 0) && Run(RACE[..5]).sessions == map["peer" := 0]
    ensures Run(RACE).sessions == map["peer" := 1]
  {
    assert Run([]) == EMPTY && RACE[..0] == [];
    RunStep(RACE, 0);
    assert Run(RACE[..1]).ops == map[0 := Op("peer", InitQueued, true)];
    RunStep(RACE, 1);
    assert Run(RACE[..2]).ops == map[0 := Op("peer", InitLocked, true)];
    RunStep(RACE, 2);
    assert Run(RACE[..3]) == State(map[], map[], 0, map[0 := Op("peer", Creating, true)]);
    RunStep(RACE, 3);
    RunStep(RACE, 4);
    assert Run(RACE[..5]).sessions == map["peer" := 0] && Run(RACE[..5]).next == 1;
    RunStep(RACE, 5);
    assert RACE[..6] == RACE;
  }

  // A first message has found no session; a whole initialisation then creates one, and is followed by the insertion.
  const MIRRORED: seq<Event> := [BeginInbound(0, "peer"), BeginInit(1, "peer"), Step(1), Step(1), Step(1), Step(0)]

  /** The mirrored race occurs: the session of the initiator is replaced. */
  lemma RacingInitIsOverwritten()
    ensures AboutToInsertOutside(Run(MIRRORED[..5]), 0) && Run(MIRRORED[..5]).sessions == map["peer" := 0]
    ensures Run(MIRRORED).sessions == map["peer" := 1]
  {
    assert Run([]) == EMPTY && MIRRORED[..0] == [];
    RunStep(MIRRORED, 0);
    assert Run(MIRRORED[..1]).ops == map[0 := Op("peer", Creating, false)];
    RunStep(MIRRORED, 1);
    RunStep(MIRRORED, 2);
    assert Run(MIRRORED[..3]).ops == map[0 := Op("peer", Creating, false), 1 := Op("peer", InitLocked, true)];
    RunStep(MIRRORED, 3);
    RunStep(MIRRORED, 4);
    assert Run(MIRRORED[..5]).sessions == map["peer" := 0] && Run(MIRRORED[..5]).next == 1;
    RunStep(MIRRORED, 5);
    assert MIRRORED[..6] == MIRRORED;
  }

  lemma RunStep(es: seq<Event>, k: nat)
    requires k < |es|
    ensures Run(es[..k + 1]) == Next(Run(es[..k]), es[k])
  {
    assert es[..k + 1][..k] == es[..k];
  }
}
