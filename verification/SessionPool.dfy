/** Sessions acquired from a pool and given back to it: the loop that pings idle sessions and drops
    the bad ones, and the time stamps that decide when a ping is needed. */
module SessionPool {
  import opened Wrappers

  type Id = nat

  // stamp is the time of last use that is kept in the context of the session; timeout and breaks
  // are the network settings of its server handle that a ping changes for a while.
  datatype Session = Session(stamp: Option<int>, timeout: int, breaks: int)

  datatype Pool = Pool(sessions: map<Id, Session>, idle: set<Id>, dropped: set<Id>)

  datatype Params = Params(pingInterval: int, pingTimeout: int, version: int, open: bool)

  predicate PoolOk(s: Pool) {
    s.idle <= s.sessions.Keys && s.dropped <= s.sessions.Keys && s.idle !! s.dropped
  }

  // The idle sessions that have a time stamp.
  function Stamped(s: Pool): set<Id>
    requires PoolOk(s)
  {
    set i | i in s.idle && s.sessions[i].stamp.Some?
  }

  // ---- what acquiring does ----

  // What OCI answered to a ping, no error or the code of one, and when.
  datatype PingAnswer = PingAnswer(now: int, code: Option<int>)

  // The ping, if there was one, and otherwise the time at which none was found to be needed.
  datatype Handed = Handed(id: Id, isNew: bool, pinged: bool, ping: PingAnswer)

  // The sessions whose ping failed, the one the connection has now, and, if acquiring succeeded,
  // how that one was handed out.
  datatype Acquired = Acquired(failed: map<Id, PingAnswer>, taken: Option<Id>, handed: Option<Handed>)

  function TakenSet(a: Acquired): set<Id> {
    if a.taken.Some? then {a.taken.value} else {}
  }

  // The time for a ping has come.
  predicate IsStale(p: Params, stamp: int, now: int) {
    p.pingInterval >= 0 && stamp + p.pingInterval <= now
  }

  predicate Acquires(p: Params, s: Pool, s': Pool, a: Acquired) {
    && PoolOk(s) && PoolOk(s')
    // bad sessions were idle with a stamp, did not answer a ping, and are dropped; no other is
    && a.failed.Keys <= Stamped(s) && s'.dropped == s.dropped + a.failed.Keys
    && (forall i :: i in a.failed ==>
          IsStale(p, s.sessions[i].stamp.value, a.failed[i].now) && a.failed[i].code.Some? && a.failed[i].code.value != 1010)
    // the one taken was idle, or is a new one without a stamp; all others stay where they are
    && s'.sessions.Keys == s.sessions.Keys + TakenSet(a) && s'.idle == s.idle - a.failed.Keys - TakenSet(a)
    && (a.taken.Some? && a.taken.value in s.sessions ==> a.taken.value in s.idle && a.taken.value !in a.failed)
    && (a.taken.Some? && a.taken.value !in s.sessions ==> s'.sessions[a.taken.value].stamp == None)
    // stamps and network settings are as they were, except on bad sessions
    && (forall i :: i in s.sessions && i !in a.failed ==> s'.sessions[i] == s.sessions[i])
  }

  // The session handed out is new, was used recently enough, or has answered a ping.
  predicate HandsOut(p: Params, s': Pool, a: Acquired) {
    && a.handed.Some? && a.taken == Some(a.handed.value.id) && a.handed.value.id in s'.sessions
    && var h := a.handed.value;
       var stamp := s'.sessions[h.id].stamp;
       && (h.isNew <==> stamp.None?)
       && (h.pinged <==> stamp.Some? && IsStale(p, stamp.value, h.ping.now))
       && (h.pinged ==> h.ping.code.None? || h.ping.code.value == 1010)
  }

  // ---- what closing does ----

  // What became of the time stamp: it is as it was, gone, or the time of the close.
  datatype Change = Kept | Cleared | Set

  // OCI did what it was asked for, or reported an error, which may say that the session is dead.
  datatype Reply = Done | Refused(kills: bool)

  // The status of the server, if the connection has a handle of it and OCI knows.
  datatype Server = NoHandle | NoAnswer | Status(code: int)

  // What OCI answers to the calls of a close, in their order: the server status, whether there is a session
  // handle, looking up the stamp, memory for a new one, storing it and releasing the session.
  datatype Calls = Calls(server: Server, sessionHandle: bool, context: Reply, memory: Reply, stored: Reply,
                         release: Reply, now: int)

  // A close that was asked to drop the session or not, of a session that was known to be dead or not. A close by
  // the free procedure, and one that drops the session, does not check for errors: the session may then not be
  // released although the connection is done with it.
  datatype Closed = Closed(id: Id, drop: bool, known: bool, checked: bool, calls: Calls, dead: bool, stamp: Change,
                           released: bool)

  predicate IsGone(server: Server) {
    server.NoAnswer? || (server.Status? && server.code != 1)
  }

  predicate Kills(r: Reply) {
    r.Refused? && r.kills
  }

  // The session is dead if it is to be dropped, was known to be, or its server is not normal; otherwise only if
  // an error that is checked for says so.
  predicate DeadOk(c: Closed) {
    && (c.drop || c.known || IsGone(c.calls.server) ==> c.dead)
    && (c.dead ==>
          || c.drop || c.known || IsGone(c.calls.server)
          || (c.checked && (Kills(c.calls.context) || Kills(c.calls.memory) || Kills(c.calls.stored) || Kills(c.calls.release))))
  }

  function Restamped(r: Session, c: Closed): Session {
    match c.stamp
    case Kept => r
    case Cleared => r.(stamp := None)
    case Set => r.(stamp := Some(c.calls.now))
  }

  // The session was with a connection, and no other is touched.
  predicate Touches(s: Pool, s': Pool, c: Closed) {
    && PoolOk(s) && PoolOk(s') && c.id in s.sessions && c.id !in s.idle && c.id !in s.dropped
    && s'.sessions == s.sessions[c.id := Restamped(s.sessions[c.id], c)] && DeadOk(c)
  }

  // A dead session gets no stamp. Any other gets the time of the close, or no stamp if that could not be stored,
  // if errors are checked. If the pool is being closed, nothing is done.
  predicate StampOk(p: Params, stamp: Option<int>, c: Closed) {
    && (!p.open ==> c.stamp == Kept)
    && (c.dead ==> c.stamp != Set)
    && (p.open && !c.dead && c.checked && c.calls.sessionHandle ==> c.stamp == Set || (c.stamp == Kept && stamp == None))
  }

  predicate Closes(p: Params, s: Pool, s': Pool, c: Closed) {
    && Touches(s, s', c) && StampOk(p, s.sessions[c.id].stamp, c) && (c.checked ==> c.released)
    && s'.idle == (if c.released && !c.dead then s.idle + {c.id} else s.idle)
    && s'.dropped == (if c.released && c.dead then s.dropped + {c.id} else s.dropped)
  }

  // A close that fails leaves the session with its connection; the stamp may have been changed already.
  predicate FailsToClose(s: Pool, s': Pool, c: Closed) {
    && Touches(s, s', c) && c.checked && !c.released
    && s'.idle == s.idle && s'.dropped == s.dropped
  }

  // What a close that reaches the release makes of the stamp.
  predicate Restamps(p: Params, stamp: Option<int>, c: Closed) {
    var bad := c.drop || c.known || IsGone(c.calls.server);
    var found := c.calls.context.Done? && stamp.Some?;
    if !(p.open && c.calls.sessionHandle) then c.stamp == Kept && c.dead == bad
    else
      && (c.checked ==> c.calls.context.Done? && (stamp.Some? || bad || c.calls.memory.Done?))
      && (c.dead <==> bad || (!found && c.checked && Kills(c.calls.stored)))
      && c.stamp == if found then if !bad then Set else if c.calls.stored.Done? then Cleared else Kept
                    else if bad || c.calls.stored.Refused? then Kept
                    else if c.calls.memory.Done? then Set else Cleared
  }

  lemma RestampsOk(p: Params, stamp: Option<int>, c: Closed)
    requires Restamps(p, stamp, c)
    ensures DeadOk(c) && StampOk(p, stamp, c)
  {
  }

  // The stamp after such a close: the time of the close, unless the session is dead, the stamp could not be looked up
  // or the new one could not be stored.
  lemma StampLeft(p: Params, r: Session, c: Closed)
    requires Restamps(p, r.stamp, c)
    ensures var bad := c.drop || c.known || IsGone(c.calls.server);
            var touched := p.open && c.calls.sessionHandle;
            var found := c.calls.context.Done? && r.stamp.Some?;
            Restamped(r, c).stamp == if !touched || (found && bad && c.calls.stored.Refused?) then r.stamp
                                     else if found then if bad then None else Some(c.calls.now)
                                     else if bad || c.calls.stored.Refused? then r.stamp
                                     else if c.calls.memory.Done? then Some(c.calls.now) else None
  {
  }

  lemma ClosesOk(p: Params, s: Pool, s': Pool, c: Closed)
    requires PoolOk(s) && c.id in s.sessions && c.id !in s.idle && c.id !in s.dropped
    requires Restamps(p, s.sessions[c.id].stamp, c) && c.released == c.calls.release.Done? && (c.checked ==> c.released)
    requires s' == Pool(s.sessions[c.id := Restamped(s.sessions[c.id], c)],
                        if c.released && !c.dead then s.idle + {c.id} else s.idle,
                        if c.released && c.dead then s.dropped + {c.id} else s.dropped)
    ensures Closes(p, s, s', c)
  {
    RestampsOk(p, s.sessions[c.id].stamp, c);
  }

  // ---- the pool and connections that use it ----

  datatype Gift = Refusal | Idle(id: Id) | Fresh(id: Id, timeout: int, breaks: int)

  // What OCI answers in one round of acquiring: a session, its handles, its context, setting an attribute, the
  // time, and the ping.
  datatype Answers = Answers(gift: Gift, handles: bool, context: bool, attribute: bool, now: int, code: Option<int>)

  class SharedPool {
    const params: Params
    var sessions: map<Id, Session>
    var idle: set<Id>
    var dropped: set<Id>

    function State(): Pool
      reads this
    {
      Pool(sessions, idle, dropped)
    }

    ghost predicate Valid()
      reads this
    {
      PoolOk(State())
    }

    constructor (p: Params)
      ensures Valid() && params == p && sessions == map[] && idle == {} && dropped == {}
    {
      params := p;
      sessions, idle, dropped := map[], {}, {};
    }

    // OCI gives out an idle session or creates one, or refuses to; it gives out no other.
    method SessionGet(gift: Gift) returns (r: Option<Id>)
      requires Valid()
      modifies this
      ensures Valid()
      ensures Acquires(params, old(State()), State(), Acquired(map[], r, None))
      ensures match gift {
                case Refusal => r == None
                case Idle(i) => r == if i in old(idle) then Some(i) else None
                case Fresh(i, _, _) => r == if i in old(sessions) then None else Some(i)
              }
    {
      match gift
      case Refusal =>
        return None;
      case Idle(i) =>
        if i !in idle {
          return None;
        }
        idle := idle - {i};
        return Some(i);
      case Fresh(i, timeout, breaks) =>
        if i in sessions {
          return None;
        }
        sessions := sessions[i := Session(None, timeout, breaks)];
        return Some(i);
    }

    // A session is released, and dropped if so asked.
    method SessionRelease(i: Id, drop: bool)
      requires Valid() && i in sessions && i !in idle && i !in dropped
      modifies this
      ensures Valid() && sessions == old(sessions)
      ensures if drop then dropped == old(dropped) + {i} && idle == old(idle)
              else dropped == old(dropped) && idle == old(idle) + {i}
    {
      if drop {
        dropped := dropped + {i};
      } else {
        idle := idle + {i};
      }
    }
  }

  // ---- the acquisition loop ----

  // One round after others, which found only bad sessions.
  lemma Compose(p: Params, s0: Pool, s1: Pool, s2: Pool, failed: map<Id, PingAnswer>, a: Acquired, all: Acquired)
    requires Acquires(p, s0, s1, Acquired(failed, None, None)) && Acquires(p, s1, s2, a)
    requires all == a.(failed := failed + a.failed)
    ensures Acquires(p, s0, s2, all) && failed.Keys !! a.failed.Keys
  {
  }

  // How a session is handed out does not depend on the sessions dropped before.
  lemma HandsOutAfter(p: Params, s': Pool, a: Acquired, all: Acquired)
    requires all == a.(failed := all.failed)
    ensures HandsOut(p, s', all) <==> HandsOut(p, s', a)
  {
  }

  // A session whose ping failed is dropped, whatever became of its network settings.
  lemma DropBad(p: Params, s0: Pool, s1: Pool, s2: Pool, i: Id, changed: Session, ping: PingAnswer)
    requires Acquires(p, s0, s1, Acquired(map[], Some(i), None)) && s1.sessions[i].stamp.Some?
    requires s2 == Pool(s1.sessions[i := changed], s1.idle, s1.dropped + {i})
    requires IsStale(p, s1.sessions[i].stamp.value, ping.now) && ping.code.Some? && ping.code.value != 1010
    ensures Acquires(p, s0, s2, Acquired(map[i := ping], None, None))
  {
  }

  lemma FewerStamped(p: Params, s1: Pool, s2: Pool, a: Acquired, i: Id)
    requires Acquires(p, s1, s2, a) && i in a.failed
    ensures Stamped(s2) < Stamped(s1)
  {
    assert i !in Stamped(s2);
  }

  lemma {:induction false} SmallerSet(a: set<Id>, b: set<Id>)
    requires a <= b
    ensures |a| <= |b|
  {
    if a != {} {
      var x :| x in a;
      SmallerSet(a - {x}, b - {x});
    }
  }

  datatype Verdict = Failed(isNew: bool) | New | Recent | Answered | Bad

  // What the answers say about a session that OCI gave out.
  function VerdictOf(p: Params, stamp: Option<int>, n: Answers): Verdict {
    if !n.handles || !n.context then Failed(false)
    else if stamp.None? then if n.attribute then New else Failed(true)
    else if !IsStale(p, stamp.value, n.now) then Recent
    else if n.code.None? || n.code.value == 1010 then Answered
    else Bad
  }

  // How a session is handed out.
  function HandedAs(i: Id, v: Verdict, n: Answers): Option<Handed> {
    if v.New? || v.Recent? || v.Answered? then Some(Handed(i, v.New?, v.Answered?, PingAnswer(n.now, n.code))) else None
  }

  // The session that OCI gives out: one that is idle, or one that is new.
  function Given(s: Pool, gift: Gift): Option<Id> {
    match gift
    case Refusal => None
    case Idle(i) => if i in s.idle then Some(i) else None
    case Fresh(i, _, _) => if i in s.sessions then None else Some(i)
  }

  // A round drops the session that OCI gave out, or ends the loop.
  predicate RoundEnds(p: Params, s: Pool, s': Pool, n: Answers, v: Verdict, a: Acquired, given: Id) {
    if v.Bad? then a == Acquired(map[given := PingAnswer(n.now, n.code)], None, None) && Given(s, n.gift) == Some(given)
    else
      && a.failed == map[] && a.taken == Given(s, n.gift)
      && (a.taken.None? ==> v == Failed(false) && a.handed.None?)
      && (a.taken.Some? ==>
            && a.taken.value in s'.sessions && v == VerdictOf(p, s'.sessions[a.taken.value].stamp, n)
            && a.handed == HandedAs(a.taken.value, v, n))
  }

  // The sessions that the rounds so far gave and dropped.
  predicate Rejected(answers: nat -> Answers, given: seq<Id>, failed: map<Id, PingAnswer>) {
    && |given| == |failed.Keys| && failed.Keys == (set i | i in given)
    && (forall k :: 0 <= k < |given| ==>
          && given[k] in failed && failed[given[k]] == PingAnswer(answers(k).now, answers(k).code)
          && answers(k).gift == Idle(given[k]))
  }

  lemma RejectOne(answers: nat -> Answers, given: seq<Id>, failed: map<Id, PingAnswer>, i: Id, more: map<Id, PingAnswer>)
    requires Rejected(answers, given, failed) && i !in failed && answers(|given|).gift == Idle(i)
    requires more == map[i := PingAnswer(answers(|given|).now, answers(|given|).code)]
    ensures Rejected(answers, given + [i], failed + more)
  {
    var all := failed + more;
    assert all.Keys == failed.Keys + {i};
    forall k | 0 <= k < |given| + 1
      ensures (given + [i])[k] in all && all[(given + [i])[k]] == PingAnswer(answers(k).now, answers(k).code)
      ensures answers(k).gift == Idle((given + [i])[k])
    {
      if k < |given| {
        assert given[k] in failed && given[k] != i;
      }
    }
  }

  // What holds between rounds: only sessions whose ping failed were given, and they are dropped.
  predicate AllBad(p: Params, s0: Pool, s1: Pool, answers: nat -> Answers, given: seq<Id>, failed: map<Id, PingAnswer>) {
    Acquires(p, s0, s1, Acquired(failed, None, None)) && Rejected(answers, given, failed)
  }

  lemma OneMoreBad(p: Params, s0: Pool, s1: Pool, s2: Pool, answers: nat -> Answers, given: seq<Id>,
                   failed: map<Id, PingAnswer>, a: Acquired, i: Id)
    requires AllBad(p, s0, s1, answers, given, failed) && Acquires(p, s1, s2, a)
    requires RoundEnds(p, s1, s2, answers(|given|), Bad, a, i)
    ensures AllBad(p, s0, s2, answers, given + [i], failed + a.failed)
    ensures Stamped(s2) < Stamped(s1)
  {
    var all := a.(failed := failed + a.failed);
    Compose(p, s0, s1, s2, failed, a, all);
    FewerStamped(p, s1, s2, a, i);
    assert i in a.failed && i in s1.idle;
    RejectOne(answers, given, failed, i, a.failed);
  }

  // How the last round ends the loop.
  predicate Ends(p: Params, s': Pool, n: Answers, v: Verdict, a: Acquired) {
    && (!v.Failed? <==> a.taken.Some? && a.taken.value in s'.sessions && n.handles && n.context
                        && (s'.sessions[a.taken.value].stamp.None? ==> n.attribute))
    && (v.Failed? ==> a.handed.None?)
    && (!v.Failed? ==>
          HandsOut(p, s', a) && a.handed.value.ping == PingAnswer(n.now, n.code) && a.handed.value.isNew == v.New?)
  }

  lemma LastRound(p: Params, s0: Pool, s1: Pool, s2: Pool, answers: nat -> Answers, given: seq<Id>,
                  failed: map<Id, PingAnswer>, v: Verdict, a: Acquired, i: Id, all: Acquired)
    requires AllBad(p, s0, s1, answers, given, failed) && Acquires(p, s1, s2, a)
    requires RoundEnds(p, s1, s2, answers(|given|), v, a, i) && !v.Bad? && all == a.(failed := failed)
    ensures Acquires(p, s0, s2, all) && Ends(p, s2, answers(|given|), v, all)
    ensures all.taken == match answers(|given|).gift {
                           case Refusal => None
                           case Idle(g) => if g in s0.idle && g !in given then Some(g) else None
                           case Fresh(g, _, _) => if g in s0.sessions then None else Some(g)
                         }
    ensures forall k :: 0 <= k < |given| ==> answers(k).code.Some? && answers(k).code.value != 1010
  {
    NoMoreBad(failed, a.failed);
    Compose(p, s0, s1, s2, failed, a, all);
    LastVerdict(p, s1, s2, answers(|given|), v, a, i);
    HandsOutAfter(p, s2, a, all);
    RejectedCodes(p, s0, s1, answers, given, failed);
  }

  lemma NoMoreBad(failed: map<Id, PingAnswer>, none: map<Id, PingAnswer>)
    requires none == map[]
    ensures failed + none == failed
  {
  }

  lemma RejectedCodes(p: Params, s0: Pool, s1: Pool, answers: nat -> Answers, given: seq<Id>,
                      failed: map<Id, PingAnswer>)
    requires Acquires(p, s0, s1, Acquired(failed, None, None)) && Rejected(answers, given, failed)
    ensures forall k :: 0 <= k < |given| ==> answers(k).code.Some? && answers(k).code.value != 1010
  {
    forall k | 0 <= k < |given| ensures answers(k).code.Some? && answers(k).code.value != 1010 {
      assert given[k] in failed;
    }
  }

  lemma LastVerdict(p: Params, s: Pool, s': Pool, n: Answers, v: Verdict, a: Acquired, given: Id)
    requires RoundEnds(p, s, s', n, v, a, given) && !v.Bad?
    ensures Ends(p, s', n, v, a)
  {
  }

  class Connection {
    var session: Option<Id>
    var dead: bool

    constructor ()
      ensures session == None && !dead
    {
      session, dead := None, false;
    }

    // The ping itself, which takes place while the network settings are changed. It fails unless OCI reports no
    // error, or the error of servers too old to know about pings.
    static method Ping(pool: SharedPool, i: Id, code: Option<int>) returns (ok: bool)
      requires i in pool.sessions && pool.sessions[i].timeout == pool.params.pingTimeout
      requires pool.params.version >= 12 ==> pool.sessions[i].breaks == 0
      ensures ok <==> code == None || code == Some(1010)
    {
      ok := code.None? || code.value == 1010;
    }

    // Ping the session with its network settings changed for a while: no other session is touched, and
    // after a successful ping neither is this one.
    method PingQuickly(pool: SharedPool, i: Id, code: Option<int>) returns (ok: bool)
      requires i in pool.sessions
      modifies pool`sessions
      ensures ok <==> code == None || code == Some(1010)
      ensures ok ==> pool.sessions == old(pool.sessions)
      ensures !ok ==>
                var r := old(pool.sessions[i]).(timeout := pool.params.pingTimeout);
                pool.sessions == old(pool.sessions)[i := if pool.params.version >= 12 then r.(breaks := 0) else r]
    {
      var savedTimeout, savedBreaks := pool.sessions[i].timeout, 0;
      pool.sessions := pool.sessions[i := pool.sessions[i].(timeout := pool.params.pingTimeout)];
      if pool.params.version >= 12 {
        savedBreaks := pool.sessions[i].breaks;
        pool.sessions := pool.sessions[i := pool.sessions[i].(breaks := 0)];
      }
      ok := Ping(pool, i, code);
      if ok {
        pool.sessions := pool.sessions[i := pool.sessions[i].(timeout := savedTimeout)];
        if pool.params.version >= 12 {
          pool.sessions := pool.sessions[i := pool.sessions[i].(breaks := savedBreaks)];
        }
        assert pool.sessions[i] == old(pool.sessions[i]);
      }
    }

    // Whether a session that OCI gave out can be handed out.
    method Examine(pool: SharedPool, i: Id, n: Answers) returns (v: Verdict)
      requires i in pool.sessions
      modifies pool`sessions
      ensures v == VerdictOf(pool.params, old(pool.sessions[i]).stamp, n)
      ensures pool.sessions.Keys == old(pool.sessions).Keys
      ensures if v == Bad then pool.sessions == old(pool.sessions)[i := pool.sessions[i]]
              else pool.sessions == old(pool.sessions)
    {
      if !n.handles || !n.context {
        return Failed(false);
      }
      var stamp := pool.sessions[i].stamp;
      if stamp == None {
        return if n.attribute then New else Failed(true);
      }
      if pool.params.pingInterval < 0 || stamp.value + pool.params.pingInterval > n.now {
        return Recent;
      }
      var alive := PingQuickly(pool, i, n.code);
      return if alive then Answered else Bad;
    }

    // One round of the loop: a session is handed out, or something fails, or a bad session is dropped.
    method Round(pool: SharedPool, n: Answers) returns (v: Verdict, ghost a: Acquired, ghost given: Id)
      requires pool.Valid() && session == None && !dead
      modifies this, pool
      ensures pool.Valid() && Acquires(pool.params, old(pool.State()), pool.State(), a) && session == a.taken && !dead
      ensures RoundEnds(pool.params, old(pool.State()), pool.State(), n, v, a, given)
    {
      session := pool.SessionGet(n.gift);
      if session == None {
        a := Acquired(map[], None, None);
        return Failed(false), a, 0;
      }
      given := session.value;
      v, a := Judge(pool, n, old(pool.State()));
    }

    // What becomes of the session that OCI gave out.
    method Judge(pool: SharedPool, n: Answers, ghost before: Pool) returns (v: Verdict, ghost a: Acquired)
      requires pool.Valid() && session.Some? && !dead
      requires Acquires(pool.params, before, pool.State(), Acquired(map[], session, None))
      modifies this, pool
      ensures pool.Valid() && Acquires(pool.params, before, pool.State(), a) && session == a.taken && !dead
      ensures v == VerdictOf(pool.params, old(pool.sessions[session.value]).stamp, n)
      ensures if v == Bad then a == Acquired(map[old(session).value := PingAnswer(n.now, n.code)], None, None)
              else a == Acquired(map[], old(session), HandedAs(old(session).value, v, n)) && pool.sessions == old(pool.sessions)
    {
      a := Acquired(map[], session, None);
      var i := session.value;
      ghost var s1 := pool.State();
      v := Examine(pool, i, n);
      if v == Bad {
        ghost var ping := PingAnswer(n.now, n.code);
        a := Acquired(map[i := ping], None, None);
        DropBad(pool.params, before, s1, Pool(pool.sessions, pool.idle, pool.dropped + {i}), i, pool.sessions[i], ping);
        pool.SessionRelease(i, true);
        session := None;
        dead := false;
      } else {
        a := a.(handed := HandedAs(i, v, n));
      }
    }

    // OCI answers in each round what it likes. All rounds but the last one gave a session that was due for a
    // ping and did not answer it; it was dropped. In the last round, acquiring succeeds exactly if OCI gives a
    // session, which is the one that is taken then, with its handles and its context and, for a new one, sets its
    // attribute.
    method GetSession(pool: SharedPool, answers: nat -> Answers)
        returns (ok: bool, isNew: bool, ghost a: Acquired, ghost given: seq<Id>)
      requires pool.Valid() && session == None && !dead
      modifies this, pool
      ensures pool.Valid() && Acquires(pool.params, old(pool.State()), pool.State(), a) && session == a.taken && !dead
      // at most one round more than there are idle sessions with a stamp
      ensures |given| <= |Stamped(old(pool.State()))| && Rejected(answers, given, a.failed)
      ensures forall k :: 0 <= k < |given| ==>
                given[k] in pool.dropped && answers(k).gift == Idle(given[k]) && answers(k).code != None && answers(k).code != Some(1010)
      ensures session == match answers(|given|).gift {
                           case Refusal => None
                           case Idle(i) => if i in old(pool.idle) && i !in given then Some(i) else None
                           case Fresh(i, _, _) => if i in old(pool.sessions) then None else Some(i)
                         }
      ensures var n := answers(|given|);
              && (ok <==> session.Some? && n.handles && n.context
                          && (pool.sessions[session.value].stamp == None ==> n.attribute))
              && (ok ==> HandsOut(pool.params, pool.State(), a) && a.handed.value.ping == PingAnswer(n.now, n.code)
                         && isNew == a.handed.value.isNew)
      ensures !ok ==> a.handed == None
    {
      ghost var failed: map<Id, PingAnswer> := map[];
      var rounds: nat := 0;
      given := [];
      while true
        invariant pool.Valid() && session == None && !dead && rounds == |given|
        invariant AllBad(pool.params, old(pool.State()), pool.State(), answers, given, failed)
        decreases Stamped(pool.State())
      {
        ghost var before := pool.State();
        SmallerSet(failed.Keys, Stamped(old(pool.State())));
        var v;
        ghost var i;
        v, a, i := Round(pool, answers(rounds));
        if v != Bad {
          ghost var all := a.(failed := failed);
          LastRound(pool.params, old(pool.State()), before, pool.State(), answers, given, failed, v, a, i, all);
          a := all;
          return !v.Failed?, v == New || v == Failed(true), a, given;
        }
        OneMoreBad(pool.params, old(pool.State()), before, pool.State(), answers, given, failed, a, i);
        failed, given, rounds := failed + a.failed, given + [i], rounds + 1;
      }
    }

    // The part of a close that is about the session of a pooled connection. The session is dropped if the
    // caller asks for it, if it is known to be dead, or if its server is not normal, and given back otherwise. A
    // close that checks for errors ends with the first, except that of storing a new stamp, after which the
    // session is only dropped if the error says that it is dead.
    method Close(pool: SharedPool, drop: bool, checked: bool, calls: Calls) returns (ok: bool, ghost c: Closed)
      requires pool.Valid() && session.Some?
      requires session.value in pool.sessions && session.value !in pool.idle && session.value !in pool.dropped
      modifies this, pool
      ensures pool.Valid() && c.id == old(session.value) && c.drop == drop && c.known == old(dead)
      ensures c.checked == checked && c.calls == calls && dead == c.dead && c.released == (ok && calls.release.Done?)
      ensures ok ==> session == None && Closes(pool.params, old(pool.State()), pool.State(), c)
                     && Restamps(pool.params, old(pool.sessions[session.value]).stamp, c)
      ensures ok && calls.release.Done? ==> if dead then c.id in pool.dropped else c.id in pool.idle
      ensures !ok ==> session == old(session) && FailsToClose(old(pool.State()), pool.State(), c)
      ensures var bad := drop || old(dead) || calls.server.NoAnswer? || (calls.server.Status? && calls.server.code != 1);
              var touched := pool.params.open && calls.sessionHandle;
              var stamp := old(pool.sessions[session.value]).stamp;
              var found := calls.context.Done? && stamp.Some?;
              var stores := touched && !bad && !found;
              && (ok <==> !checked
                          || ((touched ==> calls.context.Done?) && (stores ==> calls.memory.Done?)
                              && calls.release.Done?))
              && (ok ==> (dead <==> bad || (stores && checked && calls.stored.Refused? && calls.stored.kills)))
    {
      var i := session.value;
      ghost var s := pool.State();
      var bad := drop || dead || calls.server.NoAnswer? || (calls.server.Status? && calls.server.code != 1);
      c := Closed(i, drop, dead, checked, calls, bad, Kept, false);
      dead := bad;
      if pool.params.open && calls.sessionHandle {
        ok, c := UpdateStamp(pool, i, checked, calls, c);
        if !ok {
          return;
        }
      }
      ok, c := Release(pool, checked, calls, s, c);
    }

    // The stamp, if there is a session handle and the pool is not being closed.
    method UpdateStamp(pool: SharedPool, i: Id, checked: bool, calls: Calls, ghost before: Closed)
        returns (ok: bool, ghost c: Closed)
      requires i in pool.sessions && pool.params.open && calls.sessionHandle
      requires before.calls == calls && before.checked == checked && before.dead == dead && before.stamp == Kept
      requires dead == (before.drop || before.known || IsGone(calls.server))
      modifies `dead, pool`sessions
      ensures c == before.(dead := dead, stamp := c.stamp) && DeadOk(c)
      ensures pool.sessions == old(pool.sessions)[i := Restamped(old(pool.sessions[i]), c)]
      ensures !ok <==> checked && (calls.context.Refused? || (old(pool.sessions[i]).stamp.None? && !old(dead) && calls.memory.Refused?))
      ensures ok ==> Restamps(pool.params, old(pool.sessions[i]).stamp, c)
    {
      var stamp := pool.sessions[i].stamp;
      var change;
      ok, dead, change := ChangeOfStamp(stamp, dead, checked, calls);
      c := before.(dead := dead, stamp := change);
      stamp := match change
               case Kept => stamp
               case Cleared => None
               case Set => Some(calls.now);
      pool.sessions := pool.sessions[i := pool.sessions[i].(stamp := stamp)];
    }

    // The session itself, whose stamp has been dealt with.
    method Release(pool: SharedPool, checked: bool, calls: Calls, ghost s: Pool, ghost before: Closed)
        returns (ok: bool, ghost c: Closed)
      requires PoolOk(s) && session == Some(before.id) && before.id in s.sessions
      requires before.id !in s.idle && before.id !in s.dropped
      requires before.calls == calls && before.checked == checked && before.dead == dead && !before.released
      requires Restamps(pool.params, s.sessions[before.id].stamp, before)
      requires pool.State() == Pool(s.sessions[before.id := Restamped(s.sessions[before.id], before)], s.idle, s.dropped)
      modifies this, pool
      ensures pool.Valid() && c == before.(dead := dead, released := ok && calls.release.Done?)
      ensures ok <==> !checked || calls.release.Done?
      ensures ok ==> session == None && Closes(pool.params, s, pool.State(), c) && dead == old(dead)
                     && Restamps(pool.params, s.sessions[c.id].stamp, c)
      ensures !ok ==> session == old(session) && FailsToClose(s, pool.State(), c)
      ensures pool.sessions == old(pool.sessions)
    {
      RestampsOk(pool.params, s.sessions[before.id].stamp, before);
      if calls.release.Refused? && checked {
        dead := dead || calls.release.kills;
        return false, before.(dead := dead);
      }
      c := before.(released := calls.release.Done?);
      if calls.release.Done? {
        pool.SessionRelease(session.value, dead);
      }
      session := None;
      ok := true;
      ClosesOk(pool.params, s, pool.State(), c);
    }

    // The memory that holds the stamp, as far as OCI gives it out, is cleared, allocated or updated.
    static method ChangeOfStamp(stamp: Option<int>, bad: bool, checked: bool, calls: Calls)
        returns (ok: bool, dead: bool, change: Change)
      ensures !ok <==> checked && (calls.context.Refused? || (stamp.None? && !bad && calls.memory.Refused?))
      ensures !ok ==> change == Kept
                      && (dead <==> bad || if calls.context.Refused? then calls.context.kills else calls.memory.kills)
      ensures var found := calls.context.Done? && stamp.Some?;
              ok ==>
                && (dead <==> bad || (!found && checked && calls.stored.Refused? && calls.stored.kills))
                && change == if found then if !bad then Set else if calls.stored.Done? then Cleared else Kept
                             else if bad || calls.stored.Refused? then Kept
                             else if calls.memory.Done? then Set else Cleared
    {
      ok, dead, change := true, bad, Kept;
      if calls.context.Refused? && checked {
        return false, bad || calls.context.kills, change;
      }
      var found := calls.context.Done? && stamp.Some?;
      if found && bad {
        change := if calls.stored.Done? then Cleared else Kept;
      } else if !found && !bad {
        if calls.memory.Refused? && checked {
          return false, calls.memory.kills, change;
        }
        if calls.stored.Done? {
          change := if calls.memory.Done? then Set else Cleared;
        } else if checked {
          dead := calls.stored.kills;
        }
      } else if found {
        change := Set;
      }
    }
  }

  // ---- runs ----

  datatype Step = Acquire(a: Acquired) | Close(c: Closed) | FailedClose(c: Closed)

  predicate StepOk(p: Params, s: Pool, s': Pool, step: Step) {
    match step
    case Acquire(a) => Acquires(p, s, s', a) && (a.handed.Some? ==> HandsOut(p, s', a))
    case Close(c) => Closes(p, s, s', c)
    case FailedClose(c) => FailsToClose(s, s', c)
  }

  predicate Takes(step: Step, i: Id) {
    step.Acquire? && step.a.taken == Some(i)
  }

  predicate IsClosing(step: Step, i: Id) {
    !step.Acquire? && step.c.id == i
  }

  // A connection remembers that its session is dead when it closes it again, which it does only after a close
  // that failed.
  predicate Remembers(steps: seq<Step>, j: nat, k: nat, i: Id)
    requires j < k < |steps|
  {
    (&& IsClosing(steps[j], i) && !steps[j].c.released && IsClosing(steps[k], i)
     && forall m :: j < m < k ==> !Takes(steps[m], i)) ==>
        steps[j].FailedClose? && (steps[j].c.dead ==> steps[k].c.known)
  }

  // Acquires and closes by any number of connections, in any order, while the pool is open; closes that
  // fail can be tried again.
  ghost predicate IsRun(p: Params, ss: seq<Pool>, steps: seq<Step>) {
    && p.open && |ss| == |steps| + 1 && ss[0] == Pool(map[], {}, {})
    && (forall k :: 0 <= k < |steps| ==> StepOk(p, ss[k], ss[k + 1], steps[k]))
    && (forall j, k, i :: 0 <= j < k < |steps| ==> Remembers(steps, j, k, i))
  }

  // The last close of a session, and the stamp that closes have left.
  function LastClose(steps: seq<Step>, i: Id): Option<Closed> {
    if steps == [] then None
    else
      var last := steps[|steps| - 1];
      if IsClosing(last, i) then Some(last.c) else LastClose(steps[..|steps| - 1], i)
  }

  function LastStamp(steps: seq<Step>, i: Id): Option<int> {
    if steps == [] then None
    else
      var last, before := steps[|steps| - 1], LastStamp(steps[..|steps| - 1], i);
      if !IsClosing(last, i) then before
      else match last.c.stamp
           case Kept => before
           case Cleared => None
           case Set => Some(last.c.calls.now)
  }

  // Every session that was not dropped has the stamp that closes have left.
  ghost predicate StampsTell(s: Pool, steps: seq<Step>) {
    && PoolOk(s)
    && (forall i :: i in s.sessions && i !in s.dropped ==> s.sessions[i].stamp == LastStamp(steps, i))
    && (forall i :: i !in s.sessions ==> LastStamp(steps, i) == None)
  }

  lemma StepTells(p: Params, s: Pool, s': Pool, steps: seq<Step>, step: Step)
    requires StampsTell(s, steps) && StepOk(p, s, s', step)
    ensures StampsTell(s', steps + [step])
  {
    assert (steps + [step])[..|steps|] == steps;
    forall i | i in s'.sessions && i !in s'.dropped
      ensures s'.sessions[i].stamp == LastStamp(steps + [step], i)
    {
      if i in s.sessions {
        assert s.sessions[i].stamp == LastStamp(steps, i);
      } else {
        assert LastStamp(steps, i) == None;
      }
    }
    forall i | i !in s'.sessions
      ensures LastStamp(steps + [step], i) == None
    {
      assert LastStamp(steps, i) == None;
    }
  }

  lemma {:induction false} StampsAlwaysTell(p: Params, ss: seq<Pool>, steps: seq<Step>, k: nat)
    requires IsRun(p, ss, steps) && k < |ss|
    ensures StampsTell(ss[k], steps[..k])
  {
    if k > 0 {
      StampsAlwaysTell(p, ss, steps, k - 1);
      assert StepOk(p, ss[k - 1], ss[k - 1 + 1], steps[k - 1]);
      StepTells(p, ss[k - 1], ss[k], steps[..k - 1], steps[k - 1]);
      assert steps[..k] == steps[..k - 1] + [steps[k - 1]];
    }
  }

  // The last close of an idle session gave it back, and if it checked for errors and had the session handle, the
  // stamp, if there is one, is of its time.
  predicate IdleTells(s: Pool, steps: seq<Step>, i: Id)
    requires i in s.sessions
  {
    var c, stamp := LastClose(steps, i), s.sessions[i].stamp;
    && c.Some? && c.value.released && !c.value.dead
    && (c.value.stamp == Set ==> stamp == Some(c.value.calls.now))
    && (c.value.stamp == Cleared ==> stamp == None)
    && (c.value.checked && c.value.calls.sessionHandle && stamp.Some? ==> c.value.stamp == Set)
  }

  lemma IdleStepTells(p: Params, s: Pool, s': Pool, steps: seq<Step>, step: Step, i: Id)
    requires p.open && StepOk(p, s, s', step) && i in s'.idle
    requires i in s.idle ==> IdleTells(s, steps, i)
    ensures IdleTells(s', steps + [step], i)
  {
    assert (steps + [step])[..|steps|] == steps;
  }

  // If the last close of an idle session checked for errors, or the stamp was set by it, the stamp is of the
  // time it was last closed; a connection that was ever handed out has its session handle.
  lemma {:induction false} StampIsLastClose(p: Params, ss: seq<Pool>, steps: seq<Step>, k: nat, i: Id)
    requires IsRun(p, ss, steps) && k < |ss| && i in ss[k].idle
    ensures PoolOk(ss[k]) && IdleTells(ss[k], steps[..k], i)
  {
    if k > 0 {
      assert StepOk(p, ss[k - 1], ss[k - 1 + 1], steps[k - 1]);
      if i in ss[k - 1].idle {
        StampIsLastClose(p, ss, steps, k - 1, i);
      }
      IdleStepTells(p, ss[k - 1], ss[k], steps[..k - 1], steps[k - 1], i);
      assert steps[..k] == steps[..k - 1] + [steps[k - 1]];
    }
  }

  // Otherwise it need not be: a session that was closed at ten is handed out again, and freed with its
  // connection at fifty, when OCI gives out neither the stamp nor memory for another.
  lemma OldStampStays()
    ensures var p := Params(60, 1, 12, true);
            var r := Session(None, 0, 0);
            var good := Calls(Status(1), true, Done, Done, Done, Done, 10);
            var poor := Calls(Status(1), true, Refused(false), Refused(false), Refused(false), Done, 50);
            var first, second := Closed(0, false, false, true, good, false, Set, true), Closed(0, false, false, false, poor, false, Kept, true);
            var held, idle := Pool(map[0 := r.(stamp := Some(10))], {}, {}), Pool(map[0 := r.(stamp := Some(10))], {0}, {});
            && IsRun(p, [Pool(map[], {}, {}), Pool(map[0 := r], {}, {}), idle, held, idle],
                     [Acquire(Acquired(map[], Some(0), Some(Handed(0, true, false, PingAnswer(0, None))))), Close(first),
                      Acquire(Acquired(map[], Some(0), Some(Handed(0, false, false, PingAnswer(20, None))))), Close(second)])
  {
  }

  // A session handed out without a ping has no stamp, or was stamped by a close less than pingInterval seconds
  // before, or the interval is negative.
  lemma UnpingedIsRecent(p: Params, ss: seq<Pool>, steps: seq<Step>, k: nat)
    requires IsRun(p, ss, steps) && k < |steps| && steps[k].Acquire? && steps[k].a.handed.Some?
    requires !steps[k].a.handed.value.pinged
    ensures var h := steps[k].a.handed.value;
            || ss[k + 1].sessions[h.id].stamp == None
            || p.pingInterval < 0
            || (LastStamp(steps[..k], h.id).Some? && h.ping.now - LastStamp(steps[..k], h.id).value < p.pingInterval)
  {
    StampsAlwaysTell(p, ss, steps, k);
    assert StepOk(p, ss[k], ss[k + 1], steps[k]);
  }

  // A session handed out has been pinged exactly if it has a stamp that closes have left and the interval, which is
  // not negative, has passed since. OCI reported no error then, or the one that servers too old for pings report.
  // The pings of the sessions that were dropped were due as well, and OCI reported other errors.
  lemma PingedExactly(p: Params, ss: seq<Pool>, steps: seq<Step>, k: nat, i: Id)
    requires IsRun(p, ss, steps) && k < |steps| && steps[k].Acquire?
    ensures var last := LastStamp(steps[..k], i);
            && (steps[k].a.handed.Some? && steps[k].a.handed.value.id == i ==>
                  var h := steps[k].a.handed.value;
                  && (h.pinged <==> last.Some? && p.pingInterval >= 0 && last.value + p.pingInterval <= h.ping.now)
                  && (h.pinged ==> h.ping.code == None || h.ping.code == Some(1010)))
            && (i in steps[k].a.failed ==>
                  var ping := steps[k].a.failed[i];
                  && last.Some? && p.pingInterval >= 0 && last.value + p.pingInterval <= ping.now
                  && ping.code != None && ping.code != Some(1010))
  {
    StampsAlwaysTell(p, ss, steps, k);
    assert StepOk(p, ss[k], ss[k + 1], steps[k]);
  }

  // A session is dropped only because its ping failed, or by a close that was asked to, or knew that the session
  // is dead, or found its server not normal, or got an error that says so.
  lemma DroppedForAReason(p: Params, ss: seq<Pool>, steps: seq<Step>, k: nat, i: Id)
    requires IsRun(p, ss, steps) && k < |steps| && i !in ss[k].dropped && i in ss[k + 1].dropped
    ensures !steps[k].FailedClose?
    ensures steps[k].Acquire? ==> i in steps[k].a.failed
    ensures steps[k].Close? ==>
              var c := steps[k].c;
              && c.id == i
              && (|| c.drop || c.known || c.calls.server == NoAnswer || (c.calls.server.Status? && c.calls.server.code != 1)
                  || (c.checked && Refused(true) in {c.calls.context, c.calls.memory, c.calls.stored, c.calls.release}))
  {
    assert StepOk(p, ss[k], ss[k + 1], steps[k]);
  }

  // A session that was closed as dead, whether or not the close succeeded, or whose ping failed.
  predicate Condemns(step: Step, i: Id) {
    match step
    case Acquire(a) => i in a.failed
    case _ => step.c.id == i && step.c.dead
  }

  // Such a session is with its connection, which remembers it, or dropped.
  predicate KeptAway(s: Pool, i: Id) {
    i in s.sessions && i !in s.idle
  }

  lemma CondemnedIsKeptAway(p: Params, s: Pool, s': Pool, step: Step, i: Id)
    requires StepOk(p, s, s', step) && Condemns(step, i)
    ensures KeptAway(s', i) && (i in s'.dropped || (IsClosing(step, i) && !step.c.released))
  {
  }

  lemma StaysAway(p: Params, s: Pool, s': Pool, step: Step, i: Id)
    requires StepOk(p, s, s', step) && KeptAway(s, i)
    requires i in s.dropped || (step.Close? && step.c.id == i ==> step.c.dead)
    ensures KeptAway(s', i) && (i in s.dropped ==> i in s'.dropped)
    ensures !Takes(step, i) && (step.Acquire? ==> i !in step.a.failed)
  {
  }

  lemma {:induction false} CondemnedStays(p: Params, ss: seq<Pool>, steps: seq<Step>, j: nat, k: nat, i: Id)
    requires IsRun(p, ss, steps) && j < k < |ss| && Condemns(steps[j], i)
    ensures KeptAway(ss[k], i) && (i in ss[k].dropped || (IsClosing(steps[j], i) && !steps[j].c.released))
    ensures forall m :: j < m < k ==> !Takes(steps[m], i)
    decreases k
  {
    assert StepOk(p, ss[k - 1], ss[k - 1 + 1], steps[k - 1]);
    if k == j + 1 {
      CondemnedIsKeptAway(p, ss[j], ss[k], steps[j], i);
    } else {
      CondemnedStays(p, ss, steps, j, k - 1, i);
      assert Remembers(steps, j, k - 1, i);
      StaysAway(p, ss[k - 1], ss[k], steps[k - 1], i);
    }
  }

  // A session whose ping failed, or of which a close was asked to drop it, knew that it is dead, or found its server
  // not normal, is never handed out again, whether or not that close succeeded.
  lemma DeadStaysAway(p: Params, ss: seq<Pool>, steps: seq<Step>, j: nat, k: nat, i: Id)
    requires IsRun(p, ss, steps) && j < k < |steps| && steps[k].Acquire?
    requires match steps[j] {
               case Acquire(a) => i in a.failed
               case Close(c) => c.id == i && (c.drop || c.known || c.dead || c.calls.server == NoAnswer
                                              || (c.calls.server.Status? && c.calls.server.code != 1))
               case FailedClose(c) => c.id == i && (c.drop || c.known || c.dead || c.calls.server == NoAnswer
                                                    || (c.calls.server.Status? && c.calls.server.code != 1))
             }
    ensures steps[k].a.taken != Some(i) && i !in steps[k].a.failed
  {
    assert StepOk(p, ss[j], ss[j + 1], steps[j]);
    CondemnedStays(p, ss, steps, j, k, i);
    CondemnedStays(p, ss, steps, j, k + 1, i);
    assert StepOk(p, ss[k], ss[k + 1], steps[k]);
  }

  predicate Returns(step: Step, i: Id) {
    step.Close? && step.c.id == i && !step.c.dead && step.c.released
  }

  // A session is in the hands of one connection at a time: between two times it is handed out, it
  // was given back.
  lemma {:induction false} HeldStays(p: Params, ss: seq<Pool>, steps: seq<Step>, j: nat, k: nat, i: Id)
    requires IsRun(p, ss, steps) && j <= k < |ss| && i in ss[j].sessions && i !in ss[j].idle
    requires forall m :: j <= m < k ==> !Returns(steps[m], i)
    ensures i in ss[k].sessions && i !in ss[k].idle
    decreases k - j
  {
    if j < k {
      assert StepOk(p, ss[j], ss[j + 1], steps[j]);
      HeldStays(p, ss, steps, j + 1, k, i);
    }
  }

  lemma OneHolder(p: Params, ss: seq<Pool>, steps: seq<Step>, j: nat, k: nat, i: Id)
    requires IsRun(p, ss, steps) && j < k < |steps|
    requires steps[j].Acquire? && steps[j].a.taken == Some(i) && steps[k].Acquire? && steps[k].a.taken == Some(i)
    ensures exists m :: j < m < k && Returns(steps[m], i)
  {
    assert StepOk(p, ss[j], ss[j + 1], steps[j]) && StepOk(p, ss[k], ss[k + 1], steps[k]);
    if forall m :: j + 1 <= m < k ==> !Returns(steps[m], i) {
      HeldStays(p, ss, steps, j + 1, k, i);
    }
  }
}
