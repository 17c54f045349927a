/** Whole runs of the Redis-backed server: any interleaving of the critical sections of many
    sessions over many channels, with channels expiring and being created again. */
module RedisRuns {
  import opened FiniteSets
  import opened Messages
  import opened RedisSpec

  type ChanId = int

  /** A session has got its channel (Opened), replayed the backlog, been counted in, left its
      channel's map (Leaving, the first half of RemoveConn), and ended. */
  datatype Phase = Opened | Waiting | Counted | Leaving | Ended

  datatype Session = Session(key: string, chan: ChanId, mid: int, phase: Phase)

  /** `chans` are all channel objects ever made, `table` those that are not expired; `drift` counts
      the removals whose Redis command failed. */
  datatype World = World(
    table: map<string, ChanId>,
    chans: map<ChanId, Chan>,
    online: map<string, int>,
    drift: map<string, int>,
    sessions: map<ConnId, Session>)

  datatype Event =
    | CreateE(key: string, ch: ChanId)
    | ExpireE(key: string)
    | OpenE(c: ConnId, key: string, mid: int)
    | ReplayE(c: ConnId, reply: Reply, env: Env)
    | CountE(c: ConnId, up: bool)
    | LeaveE(c: ConnId)
    | UncountE(c: ConnId, up: bool)
    | PushE(ch: ChanId, id: int, accepts: ConnId -> bool)

  ghost predicate InPhase(w: World, c: ConnId, p: Phase) {
    c in w.sessions && w.sessions[c].phase == p && w.sessions[c].chan in w.chans
  }

  /** Redis answers with ascending ids above the cursor, in entries that decode. */
  ghost predicate MayReply(reply: Reply, mid: int) {
    reply.Backlog? ==> AscendsFrom(reply.entries, mid) && Decodes(reply.entries)
  }

  ghost predicate Enabled(w: World, e: Event) {
    match e
    case CreateE(key, ch) => key !in w.table && ch !in w.chans
    case ExpireE(key) => key in w.table
    case OpenE(c, key, mid) => c !in w.sessions && key in w.table
    case ReplayE(c, reply, env) => InPhase(w, c, Opened) && MayReply(reply, w.sessions[c].mid)
    case CountE(c, up) => InPhase(w, c, Waiting)
    case LeaveE(c) => InPhase(w, c, Counted)
    case UncountE(c, up) => InPhase(w, c, Leaving)
    case PushE(ch, id, accepts) => ch in w.chans
  }

  ghost function MoveTo(w: World, c: ConnId, ch: Chan, p: Phase): World
    requires c in w.sessions
  {
    var s := w.sessions[c];
    w.(chans := w.chans[s.chan := ch], sessions := w.sessions[c := s.(phase := p)])
  }

  ghost function Step(w: World, limit: int, e: Event): World
    requires Enabled(w, e)
  {
    match e
    case CreateE(key, ch) => w.(table := w.table[key := ch], chans := w.chans[ch := Chan(map[], map[])])
    case ExpireE(key) => w.(table := w.table - {key})
    case OpenE(c, key, mid) => w.(sessions := w.sessions[c := Session(key, w.table[key], mid, Opened)])
    case ReplayE(c, reply, env) =>
      var s := w.sessions[c];
      var (ch, err) := SendMsg(w.chans[s.chan], limit, c, s.mid, reply, env);
      MoveTo(w, c, ch, if err == NoError then Waiting else Ended)
    case CountE(c, up) =>
      var s := w.sessions[c];
      if up then MoveTo(w, c, w.chans[s.chan], Counted).(online := w.online[s.key := Count(w.online, s.key) + 1])
      else MoveTo(w, c, Unregister(w.chans[s.chan], c), Ended)
    case LeaveE(c) => MoveTo(w, c, Unregister(w.chans[w.sessions[c].chan], c), Leaving)
    case UncountE(c, up) =>
      var s := w.sessions[c];
      if up then MoveTo(w, c, w.chans[s.chan], Ended).(online := w.online[s.key := Count(w.online, s.key) - 1])
      else MoveTo(w, c, w.chans[s.chan], Ended).(drift := w.drift[s.key := Count(w.drift, s.key) + 1])
    case PushE(ch, id, accepts) => w.(chans := w.chans[ch := PushMsg(w.chans[ch], id, accepts)])
  }

  // ----- the invariant -----

  ghost predicate Registered(s: Session) {
    s.phase == Waiting || s.phase == Counted
  }

  /** What a session has been sent: ascending ids above its `mid`, the last of them its cursor. */
  ghost predicate Delivered(ch: Chan, c: ConnId, s: Session) {
    var ids := Log(ch, c);
    && Ascends(ids) && AllAbove(ids, s.mid)
    && (c in ch.cursor ==> ch.cursor[c] == LastOr(ids, s.mid))
    && (s.phase == Opened ==> ids == [])
  }

  ghost predicate SessionOk(w: World, c: ConnId)
    requires c in w.sessions
  {
    var s := w.sessions[c];
    && s.chan in w.chans
    && (c in w.chans[s.chan].cursor <==> Registered(s))
    && Delivered(w.chans[s.chan], c, s)
  }

  ghost predicate ChanOk(w: World, limit: int, ch: ChanId)
    requires ch in w.chans
  {
    && (forall c :: c in w.chans[ch].cursor ==> c in w.sessions && w.sessions[c].chan == ch)
    && (forall c :: c !in w.sessions ==> Log(w.chans[ch], c) == [])
    && |w.chans[ch].cursor| <= if limit < 0 then 0 else limit
  }

  ghost predicate Counts(p: Phase) {
    p == Counted || p == Leaving
  }

  /** The sessions between a successful AddConn and the end of their RemoveConn. */
  ghost function CountedSet(w: World, key: string): set<ConnId> {
    set c | c in w.sessions && w.sessions[c].key == key && Counts(w.sessions[c].phase)
  }

  ghost predicate CountOk(w: World, key: string) {
    Count(w.online, key) == |CountedSet(w, key)| + Count(w.drift, key)
  }

  ghost predicate Inv(w: World, limit: int) {
    && (forall key :: key in w.table ==> w.table[key] in w.chans)
    && (forall c :: c in w.sessions ==> SessionOk(w, c))
    && (forall ch :: ch in w.chans ==> ChanOk(w, limit, ch))
    && (forall key :: CountOk(w, key))
  }

  ghost function Start(): World {
    World(map[], map[], map[], map[], map[])
  }

  lemma StartInv(limit: int)
    ensures Inv(Start(), limit)
  {
    forall key
      ensures CountOk(Start(), key)
    {
      assert CountedSet(Start(), key) == {};
    }
  }

  // ----- each channel operation on the log and cursor of one connection -----

  lemma PushKeepsDelivered(ch: Chan, c: ConnId, s: Session, id: int, accepts: ConnId -> bool)
    requires Delivered(ch, c, s) && (s.phase == Opened ==> c !in ch.cursor)
    ensures Delivered(PushMsg(ch, id, accepts), c, s)
  {
    var ids := Log(ch, c);
    if Takes(ch.cursor, c, id, accepts) {
      assert Log(PushMsg(ch, id, accepts), c) == ids + [id];
      assert LastOr(ids + [id], s.mid) == id;
    } else {
      assert Log(PushMsg(ch, id, accepts), c) == ids;
    }
  }

  /** A push is written to exactly the connections whose cursor it is beyond and that take the write. */
  lemma PushWritesExactly(ch: Chan, c: ConnId, id: int, accepts: ConnId -> bool)
    ensures var t := PushMsg(ch, id, accepts);
      var taken := c in ch.cursor && ch.cursor[c] < id && accepts(c);
      && Log(t, c) == (if taken then Log(ch, c) + [id] else Log(ch, c))
      && t.cursor.Keys == ch.cursor.Keys
      && (c in ch.cursor ==> t.cursor[c] == if taken then id else ch.cursor[c])
  {
  }

  /** `ids` and `outcomes` are pushes that follow each other. */
  ghost function PushAll(ch: Chan, ids: seq<int>, outcomes: seq<ConnId -> bool>): Chan
    requires |ids| == |outcomes|
    decreases |ids|
  {
    if ids == [] then ch else PushAll(PushMsg(ch, ids[0], outcomes[0]), ids[1..], outcomes[1..])
  }

  /** A connection that has reached `id` is never again written a push of `id` or an older one, in
      whatever number and order these come and whatever writes would succeed. */
  lemma {:induction false} NeverWrittenAgain(ch: Chan, c: ConnId, id: int, ids: seq<int>, outcomes: seq<ConnId -> bool>)
    requires c in ch.cursor && id <= ch.cursor[c] && |ids| == |outcomes|
    requires forall i :: 0 <= i < |ids| ==> ids[i] <= id
    ensures Log(PushAll(ch, ids, outcomes), c) == Log(ch, c)
    decreases |ids|
  {
    hide PushMsg, Log;
    if ids == [] {
    } else {
      PushWritesExactly(ch, c, ids[0], outcomes[0]);
      NeverWrittenAgain(PushMsg(ch, ids[0], outcomes[0]), c, id, ids[1..], outcomes[1..]);
    }
  }

  /** Channel `b` treats every connection other than `c` as channel `a` does. */
  ghost predicate SameBut(a: Chan, b: Chan, c: ConnId) {
    forall d :: d != c ==>
      && Log(b, d) == Log(a, d) && (d in b.cursor <==> d in a.cursor)
      && (d in a.cursor ==> b.cursor[d] == a.cursor[d])
  }

  /** What SendMsg does for a connection that is not registered yet, when all entries decode. */
  ghost function Sent(ch: Chan, limit: int, c: ConnId, mid: int, reply: Reply, env: Env): Chan {
    if !Replays(ch, limit, reply) then ch
    else
      var r := Replay(reply.entries, mid, env);
      var t := ch.(log := ch.log[c := Log(ch, c) + r.sent]);
      if r.err == NoError then Register(t, c, r.last) else t
  }

  lemma SendMsgIs(ch: Chan, limit: int, c: ConnId, mid: int, reply: Reply, env: Env)
    requires c !in ch.cursor && MayReply(reply, mid)
    ensures var (t, err) := SendMsg(ch, limit, c, mid, reply, env);
      && t == Sent(ch, limit, c, mid, reply, env)
      && (err == NoError <==> Replays(ch, limit, reply) && Replay(reply.entries, mid, env).err == NoError)
  {
    hide Replay, Log, Register, Unregister, AfterReplay;
    InAndOut(ch, c, mid);
    if Replays(ch, limit, reply) {
      NoPanic(reply.entries, mid, env);
      AfterReplayIs(ch, c, mid, Replay(reply.entries, mid, env));
    }
  }

  lemma AfterReplayIs(ch: Chan, c: ConnId, mid: int, r: Replayed)
    requires c !in ch.cursor && r.err != PanicNilMessage
    ensures var t := ch.(log := ch.log[c := Log(ch, c) + r.sent]);
      AfterReplay(Register(ch, c, mid), c, r) == if r.err == NoError then Register(t, c, r.last) else t
  {
    assert Log(Register(ch, c, mid), c) == Log(ch, c);
    hide Log;
    assert ch.cursor[c := mid][c := r.last] == ch.cursor[c := r.last];
    assert ch.cursor[c := mid] - {c} == ch.cursor;
  }

  /** A replay registers its connection exactly when it succeeds, and then there was room. */
  lemma ReplayRegisters(ch: Chan, limit: int, c: ConnId, mid: int, reply: Reply, env: Env)
    requires c !in ch.cursor && MayReply(reply, mid)
    ensures var (t, err) := SendMsg(ch, limit, c, mid, reply, env);
      && t.cursor.Keys == (if err == NoError then ch.cursor.Keys + {c} else ch.cursor.Keys)
      && (err == NoError ==> |ch.cursor| + 1 <= limit)
  {
    hide Replay, Log, SendMsg;
    SendMsgIs(ch, limit, c, mid, reply, env);
  }

  lemma ReplayLeavesOthers(ch: Chan, limit: int, c: ConnId, mid: int, reply: Reply, env: Env)
    requires c !in ch.cursor && MayReply(reply, mid)
    ensures SameBut(ch, SendMsg(ch, limit, c, mid, reply, env).0, c)
  {
    hide Replay, SendMsg, Replays, MayReply;
    SendMsgIs(ch, limit, c, mid, reply, env);
  }

  lemma ReplayDelivers(ch: Chan, limit: int, c: ConnId, s: Session, reply: Reply, env: Env, p: Phase)
    requires Delivered(ch, c, s) && s.phase == Opened && c !in ch.cursor && p != Opened
    requires MayReply(reply, s.mid)
    ensures Delivered(SendMsg(ch, limit, c, s.mid, reply, env).0, c, s.(phase := p))
  {
    hide Ascends, AllAbove, AscendsFrom, Replay, SendMsg, LastOr;
    SendMsgIs(ch, limit, c, s.mid, reply, env);
    if Replays(ch, limit, reply) {
      ReplayAscends(reply.entries, s.mid, env);
      var r := Replay(reply.entries, s.mid, env);
      assert [] + r.sent == r.sent;
    }
  }

  // ----- every step keeps the invariant -----

  lemma SameButDelivered(a: Chan, b: Chan, c: ConnId, d: ConnId, s: Session)
    requires SameBut(a, b, c) && d != c && Delivered(a, d, s)
    ensures Delivered(b, d, s) && (d in b.cursor <==> d in a.cursor)
  {
  }

  /** A session moves to phase `p` while its channel becomes `ch`. */
  lemma MoveKeepsSessions(w: World, limit: int, c: ConnId, ch: Chan, p: Phase)
    requires Inv(w, limit) && c in w.sessions && SameBut(w.chans[w.sessions[c].chan], ch, c)
    requires Delivered(ch, c, w.sessions[c].(phase := p)) && (c in ch.cursor <==> p == Waiting || p == Counted)
    ensures forall d :: d in w.sessions ==> SessionOk(MoveTo(w, c, ch, p), d)
  {
    hide Delivered, SameBut, ChanOk, CountOk, Log;
    var t := MoveTo(w, c, ch, p);
    forall d | d in w.sessions
      ensures SessionOk(t, d)
    {
      assert SessionOk(w, d);
      if d != c && w.sessions[d].chan == w.sessions[c].chan {
        SameButDelivered(w.chans[w.sessions[c].chan], ch, c, d, w.sessions[d]);
      }
    }
  }

  lemma MoveKeepsChans(w: World, limit: int, c: ConnId, ch: Chan, p: Phase)
    requires Inv(w, limit) && c in w.sessions && SameBut(w.chans[w.sessions[c].chan], ch, c)
    requires |ch.cursor| <= if limit < 0 then 0 else limit
    ensures forall x :: x in MoveTo(w, c, ch, p).chans ==> ChanOk(MoveTo(w, c, ch, p), limit, x)
  {
    hide Delivered, CountOk, Log;
    var t := MoveTo(w, c, ch, p);
    forall x | x in t.chans
      ensures ChanOk(t, limit, x)
    {
      assert SessionOk(w, c) && ChanOk(w, limit, x);
    }
  }

  lemma PushKeepsSessions(w: World, limit: int, e: Event)
    requires Inv(w, limit) && e.PushE? && Enabled(w, e)
    ensures forall c :: c in w.sessions ==> SessionOk(Step(w, limit, e), c)
  {
    hide Delivered, ChanOk, CountOk;
    var t := Step(w, limit, e);
    forall c | c in t.sessions
      ensures SessionOk(t, c)
    {
      assert SessionOk(w, c);
      if w.sessions[c].chan == e.ch {
        PushKeepsDelivered(w.chans[e.ch], c, w.sessions[c], e.id, e.accepts);
      }
    }
  }

  lemma PushKeepsChan(ch: Chan, id: int, accepts: ConnId -> bool)
    ensures PushMsg(ch, id, accepts).cursor.Keys == ch.cursor.Keys && |PushMsg(ch, id, accepts).cursor| == |ch.cursor|
    ensures forall c :: Log(ch, c) == [] && c !in ch.cursor ==> Log(PushMsg(ch, id, accepts), c) == []
  {
    assert PushMsg(ch, id, accepts).cursor.Keys == ch.cursor.Keys;
  }

  lemma PushKeepsChans(w: World, limit: int, e: Event)
    requires Inv(w, limit) && e.PushE? && Enabled(w, e)
    ensures forall x :: x in Step(w, limit, e).chans ==> ChanOk(Step(w, limit, e), limit, x)
  {
    hide SessionOk, CountOk, Log, PushMsg;
    var t := Step(w, limit, e);
    PushKeepsChan(w.chans[e.ch], e.id, e.accepts);
    forall x | x in t.chans
      ensures ChanOk(t, limit, x)
    {
      assert ChanOk(w, limit, x);
    }
  }

  lemma MoveMembers(w: World, c: ConnId, ch: Chan, p: Phase, key: string)
    requires c in w.sessions
    ensures CountedSet(MoveTo(w, c, ch, p), key) - {c} == CountedSet(w, key) - {c}
    ensures c in CountedSet(MoveTo(w, c, ch, p), key) <==> key == w.sessions[c].key && Counts(p)
    ensures c in CountedSet(w, key) <==> key == w.sessions[c].key && Counts(w.sessions[c].phase)
  {
  }

  lemma OneMember(s: set<ConnId>, c: ConnId)
    ensures |s| == |s - {c}| + if c in s then 1 else 0
  {
    assert c !in s ==> s - {c} == s;
  }

  /** How moving one session changes the number of counted sessions of a key. */
  lemma MoveCounts(w: World, c: ConnId, ch: Chan, p: Phase, key: string)
    requires c in w.sessions
    ensures |CountedSet(MoveTo(w, c, ch, p), key)| == |CountedSet(w, key)| +
      if key != w.sessions[c].key then 0
      else (if Counts(p) then 1 else 0) - (if Counts(w.sessions[c].phase) then 1 else 0)
  {
    hide CountedSet, Counts, MoveTo;
    MoveMembers(w, c, ch, p, key);
    OneMember(CountedSet(w, key), c);
    OneMember(CountedSet(MoveTo(w, c, ch, p), key), c);
  }

  /** A session moves and the counters of its key are updated to match. */
  lemma CountsFollow(w: World, t: World, c: ConnId, ch: Chan, p: Phase)
    requires (forall key :: CountOk(w, key)) && c in w.sessions && t.sessions == MoveTo(w, c, ch, p).sessions
    requires forall key :: key != w.sessions[c].key ==>
      Count(t.online, key) == Count(w.online, key) && Count(t.drift, key) == Count(w.drift, key)
    requires var k, was := w.sessions[c].key, w.sessions[c].phase;
      Count(t.online, k) - Count(t.drift, k) == Count(w.online, k) - Count(w.drift, k) +
        if Counts(p) && !Counts(was) then 1 else if Counts(was) && !Counts(p) then -1 else 0
    ensures forall key :: CountOk(t, key)
  {
    hide Count;
    forall key
      ensures CountOk(t, key)
    {
      assert CountOk(w, key);
      MoveCounts(w, c, ch, p, key);
      assert CountedSet(t, key) == CountedSet(MoveTo(w, c, ch, p), key);
    }
  }

  lemma CreateKeeps(w: World, limit: int, e: Event)
    requires Inv(w, limit) && e.CreateE? && Enabled(w, e)
    ensures Inv(Step(w, limit, e), limit)
  {
    var t := Step(w, limit, e);
    forall c | c in t.sessions
      ensures SessionOk(t, c)
    {
      assert SessionOk(w, c);
    }
    hide Delivered;
    forall ch | ch in t.chans
      ensures ChanOk(t, limit, ch)
    {
      assert ch != e.ch ==> ChanOk(w, limit, ch);
    }
    forall key
      ensures CountOk(t, key)
    {
      assert CountOk(w, key) && CountedSet(t, key) == CountedSet(w, key);
    }
  }

  lemma ExpireKeeps(w: World, limit: int, e: Event)
    requires Inv(w, limit) && e.ExpireE? && Enabled(w, e)
    ensures Inv(Step(w, limit, e), limit)
  {
    hide Delivered;
    var t := Step(w, limit, e);
    forall c | c in t.sessions
      ensures SessionOk(t, c)
    {
      assert SessionOk(w, c);
    }
    forall ch | ch in t.chans
      ensures ChanOk(t, limit, ch)
    {
      assert ChanOk(w, limit, ch);
    }
    forall key
      ensures CountOk(t, key)
    {
      assert CountOk(w, key) && CountedSet(t, key) == CountedSet(w, key);
    }
  }

  lemma OpenedDelivers(ch: Chan, c: ConnId, s: Session)
    requires Log(ch, c) == [] && c !in ch.cursor
    ensures Delivered(ch, c, s)
  {
  }

  lemma OpenKeeps(w: World, limit: int, e: Event)
    requires Inv(w, limit) && e.OpenE? && Enabled(w, e)
    ensures Inv(Step(w, limit, e), limit)
  {
    hide Takes, Delivered;
    var t := Step(w, limit, e);
    var x := w.table[e.key];
    assert ChanOk(w, limit, x);
    OpenedDelivers(w.chans[x], e.c, t.sessions[e.c]);
    forall c | c in t.sessions
      ensures SessionOk(t, c)
    {
      if c != e.c {
        assert SessionOk(w, c);
      }
    }
    hide SessionOk;
    forall ch | ch in t.chans
      ensures ChanOk(t, limit, ch)
    {
      assert ChanOk(w, limit, ch);
    }
    hide ChanOk;
    forall key
      ensures CountOk(t, key)
    {
      assert CountOk(w, key) && CountedSet(t, key) == CountedSet(w, key);
    }
  }

  lemma UnregisterSame(ch: Chan, c: ConnId)
    ensures SameBut(ch, Unregister(ch, c), c) && c !in Unregister(ch, c).cursor
    ensures |Unregister(ch, c).cursor| <= |ch.cursor|
  {
    SubsetSize(Unregister(ch, c).cursor.Keys, ch.cursor.Keys);
  }

  lemma DeliveredMoves(ch: Chan, c: ConnId, s: Session, p: Phase)
    requires Delivered(ch, c, s) && p != Opened
    ensures Delivered(ch, c, s.(phase := p)) && Delivered(Unregister(ch, c), c, s.(phase := p))
  {
  }

  /** A session past its replay moves to `p`, leaving its channel's map unless `p` is a registered
      phase. */
  lemma SessionMoves(w: World, limit: int, c: ConnId, p: Phase)
    requires Inv(w, limit) && c in w.sessions && p != Opened && w.sessions[c].chan in w.chans
    requires p == Counted ==> Registered(w.sessions[c])
    requires p != Waiting
    ensures var ch := w.chans[w.sessions[c].chan];
      var t := MoveTo(w, c, if p == Counted then ch else Unregister(ch, c), p);
      && (forall d :: d in w.sessions ==> SessionOk(t, d))
      && (forall x :: x in t.chans ==> ChanOk(t, limit, x))
  {
    hide Delivered, SameBut, Unregister;
    var s := w.sessions[c];
    var ch := w.chans[s.chan];
    var ch' := if p == Counted then ch else Unregister(ch, c);
    assert SessionOk(w, c) && ChanOk(w, limit, s.chan);
    UnregisterSame(ch, c);
    SameAsItself(ch, c);
    DeliveredMoves(ch, c, s, p);
    MoveKeepsSessions(w, limit, c, ch', p);
    MoveKeepsChans(w, limit, c, ch', p);
  }

  /** Not being registered, a connection cannot be unregistered again. */
  lemma UnregisteredAlready(w: World, limit: int, c: ConnId)
    requires Inv(w, limit) && c in w.sessions && !Registered(w.sessions[c])
    ensures w.sessions[c].chan in w.chans
    ensures Unregister(w.chans[w.sessions[c].chan], c) == w.chans[w.sessions[c].chan]
  {
    hide Delivered;
    assert SessionOk(w, c);
  }

  lemma CountKeeps(w: World, limit: int, e: Event)
    requires Inv(w, limit) && e.CountE? && Enabled(w, e)
    ensures Inv(Step(w, limit, e), limit)
  {
    hide SessionOk, ChanOk, Unregister;
    var c, t := e.c, Step(w, limit, e);
    var p, ch' := t.sessions[c].phase, t.chans[w.sessions[c].chan];
    SessionMoves(w, limit, c, p);
    CountsFollow(w, t, c, ch', p);
    MoveGivesInv(w, limit, c, ch', p, t);
  }

  lemma LeaveKeeps(w: World, limit: int, e: Event)
    requires Inv(w, limit) && e.LeaveE? && Enabled(w, e)
    ensures Inv(Step(w, limit, e), limit)
  {
    hide SessionOk, ChanOk, Unregister;
    var c, t := e.c, Step(w, limit, e);
    var ch' := t.chans[w.sessions[c].chan];
    SessionMoves(w, limit, c, Leaving);
    CountsFollow(w, t, c, ch', Leaving);
    MoveGivesInv(w, limit, c, ch', Leaving, t);
  }

  lemma UncountKeeps(w: World, limit: int, e: Event)
    requires Inv(w, limit) && e.UncountE? && Enabled(w, e)
    ensures Inv(Step(w, limit, e), limit)
  {
    hide SessionOk, ChanOk, CountOk, CountedSet, Unregister, Count;
    var c, t := e.c, Step(w, limit, e);
    var ch' := w.chans[w.sessions[c].chan];
    UnregisteredAlready(w, limit, c);
    UncountCounters(w, limit, e);
    SessionMoves(w, limit, c, Ended);
    CountsFollow(w, t, c, ch', Ended);
    MoveGivesInv(w, limit, c, ch', Ended, t);
  }

  lemma UncountCounters(w: World, limit: int, e: Event)
    requires e.UncountE? && Enabled(w, e)
    ensures var t, k := Step(w, limit, e), w.sessions[e.c].key;
      && (forall key :: key != k ==>
            Count(t.online, key) == Count(w.online, key) && Count(t.drift, key) == Count(w.drift, key))
      && Count(t.online, k) - Count(t.drift, k) == Count(w.online, k) - Count(w.drift, k) - 1
  {
  }

  lemma SameAsItself(ch: Chan, c: ConnId)
    ensures SameBut(ch, ch, c)
  {
  }

  lemma MoveGivesInv(w: World, limit: int, c: ConnId, ch: Chan, p: Phase, t: World)
    requires Inv(w, limit) && c in w.sessions && w.sessions[c].chan in w.chans
    requires var m := MoveTo(w, c, ch, p); t.table == m.table && t.chans == m.chans && t.sessions == m.sessions
    requires forall d :: d in w.sessions ==> SessionOk(MoveTo(w, c, ch, p), d)
    requires forall x :: x in MoveTo(w, c, ch, p).chans ==> ChanOk(MoveTo(w, c, ch, p), limit, x)
    requires forall key :: CountOk(t, key)
    ensures Inv(t, limit)
  {
    hide Delivered;
    var m := MoveTo(w, c, ch, p);
    forall d | d in t.sessions
      ensures SessionOk(t, d)
    {
      assert SessionOk(m, d);
    }
    forall x | x in t.chans
      ensures ChanOk(t, limit, x)
    {
      assert ChanOk(m, limit, x);
    }
  }

  lemma ReplayKeeps(w: World, limit: int, e: Event)
    requires Inv(w, limit) && e.ReplayE? && Enabled(w, e)
    ensures Inv(Step(w, limit, e), limit)
  {
    hide Delivered, SendMsg, AscendsFrom;
    var c, t := e.c, Step(w, limit, e);
    var s := w.sessions[c];
    var ch := w.chans[s.chan];
    assert SessionOk(w, c) && ChanOk(w, limit, s.chan);
    var (ch', err) := SendMsg(ch, limit, c, s.mid, e.reply, e.env);
    var p := if err == NoError then Waiting else Ended;
    ReplayRegisters(ch, limit, c, s.mid, e.reply, e.env);
    ReplayLeavesOthers(ch, limit, c, s.mid, e.reply, e.env);
    ReplayDelivers(ch, limit, c, s, e.reply, e.env, p);
    KeysCount(ch, ch', c);
    MoveKeepsSessions(w, limit, c, ch', p);
    MoveKeepsChans(w, limit, c, ch', p);
    CountsFollow(w, t, c, ch', p);
    MoveGivesInv(w, limit, c, ch', p, t);
  }

  lemma KeysCount(ch: Chan, ch': Chan, c: ConnId)
    ensures ch'.cursor.Keys == ch.cursor.Keys ==> |ch'.cursor| == |ch.cursor|
    ensures ch'.cursor.Keys == ch.cursor.Keys + {c} && c !in ch.cursor ==> |ch'.cursor| == |ch.cursor| + 1
  {
  }

  lemma PushKeeps(w: World, limit: int, e: Event)
    requires Inv(w, limit) && e.PushE? && Enabled(w, e)
    ensures Inv(Step(w, limit, e), limit)
  {
    hide SessionOk, ChanOk, PushMsg;
    var t := Step(w, limit, e);
    PushKeepsSessions(w, limit, e);
    PushKeepsChans(w, limit, e);
    forall key
      ensures CountOk(t, key)
    {
      assert CountOk(w, key) && CountedSet(t, key) == CountedSet(w, key);
    }
  }

  lemma StepKeeps(w: World, limit: int, e: Event)
    requires Inv(w, limit) && Enabled(w, e)
    ensures Inv(Step(w, limit, e), limit)
  {
    hide Inv, Step;
    match e {
      case CreateE(_, _) => CreateKeeps(w, limit, e);
      case ExpireE(_) => ExpireKeeps(w, limit, e);
      case OpenE(_, _, _) => OpenKeeps(w, limit, e);
      case ReplayE(_, _, _) => ReplayKeeps(w, limit, e);
      case CountE(_, _) => CountKeeps(w, limit, e);
      case LeaveE(_) => LeaveKeeps(w, limit, e);
      case UncountE(_, _) => UncountKeeps(w, limit, e);
      case PushE(_, _, _) => PushKeeps(w, limit, e);
    }
  }

  // ----- runs -----

  /** `ws` are the states of a run of the events `es` from the start. */
  ghost predicate IsRun(ws: seq<World>, es: seq<Event>, limit: int) {
    && |ws| == |es| + 1 && ws[0] == Start()
    && forall n :: 0 <= n < |es| ==> Enabled(ws[n], es[n]) && ws[n + 1] == Step(ws[n], limit, es[n])
  }

  lemma {:induction false} RunKeeps(ws: seq<World>, es: seq<Event>, limit: int, n: nat)
    requires IsRun(ws, es, limit) && n <= |es|
    ensures Inv(ws[n], limit)
  {
    hide Inv, Step, Enabled;
    if n == 0 {
      StartInv(limit);
    } else {
      RunKeeps(ws, es, limit, n - 1);
      StepKeeps(ws[n - 1], limit, es[n - 1]);
    }
  }

  /** At every moment of every run, each session has been sent strictly ascending message ids, all
      above its `mid`; while it is registered its cursor is the last of them, or `mid`. */
  lemma DeliveryAscends(ws: seq<World>, es: seq<Event>, limit: int, n: nat, c: ConnId)
    requires IsRun(ws, es, limit) && n <= |es| && c in ws[n].sessions
    ensures var w := ws[n]; var s := w.sessions[c];
      && s.chan in w.chans && Ascends(Log(w.chans[s.chan], c)) && AllAbove(Log(w.chans[s.chan], c), s.mid)
      && (c in w.chans[s.chan].cursor ==> w.chans[s.chan].cursor[c] == LastOr(Log(w.chans[s.chan], c), s.mid))
  {
    hide Step, Enabled, Ascends, AllAbove, Log;
    RunKeeps(ws, es, limit, n);
    assert SessionOk(ws[n], c);
  }

  /** At every moment of every run, the online counter of a key is the number of its sessions
      between a successful AddConn and the end of their RemoveConn, plus the removals that Redis
      failed to count; every such session that has not begun to leave is in its channel's map, and
      no map exceeds the subscriber limit. */
  lemma OnlineIsConserved(ws: seq<World>, es: seq<Event>, limit: int, n: nat, key: string)
    requires IsRun(ws, es, limit) && n <= |es|
    ensures Count(ws[n].online, key) == |CountedSet(ws[n], key)| + Count(ws[n].drift, key)
    ensures forall c :: c in ws[n].sessions && ws[n].sessions[c].phase == Counted ==>
      ws[n].sessions[c].chan in ws[n].chans && c in ws[n].chans[ws[n].sessions[c].chan].cursor
    ensures forall ch :: ch in ws[n].chans ==> |ws[n].chans[ch].cursor| <= if limit < 0 then 0 else limit
  {
    hide Step, Enabled, Delivered;
    RunKeeps(ws, es, limit, n);
    assert CountOk(ws[n], key);
    forall c | c in ws[n].sessions && ws[n].sessions[c].phase == Counted
      ensures ws[n].sessions[c].chan in ws[n].chans && c in ws[n].chans[ws[n].sessions[c].chan].cursor
    {
      assert SessionOk(ws[n], c);
    }
    forall ch | ch in ws[n].chans
      ensures |ws[n].chans[ch].cursor| <= if limit < 0 then 0 else limit
    {
      assert ChanOk(ws[n], limit, ch);
    }
  }

  // ----- what one session is sent, exactly -----

  ghost predicate ReplayOf(es: seq<Event>, a: nat, c: ConnId) {
    a < |es| && es[a].ReplayE? && es[a].c == c
  }

  /** The events that take `c` out of its channel's map. */
  ghost predicate TakesOut(e: Event, c: ConnId) {
    e == LeaveE(c) || e == CountE(c, false)
  }

  /** What the replay of event `e` does to its channel. */
  ghost function Replaying(w: World, limit: int, e: Event): (Chan, Error)
    requires e.ReplayE? && InPhase(w, e.c, Opened)
  {
    var s := w.sessions[e.c];
    SendMsg(w.chans[s.chan], limit, e.c, s.mid, e.reply, e.env)
  }

  /** Event `a` was a successful replay of its session, and nothing before event `n` took it out. */
  ghost predicate Joined(ws: seq<World>, es: seq<Event>, limit: int, a: nat, n: nat)
    requires IsRun(ws, es, limit) && a < n <= |es| && es[a].ReplayE?
  {
    Replaying(ws[a], limit, es[a]).1 == NoError && forall j :: a < j < n ==> !TakesOut(es[j], es[a].c)
  }

  /** The ids that the replay of event `a` writes. */
  ghost function ReplaySent(ws: seq<World>, es: seq<Event>, limit: int, a: nat): seq<int>
    requires IsRun(ws, es, limit) && a < |es| && es[a].ReplayE?
  {
    var s := ws[a].sessions[es[a].c];
    if Replays(ws[a].chans[s.chan], limit, es[a].reply) then Replay(es[a].reply.entries, s.mid, es[a].env).sent else []
  }

  /** What the session of the replay `a` has to be sent by event `n`: its replay, then each push to
      its channel while it is joined that is beyond all it has been sent and that it takes. */
  ghost function Due(ws: seq<World>, es: seq<Event>, limit: int, a: nat, n: nat): seq<int>
    requires IsRun(ws, es, limit) && a < n <= |es| && es[a].ReplayE?
    decreases n
  {
    if n == a + 1 then ReplaySent(ws, es, limit, a)
    else
      var before := Due(ws, es, limit, a, n - 1);
      var c, e := es[a].c, es[n - 1];
      var s := ws[a].sessions[c];
      if e.PushE? && e.ch == s.chan && Joined(ws, es, limit, a, n - 1) && LastOr(before, s.mid) < e.id && e.accepts(c)
      then before + [e.id]
      else before
  }

  /** Whether an event is a step of session `c`. */
  ghost predicate StepOf(e: Event, c: ConnId) {
    !e.CreateE? && !e.ExpireE? && !e.PushE? && e.c == c
  }

  lemma StepOfOthers(w: World, limit: int, e: Event, c: ConnId)
    requires Enabled(w, e) && c in w.sessions && !StepOf(e, c)
    ensures c in Step(w, limit, e).sessions && Step(w, limit, e).sessions[c] == w.sessions[c]
  {
    hide SendMsg, PushMsg, MayReply, Count, Unregister;
  }

  lemma StepOfIts(w: World, limit: int, e: Event, c: ConnId)
    requires Enabled(w, e) && c in w.sessions && w.sessions[c].phase != Opened && StepOf(e, c)
    ensures e.CountE? || e.LeaveE? || e.UncountE?
    ensures c in Step(w, limit, e).sessions && Step(w, limit, e).sessions[c] ==
      w.sessions[c].(phase := if e.CountE? && e.up then Counted else if e.LeaveE? then Leaving else Ended)
  {
    hide SendMsg, PushMsg, MayReply, Count, Unregister;
  }

  /** A step leaves a session past its opening with its key, channel and `mid`, and changes whether it
      is registered only by taking it out. */
  lemma StepSession(w: World, limit: int, e: Event, c: ConnId)
    requires Enabled(w, e) && c in w.sessions && w.sessions[c].phase != Opened
    ensures var s, t := w.sessions[c], Step(w, limit, e);
      && c in t.sessions && t.sessions[c] == s.(phase := t.sessions[c].phase) && t.sessions[c].phase != Opened
      && (Registered(t.sessions[c]) <==> Registered(s) && !TakesOut(e, c))
  {
    if StepOf(e, c) {
      StepOfIts(w, limit, e, c);
    } else {
      StepOfOthers(w, limit, e, c);
    }
    hide Step;
  }

  /** The replay of another session does not touch the log of `c`. */
  lemma OtherReplays(w: World, limit: int, e: Event, c: ConnId, ch: ChanId)
    requires Inv(w, limit) && Enabled(w, e) && e.ReplayE? && e.c != c && ch in w.chans
    ensures ch in Step(w, limit, e).chans && Log(Step(w, limit, e).chans[ch], c) == Log(w.chans[ch], c)
  {
    hide SendMsg, Log, ChanOk, CountOk, MayReply, Delivered;
    assert SessionOk(w, e.c);
    var r := w.sessions[e.c];
    ReplayLeavesOthers(w.chans[r.chan], limit, e.c, r.mid, e.reply, e.env);
  }

  lemma QuietSteps(w: World, limit: int, e: Event, c: ConnId, ch: ChanId)
    requires Enabled(w, e) && !e.ReplayE? && !(e.PushE? && e.ch == ch) && ch in w.chans
    ensures ch in Step(w, limit, e).chans && Log(Step(w, limit, e).chans[ch], c) == Log(w.chans[ch], c)
  {
    hide SendMsg, PushMsg, MayReply, Count, Log;
    assert forall t: Chan, d: ConnId :: Log(Unregister(t, d), c) == Log(t, c) by {
      LogStays(c);
    }
  }

  lemma LogStays(c: ConnId)
    ensures forall t: Chan, d: ConnId :: Log(Unregister(t, d), c) == Log(t, c)
  {
  }

  /** What a step does to the log of a session past its opening. */
  lemma StepLog(w: World, limit: int, e: Event, c: ConnId)
    requires Inv(w, limit) && Enabled(w, e) && c in w.sessions && w.sessions[c].phase != Opened
    ensures var s := w.sessions[c];
      s.chan in w.chans && s.chan in Step(w, limit, e).chans &&
      var ch := w.chans[s.chan];
      Log(Step(w, limit, e).chans[s.chan], c) == Log(ch, c) +
        if e.PushE? && e.ch == s.chan && Registered(s) && LastOr(Log(ch, c), s.mid) < e.id && e.accepts(c)
        then [e.id] else []
  {
    hide Inv, SessionOk, SendMsg, PushMsg, MayReply, LastOr, Log, Step;
    CursorIsLast(w, limit, c);
    var s := w.sessions[c];
    var ch := w.chans[s.chan];
    assert Log(ch, c) + [] == Log(ch, c);
    if e.PushE? && e.ch == s.chan {
      PushWritesExactly(ch, c, e.id, e.accepts);
      PushStep(w, limit, e);
    } else if e.ReplayE? {
      OtherReplays(w, limit, e, c, s.chan);
    } else {
      QuietSteps(w, limit, e, c, s.chan);
    }
  }

  lemma PushStep(w: World, limit: int, e: Event)
    requires Enabled(w, e) && e.PushE?
    ensures e.ch in Step(w, limit, e).chans && Step(w, limit, e).chans[e.ch] == PushMsg(w.chans[e.ch], e.id, e.accepts)
  {
  }

  lemma CursorIsLast(w: World, limit: int, c: ConnId)
    requires Inv(w, limit) && c in w.sessions
    ensures w.sessions[c].chan in w.chans
    ensures var s := w.sessions[c];
      var ch := w.chans[s.chan];
      && (c in ch.cursor <==> Registered(s))
      && (c in ch.cursor ==> ch.cursor[c] == LastOr(Log(ch, c), s.mid))
  {
    assert SessionOk(w, c);
  }

  lemma ReplayStarts(w: World, limit: int, e: Event)
    requires Inv(w, limit) && e.ReplayE? && Enabled(w, e)
    ensures var s, t := w.sessions[e.c], Step(w, limit, e);
      && e.c in t.sessions && s.chan in w.chans && s.chan in t.chans
      && t.sessions[e.c] == s.(phase := if Replaying(w, limit, e).1 == NoError then Waiting else Ended)
      && Log(t.chans[s.chan], e.c) ==
           if Replays(w.chans[s.chan], limit, e.reply) then Replay(e.reply.entries, s.mid, e.env).sent else []
  {
    hide Replay, Ascends, AllAbove, ChanOk, CountOk, AscendsFrom;
    assert SessionOk(w, e.c);
    var s := w.sessions[e.c];
    assert Log(w.chans[s.chan], e.c) == [];
    if Replays(w.chans[s.chan], limit, e.reply) {
      var sent := Replay(e.reply.entries, s.mid, e.env).sent;
      assert [] + sent == sent;
      NoPanic(e.reply.entries, s.mid, e.env);
    }
  }

  /** After its replay a session stays with its channel, and it is registered exactly while it is
      joined: from the replay on, with no gap, until it leaves or fails to be counted in. */
  lemma {:induction false} RegisteredExactly(ws: seq<World>, es: seq<Event>, limit: int, a: nat, n: nat, c: ConnId)
    requires IsRun(ws, es, limit) && ReplayOf(es, a, c) && a < n <= |es|
    ensures c in ws[a].sessions && c in ws[n].sessions
    ensures var s, t := ws[a].sessions[c], ws[n].sessions[c];
      && t == s.(phase := t.phase) && t.phase != Opened && s.chan in ws[n].chans
      && (Registered(t) <==> Joined(ws, es, limit, a, n))
      && (c in ws[n].chans[s.chan].cursor <==> Joined(ws, es, limit, a, n))
    decreases n
  {
    hide Inv, Step, Delivered, SendMsg, Replaying;
    RunKeeps(ws, es, limit, n - 1);
    RunKeeps(ws, es, limit, n);
    if n == a + 1 {
      ReplayStarts(ws[a], limit, es[a]);
    } else {
      RegisteredExactly(ws, es, limit, a, n - 1, c);
      StepSession(ws[n - 1], limit, es[n - 1], c);
    }
    InvSession(ws[n], limit, c);
  }

  lemma InvSession(w: World, limit: int, c: ConnId)
    requires Inv(w, limit) && c in w.sessions
    ensures SessionOk(w, c)
  {
  }

  /** The log of a session, exactly, at every moment of every run. */
  lemma {:induction false} SessionLog(ws: seq<World>, es: seq<Event>, limit: int, a: nat, n: nat, c: ConnId)
    requires IsRun(ws, es, limit) && ReplayOf(es, a, c) && a < n <= |es|
    ensures c in ws[a].sessions && ws[a].sessions[c].chan in ws[n].chans
    ensures Log(ws[n].chans[ws[a].sessions[c].chan], c) == Due(ws, es, limit, a, n)
    decreases n
  {
    hide Inv, Step, Enabled, SendMsg, Replaying, Log, Joined, Registered, LastOr, Replay, Replays;
    RunKeeps(ws, es, limit, n - 1);
    RegisteredExactly(ws, es, limit, a, n, c);
    if n == a + 1 {
      ReplayStarts(ws[a], limit, es[a]);
    } else {
      SessionLog(ws, es, limit, a, n - 1, c);
      RegisteredExactly(ws, es, limit, a, n - 1, c);
      StepLog(ws[n - 1], limit, es[n - 1], c);
      assert Due(ws, es, limit, a, n - 1) + [] == Due(ws, es, limit, a, n - 1);
    }
  }

  /** No push falls between replay and registration: one that comes to its channel after its replay
      and before it is taken out is in its log, unless it is not beyond what was sent before or its
      write fails. */
  lemma NoGap(ws: seq<World>, es: seq<Event>, limit: int, a: nat, i: nat, c: ConnId)
    requires IsRun(ws, es, limit) && ReplayOf(es, a, c) && a < i < |es| && Joined(ws, es, limit, a, i)
    requires es[i].PushE? && c in ws[a].sessions && es[i].ch == ws[a].sessions[c].chan && es[i].accepts(c)
    ensures es[i].ch in ws[i].chans && es[i].ch in ws[i + 1].chans
    ensures var before, after := Log(ws[i].chans[es[i].ch], c), Log(ws[i + 1].chans[es[i].ch], c);
      es[i].id in after || es[i].id <= LastOr(before, ws[a].sessions[c].mid)
  {
    hide Log, Joined, LastOr, Step, Enabled, ReplaySent;
    SessionLog(ws, es, limit, a, i, c);
    SessionLog(ws, es, limit, a, i + 1, c);
  }
}
