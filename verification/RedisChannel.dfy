/** The critical sections of redis_channel.go:101-271 as functions on values.  Redis is seen as a
    counter that either changes or fails, and as a backlog of messages. */
module RedisSpec {
  import opened Messages

  datatype Error = NoError | RedisNoConnErr | MaxConnErr | RedisErr | WriteErr
    | PanicNilMessage  // the source uses the nil message of an entry that does not decode

  /** A channel: the last message id of each registered connection, and the ids that have been
      written to each connection. */
  datatype Chan = Chan(cursor: map<ConnId, int>, log: map<ConnId, seq<int>>)

  ghost function Log(ch: Chan, c: ConnId): seq<int> {
    if c in ch.log then ch.log[c] else []
  }

  /** Whether a push of `id` is written to `c`: its cursor is behind, and the write succeeds. */
  ghost predicate Takes(cursor: map<ConnId, int>, c: ConnId, id: int, accepts: ConnId -> bool) {
    c in cursor && cursor[c] < id && accepts(c)
  }

  ghost function Takers(ch: Chan, done: set<ConnId>, id: int, accepts: ConnId -> bool): set<ConnId> {
    set c | c in done && Takes(ch.cursor, c, id, accepts)
  }

  /** The channel once `takers` have been written `id`. */
  ghost function Written(ch: Chan, takers: set<ConnId>, id: int): Chan {
    Chan(map c | c in ch.cursor :: if c in takers then id else ch.cursor[c],
         map c | c in ch.log.Keys + takers :: if c in takers then Log(ch, c) + [id] else ch.log[c])
  }

  /** The channel once the push of `id` has been tried on the connections in `done`. */
  ghost function PushTo(ch: Chan, done: set<ConnId>, id: int, accepts: ConnId -> bool): Chan {
    Written(ch, Takers(ch, done, id, accepts), id)
  }

  ghost function PushMsg(ch: Chan, id: int, accepts: ConnId -> bool): Chan {
    PushTo(ch, ch.cursor.Keys, id, accepts)
  }

  lemma PushToNone(ch: Chan, id: int, accepts: ConnId -> bool)
    ensures PushTo(ch, {}, id, accepts) == ch
  {
    assert Takers(ch, {}, id, accepts) == {};
    assert Written(ch, {}, id).log == ch.log;
    assert Written(ch, {}, id).cursor == ch.cursor;
  }

  lemma WrittenOneMore(ch: Chan, takers: set<ConnId>, c: ConnId, id: int)
    requires c in ch.cursor && c !in takers
    ensures var before, after := Written(ch, takers, id), Written(ch, takers + {c}, id);
      && before.cursor[c] == ch.cursor[c] && Log(before, c) == Log(ch, c)
      && after == Chan(before.cursor[c := id], before.log[c := Log(ch, c) + [id]])
  {
    var before, after := Written(ch, takers, id), Written(ch, takers + {c}, id);
    assert after.cursor == before.cursor[c := id];
    assert after.log == before.log[c := Log(ch, c) + [id]];
  }

  lemma PushToOneMore(ch: Chan, done: set<ConnId>, c: ConnId, id: int, accepts: ConnId -> bool)
    requires c in ch.cursor && c !in done
    ensures var before, after := PushTo(ch, done, id, accepts), PushTo(ch, done + {c}, id, accepts);
      && before.cursor.Keys == ch.cursor.Keys && before.cursor[c] == ch.cursor[c]
      && after ==
           if Takes(ch.cursor, c, id, accepts)
           then Chan(before.cursor[c := id], before.log[c := Log(before, c) + [id]])
           else before
  {
    hide Log;
    var takers := Takers(ch, done, id, accepts);
    if Takes(ch.cursor, c, id, accepts) {
      assert Takers(ch, done + {c}, id, accepts) == takers + {c};
    } else {
      assert Takers(ch, done + {c}, id, accepts) == takers;
    }
    WrittenOneMore(ch, takers, c, id);
  }

  /** An entry of the backlog, as NewJsonStrMessage finds it. */
  datatype Entry = Json(m: Message) | Garbled

  /** The surroundings of a replay: the clock and the outcome of the write, by message id. */
  datatype Env = Env(tick: int -> int, accept: int -> bool) {
    ghost predicate Expired(m: Message) {
      m.Expired(tick(m.MsgID))
    }

    /** Whether the loop goes on past an entry. */
    ghost predicate Passes(x: Entry) {
      x.Json? && (Expired(x.m) || accept(x.m.MsgID))
    }
  }

  /** What a replay did: the last id written, the ids written, the ids it asked Redis to remove, and
      how it ended. */
  datatype Replayed = Replayed(last: int, sent: seq<int>, dropped: seq<int>, err: Error)

  /** The loop of SendMsg over the backlog. */
  ghost function Replay(backlog: seq<Entry>, last: int, env: Env): Replayed {
    if backlog == [] then Replayed(last, [], [], NoError)
    else if backlog[0].Garbled? then Replayed(last, [], [], PanicNilMessage)
    else
      var m := backlog[0].m;
      if env.Expired(m) then
        var r := Replay(backlog[1..], last, env);
        r.(dropped := [m.MsgID] + r.dropped)
      else if !env.accept(m.MsgID) then Replayed(last, [], [], WriteErr)
      else
        var r := Replay(backlog[1..], m.MsgID, env);
        r.(sent := [m.MsgID] + r.sent)
  }

  /** What Redis answers to the range query: no connection, an error, or the backlog. */
  datatype Reply = NoConn | Failed | Backlog(entries: seq<Entry>)

  /** Whether SendMsg comes to its loop. */
  ghost predicate Replays(ch: Chan, limit: int, reply: Reply) {
    reply.Backlog? && |ch.cursor| + 1 <= limit
  }

  ghost function Register(ch: Chan, c: ConnId, id: int): Chan {
    ch.(cursor := ch.cursor[c := id])
  }

  ghost function Unregister(ch: Chan, c: ConnId): Chan {
    ch.(cursor := ch.cursor - {c})
  }

  /** What a replay `r` to the registered connection `c` comes to: the cursor moves to the last id
      written, an error unregisters the connection, a panic leaves it as it is. */
  ghost function AfterReplay(ch: Chan, c: ConnId, r: Replayed): Chan {
    var t := ch.(log := ch.log[c := Log(ch, c) + r.sent]);
    if r.err == NoError then Register(t, c, r.last) else if r.err == PanicNilMessage then t else Unregister(t, c)
  }

  /** SendMsg registers the connection and replays the backlog to it. */
  ghost function SendMsg(ch: Chan, limit: int, c: ConnId, mid: int, reply: Reply, env: Env): (Chan, Error) {
    if reply.NoConn? then (ch, RedisNoConnErr)
    else if |ch.cursor| + 1 > limit then (ch, MaxConnErr)
    else if reply.Failed? then (Unregister(Register(ch, c, mid), c), RedisErr)
    else
      var r := Replay(reply.entries, mid, env);
      (AfterReplay(Register(ch, c, mid), c, r), r.err)
  }

  /** A connection that registers and unregisters leaves the others as they were. */
  lemma InAndOut(ch: Chan, c: ConnId, id: int)
    ensures Unregister(Register(ch, c, id), c) == Unregister(ch, c)
    ensures c !in ch.cursor ==> Unregister(ch, c) == ch
  {
    assert ch.cursor[c := id] - {c} == ch.cursor - {c};
    assert c !in ch.cursor ==> ch.cursor - {c} == ch.cursor;
  }

  /** The ids that SendMsg asks Redis to remove. */
  ghost function Dropped(ch: Chan, limit: int, mid: int, reply: Reply, env: Env): seq<int> {
    if Replays(ch, limit, reply) then Replay(reply.entries, mid, env).dropped else []
  }

  /** A counter that has never been changed reads 0. */
  function Count(m: map<string, int>, key: string): int {
    if key in m then m[key] else 0
  }

  // ----- what a replay writes -----

  /** A backlog as Redis returns it: ids ascend from above the cursor. */
  ghost predicate AscendsFrom(backlog: seq<Entry>, last: int) {
    && (forall i :: 0 <= i < |backlog| && backlog[i].Json? ==> last < backlog[i].m.MsgID)
    && (forall i, j :: 0 <= i < j < |backlog| && backlog[i].Json? && backlog[j].Json? ==>
          backlog[i].m.MsgID < backlog[j].m.MsgID)
  }

  ghost predicate Decodes(backlog: seq<Entry>) {
    forall i :: 0 <= i < |backlog| ==> backlog[i].Json?
  }

  ghost predicate Ascends(ids: seq<int>) {
    forall i, j :: 0 <= i < j < |ids| ==> ids[i] < ids[j]
  }

  ghost predicate AllAbove(ids: seq<int>, mid: int) {
    forall i :: 0 <= i < |ids| ==> mid < ids[i]
  }

  ghost function LastOr(ids: seq<int>, mid: int): int {
    if ids == [] then mid else ids[|ids| - 1]
  }

  /** The ids of the messages of a backlog that are expired, or of those that are live. */
  ghost function Ids(backlog: seq<Entry>, env: Env, expired: bool): seq<int> {
    if backlog == [] then []
    else
      var more := Ids(backlog[1..], env, expired);
      if backlog[0].Json? && env.Expired(backlog[0].m) == expired then [backlog[0].m.MsgID] + more else more
  }

  /** A replay writes ascending ids above the cursor and ends with the cursor on the last of them. */
  lemma {:induction false} ReplayAscends(backlog: seq<Entry>, last: int, env: Env)
    requires AscendsFrom(backlog, last)
    ensures var r := Replay(backlog, last, env);
      Ascends(r.sent) && AllAbove(r.sent, last) && r.last == LastOr(r.sent, last)
  {
    if backlog == [] {
    } else if backlog[0].Json? {
      var m := backlog[0].m;
      if env.Expired(m) {
        ReplayAscends(backlog[1..], last, env);
      } else if env.accept(m.MsgID) {
        ReplayAscends(backlog[1..], m.MsgID, env);
      }
    }
  }

  /** A replay stops at the first entry, number `k`, that does not decode or is live and fails to be
      written.  Up to there it has written exactly the live messages and asked for the removal of
      exactly the expired ones, in order. */
  lemma {:induction false} ReplayIs(backlog: seq<Entry>, last: int, env: Env) returns (k: nat)
    ensures k <= |backlog|
    ensures forall i :: 0 <= i < k ==>
      backlog[i].Json? && var m := backlog[i].m; env.tick(m.MsgID) > m.Expire || env.accept(m.MsgID)
    ensures k < |backlog| && backlog[k].Json? ==>
      var m := backlog[k].m; env.tick(m.MsgID) <= m.Expire && !env.accept(m.MsgID)
    ensures var r := Replay(backlog, last, env);
      && r.sent == Ids(backlog[..k], env, false) && r.dropped == Ids(backlog[..k], env, true)
      && r.err == if k == |backlog| then NoError else if backlog[k].Garbled? then PanicNilMessage else WriteErr
  {
    if backlog == [] {
      k := 0;
    } else if env.Passes(backlog[0]) {
      var m := backlog[0].m;
      var n := ReplayIs(backlog[1..], if env.Expired(m) then last else m.MsgID, env);
      k := n + 1;
      assert backlog[..k][1..] == backlog[1..][..n];
      assert forall i :: 0 < i < k ==> backlog[i] == backlog[1..][i - 1];
    } else {
      k := 0;
    }
  }

  /** What stands in the lists of written and dropped ids: `id` is there if and only if some entry
      carries it whose deadline has not passed, or has passed, at the time of its visit. */
  lemma {:induction false} IdsAre(backlog: seq<Entry>, env: Env, expired: bool, id: int)
    ensures id in Ids(backlog, env, expired) <==>
      exists i :: 0 <= i < |backlog| && backlog[i].Json? && backlog[i].m.MsgID == id &&
        (if expired then env.tick(id) > backlog[i].m.Expire else env.tick(id) <= backlog[i].m.Expire)
  {
    if backlog == [] {
    } else {
      var rest := backlog[1..];
      IdsAre(rest, env, expired, id);
      assert forall i :: 0 < i < |backlog| ==> backlog[i] == rest[i - 1];
      assert forall i :: 0 <= i < |rest| ==> backlog[i + 1] == rest[i];
    }
  }

  lemma NoPanic(backlog: seq<Entry>, last: int, env: Env)
    requires Decodes(backlog)
    ensures Replay(backlog, last, env).err in {NoError, WriteErr}
  {
    var k := ReplayIs(backlog, last, env);
  }

  /** Which errors SendMsg gives before it comes to the backlog, and that it gives no other then. */
  lemma RefusesExactly(ch: Chan, limit: int, c: ConnId, mid: int, reply: Reply, env: Env)
    ensures var (t, err) := SendMsg(ch, limit, c, mid, reply, env);
      && (err == RedisNoConnErr <==> reply.NoConn?)
      && (err == MaxConnErr <==> !reply.NoConn? && |ch.cursor| >= limit)
      && (err == RedisErr <==> reply.Failed? && |ch.cursor| < limit)
      && (reply.NoConn? || |ch.cursor| >= limit ==> t == ch)
  {
    if reply.Backlog? {
      var k := ReplayIs(reply.entries, mid, env);
    }
  }

  /** SendMsg panics exactly when its loop reaches an entry that does not decode; the connection then
      stays registered with the cursor it came with. */
  lemma PanicsExactly(ch: Chan, limit: int, c: ConnId, mid: int, reply: Reply, env: Env)
    ensures SendMsg(ch, limit, c, mid, reply, env).1 == PanicNilMessage <==>
      && Replays(ch, limit, reply)
      && exists k :: 0 <= k < |reply.entries| && reply.entries[k].Garbled? &&
           forall i :: 0 <= i < k ==>
             reply.entries[i].Json? &&
             var m := reply.entries[i].m; env.tick(m.MsgID) > m.Expire || env.accept(m.MsgID)
    ensures var (t, err) := SendMsg(ch, limit, c, mid, reply, env);
      err == PanicNilMessage ==> t.cursor == ch.cursor[c := mid]
  {
    if Replays(ch, limit, reply) {
      var k := ReplayIs(reply.entries, mid, env);
    }
  }
}

/** The channel object of redis_channel.go. */
module RedisChannels {
  import opened Messages
  import opened Sequences
  import opened RedisSpec

  /** The online counters in Redis, by key; the field for this node. */
  class Redis {
    var online: map<string, int>

    constructor ()
      ensures online == map[]
    {
      online := map[];
    }

    /** HINCRBY; `up` is whether the command takes effect. */
    method HincrBy(key: string, delta: int, up: bool) returns (err: Error)
      modifies this
      ensures if up then err == NoError && online == old(online)[key := Count(old(online), key) + delta]
              else err == RedisErr && online == old(online)
    {
      if !up {
        return RedisErr;
      }
      online := online[key := Count(online, key) + delta];
      return NoError;
    }
  }

  class RedisChannel {
    var conn: map<ConnId, int>
    ghost var log: map<ConnId, seq<int>>

    ghost function View(): Chan
      reads this
    {
      Chan(conn, log)
    }

    constructor ()
      ensures View() == Chan(map[], map[])
    {
      conn, log := map[], map[];
    }

    method PushMsg(m: Message, accepts: ConnId -> bool)
      modifies this
      ensures View() == RedisSpec.PushMsg(old(View()), m.MsgID, accepts)
    {
      ghost var before, done := View(), {};
      PushToNone(before, m.MsgID, accepts);
      var todo := conn.Keys;
      while todo != {}
        invariant done !! todo && done + todo == before.cursor.Keys
        invariant View() == PushTo(before, done, m.MsgID, accepts)
        decreases todo
      {
        assert (forall c :: c !in todo) ==> todo == {};
        var c :| c in todo;
        PushToOneMore(before, done, c, m.MsgID, accepts);
        if conn[c] < m.MsgID {
          var ok := accepts(c);
          if ok {
            log := log[c := Log(View(), c) + [m.MsgID]];
            conn := conn[c := m.MsgID];
          }
        }
        todo, done := todo - {c}, done + {c};
      }
      assert done == before.cursor.Keys;
    }

    /** The loop of SendMsg: each message of the backlog is dropped if it has expired, else written;
        `nmid` is the last id written. */
    method Write(backlog: seq<Entry>, mid: int, env: Env)
      returns (nmid: int, err: Error, ghost sent: seq<int>, ghost dropped: seq<int>)
      ensures nmid == Replay(backlog, mid, env).last && err == Replay(backlog, mid, env).err
      ensures sent == Replay(backlog, mid, env).sent && dropped == Replay(backlog, mid, env).dropped
    {
      hide Replay;
      nmid, sent, dropped := mid, [], [];
      var i := 0;
      ghost var all := Replay(backlog, mid, env);
      assert all == Resumed(backlog, nmid, env, sent, dropped);
      assert backlog[0..] == backlog;
      while i < |backlog|
        invariant 0 <= i <= |backlog|
        invariant all == Resumed(backlog[i..], nmid, env, sent, dropped)
      {
        ReplayStep(backlog[i..], nmid, env, sent, dropped);
        assert backlog[i..][1..] == backlog[i + 1..];
        if backlog[i].Garbled? {
          err := PanicNilMessage;
          return;
        }
        var m := backlog[i].m;
        i := i + 1;
        if m.Expired(env.tick(m.MsgID)) {
          dropped := dropped + [m.MsgID];
          continue;
        }
        if !env.accept(m.MsgID) {
          err := WriteErr;
          return;
        }
        nmid := m.MsgID;
        sent := sent + [m.MsgID];
      }
      assert backlog[i..] == [];
      ReplayEnds(nmid, env, sent, dropped);
      err := NoError;
    }

    /** `reply` is what Redis answers to the range query, `dropped` what it is asked to remove. */
    method SendMsg(limit: int, c: ConnId, mid: int, reply: Reply, env: Env)
      returns (err: Error, ghost dropped: seq<int>)
      modifies this
      ensures (View(), err) == RedisSpec.SendMsg(old(View()), limit, c, mid, reply, env)
      ensures dropped == Dropped(old(View()), limit, mid, reply, env)
      ensures err == RedisNoConnErr <==> reply.NoConn?
      ensures err == MaxConnErr <==> !reply.NoConn? && |old(conn)| >= limit
      ensures err == RedisErr <==> reply.Failed? && |old(conn)| < limit
    {
      hide Replay;
      RefusesExactly(View(), limit, c, mid, reply, env);
      dropped := [];
      if reply.NoConn? {
        err := RedisNoConnErr;
        return;
      }
      if |conn| + 1 > limit {
        err := MaxConnErr;
        return;
      }
      conn := conn[c := mid];
      if reply.Failed? {
        conn := conn - {c};
        err := RedisErr;
        return;
      }
      var nmid;
      ghost var sent;
      nmid, err, sent, dropped := Write(reply.entries, mid, env);
      log := log[c := Log(View(), c) + sent];
      if err == PanicNilMessage {
        return;
      }
      if err != NoError {
        conn := conn - {c};
        return;
      }
      conn := conn[c := nmid];
    }

    /** The outcome of a loop that has already written `sent` and dropped `dropped`. */
    ghost function Resumed(backlog: seq<Entry>, last: int, env: Env, sent: seq<int>, dropped: seq<int>): Replayed {
      var r := Replay(backlog, last, env);
      r.(sent := sent + r.sent, dropped := dropped + r.dropped)
    }

    lemma ReplayStep(backlog: seq<Entry>, last: int, env: Env, sent: seq<int>, dropped: seq<int>)
      requires backlog != []
      ensures Resumed(backlog, last, env, sent, dropped) ==
        if backlog[0].Garbled? then Replayed(last, sent, dropped, PanicNilMessage)
        else
          var m := backlog[0].m;
          if env.Expired(m) then Resumed(backlog[1..], last, env, sent, dropped + [m.MsgID])
          else if !env.accept(m.MsgID) then Replayed(last, sent, dropped, WriteErr)
          else Resumed(backlog[1..], m.MsgID, env, sent + [m.MsgID], dropped)
    {
      assert sent + [] == sent && dropped + [] == dropped;
      if backlog[0].Json? {
        var id := [backlog[0].m.MsgID];
        Associative(dropped, id, Replay(backlog[1..], last, env).dropped);
        Associative(sent, id, Replay(backlog[1..], backlog[0].m.MsgID, env).sent);
      }
    }

    lemma ReplayEnds(last: int, env: Env, sent: seq<int>, dropped: seq<int>)
      ensures Resumed([], last, env, sent, dropped) == Replayed(last, sent, dropped, NoError)
    {
      assert sent + [] == sent && dropped + [] == dropped;
    }

    /** Counting a session in; when Redis fails, the connection is unregistered again.  `rc` is
        whether there is a Redis connection, `up` whether the command takes effect. */
    method AddConn(redis: Redis, c: ConnId, key: string, rc: bool, up: bool) returns (err: Error)
      modifies this`conn, redis
      ensures View() == if rc && up then old(View()) else Unregister(old(View()), c)
      ensures redis.online ==
        if rc && up then old(redis.online)[key := Count(old(redis.online), key) + 1] else old(redis.online)
      ensures err == NoError <==> rc && up
    {
      if !rc {
        conn := conn - {c};
        return RedisNoConnErr;
      }
      err := redis.HincrBy(key, 1, up);
      if err != NoError {
        conn := conn - {c};
      }
    }

    method RemoveConn(redis: Redis, c: ConnId, key: string, rc: bool, up: bool) returns (err: Error)
      modifies this`conn, redis
      ensures View() == Unregister(old(View()), c)
      ensures redis.online ==
        if rc && up then old(redis.online)[key := Count(old(redis.online), key) - 1] else old(redis.online)
      ensures err == NoError <==> rc && up
    {
      conn := conn - {c};
      if !rc {
        return RedisNoConnErr;
      }
      err := redis.HincrBy(key, -1, up);
    }
  }
}
