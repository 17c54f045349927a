/** The inner channel's critical sections (inner_channel.go:39-143) as functions on values. */
module InnerSpec {
  import opened FiniteSets
  import opened Messages

  /** `tcp` is whether Conf.Protocol is TCP; in that mode Bytes(nil) fails. */
  datatype Conf = Conf(MaxMessage: int, MaxSubscriberPerKey: int, tcp: bool)

  datatype Error = NoError | MsgExpiredErr | ErrNodeExists | MsgBufErr | MaxConnErr | WriteErr
    | PanicHeadNil  // the source panics: "Skiplist head nil"

  /** One attempt to write a message to a connection. */
  datatype Attempt = Attempt(msg: Message, ok: bool)

  /** What has been written to each connection. */
  type Log = map<ConnId, seq<Attempt>>

  datatype State = State(store: map<int, Message>, conns: set<ConnId>, log: Log)

  ghost function Entry(log: Log, c: ConnId): seq<Attempt> {
    if c in log then log[c] else []
  }

  /** The log with further attempts on connection `c`. */
  ghost function Attempted(log: Log, c: ConnId, ws: seq<Attempt>): Log {
    log[c := Entry(log, c) + ws]
  }

  ghost function Trimmed(store: map<int, Message>, cf: Conf): map<int, Message>
  {
    if |store| + 1 > cf.MaxMessage && store.Keys != {} then store - {Least(store.Keys)} else store
  }

  /** The log once `m` has been tried on each of `conns`. */
  ghost function Deliver(log: Log, conns: set<ConnId>, m: Message, accepts: ConnId -> bool): Log {
    map c | c in log.Keys + conns :: if c in conns then Entry(log, c) + [Attempt(m, accepts(c))] else log[c]
  }

  lemma DeliverOne(log: Log, done: set<ConnId>, c: ConnId, m: Message, accepts: ConnId -> bool)
    requires c !in done
    ensures var l := Deliver(log, done, m, accepts);
      l[c := Entry(l, c) + [Attempt(m, accepts(c))]] == Deliver(log, done + {c}, m, accepts)
  {
  }

  /** What a push does to the store: a full store first drops its least message, even when the push
      is then rejected. */
  ghost function StoreAfter(store: map<int, Message>, cf: Conf, m: Message): (map<int, Message>, Error) {
    if |store| + 1 > cf.MaxMessage && store.Keys == {} then (store, PanicHeadNil)
    else
      var trimmed := Trimmed(store, cf);
      if m.MsgID in trimmed then (trimmed, ErrNodeExists) else (trimmed[m.MsgID := m], NoError)
  }

  /** PushMsg at time `now`; `accepts` says which connections take the write. */
  ghost function Push(s: State, cf: Conf, m: Message, now: int, accepts: ConnId -> bool): (State, Error) {
    if m.Expired(now) then (s, MsgExpiredErr)
    else
      var (store, err) := StoreAfter(s.store, cf, m);
      if err != NoError then (s.(store := store), err)
      else if cf.tcp then (s.(store := store), MsgBufErr)
      else (s.(store := store, log := Deliver(s.log, s.conns, m, accepts)), NoError)
  }

  /** The surroundings of one SendMsg call: `tick(k)` is the clock when message `k` is visited and
      `accept(k)` whether writing it succeeds.  A call visits each message at most once, so
      indexing by message is no restriction. */
  datatype Env = Env(tcp: bool, tick: int -> int, accept: int -> bool) {
    ghost predicate Expired(m: Message, k: int) {
      m.Expired(tick(k))
    }

    /** Whether the walk goes on past message `m` at key `k`. */
    ghost predicate Passes(m: Message, k: int) {
      Expired(m, k) || (!tcp && accept(k))
    }
  }

  /** What a replay leaves in the store, what it wrote, and how it ended. */
  datatype Replayed = Replayed(store: map<int, Message>, writes: seq<Attempt>, err: Error)

  ghost function KeysAbove(store: map<int, Message>, mid: int): set<int> {
    set k | k in store && mid < k
  }

  /** SendMsg's walk over the messages above `mid`. */
  ghost function Replay(store: map<int, Message>, mid: int, env: Env): Replayed
    decreases |KeysAbove(store, mid)|
  {
    var above := KeysAbove(store, mid);
    if above == {} then Replayed(store, [], NoError)
    else
      var k := Least(above);
      var m := store[k];
      if env.Expired(m, k) then
        assert KeysAbove(store - {k}, k) == above - {k};
        Replay(store - {k}, k, env)
      else if env.tcp then Replayed(store, [], MsgBufErr)
      else if !env.accept(k) then Replayed(store, [Attempt(m, false)], WriteErr)
      else
        assert KeysAbove(store, k) == above - {k};
        var r := Replay(store, k, env);
        r.(writes := [Attempt(m, true)] + r.writes)
  }

  ghost function Send(s: State, cf: Conf, c: ConnId, mid: int, tick: int -> int, accept: int -> bool): (State, Error) {
    var r := Replay(s.store, mid, Env(cf.tcp, tick, accept));
    (s.(store := r.store, log := Attempted(s.log, c, r.writes)), r.err)
  }

  ghost function Add(s: State, cf: Conf, c: ConnId): (State, Error) {
    if |s.conns| + 1 > cf.MaxSubscriberPerKey then (s, MaxConnErr)
    else (s.(conns := s.conns + {c}), NoError)
  }

  ghost function Remove(s: State, c: ConnId): State {
    s.(conns := s.conns - {c})
  }

  /** The outcome of a walk that has already written `done` and goes on from key `from`. */
  ghost function Resumed(store: map<int, Message>, from: int, env: Env, done: seq<Attempt>): Replayed {
    var r := Replay(store, from, env);
    r.(writes := done + r.writes)
  }

  /** One step of the walk, at the least key `k` above `from`. */
  lemma ReplayStep(store: map<int, Message>, from: int, env: Env, done: seq<Attempt>, k: int)
    requires k in KeysAbove(store, from) && forall j :: j in KeysAbove(store, from) ==> k <= j
    ensures Resumed(store, from, env, done) ==
      if env.Expired(store[k], k) then Resumed(store - {k}, k, env, done)
      else if env.tcp then Replayed(store, done, MsgBufErr)
      else
        var done' := done + [Attempt(store[k], env.accept(k))];
        if env.accept(k) then Resumed(store, k, env, done') else Replayed(store, done', WriteErr)
  {
    LeastIs(KeysAbove(store, from), k);
    assert done + [] == done;
    if !env.Expired(store[k], k) && !env.tcp && env.accept(k) {
      var w := [Attempt(store[k], true)];
      assert forall ws: seq<Attempt> :: done + (w + ws) == (done + w) + ws;
    }
  }

  lemma ReplayStarts(store: map<int, Message>, from: int, env: Env)
    ensures Resumed(store, from, env, []) == Replay(store, from, env)
  {
    hide Replay;
    assert [] + Replay(store, from, env).writes == Replay(store, from, env).writes;
  }

  lemma FewerAhead(store: map<int, Message>, from: int, k: int)
    requires k in KeysAbove(store, from)
    ensures KeysAbove(store, k) < KeysAbove(store, from) && KeysAbove(store - {k}, k) < KeysAbove(store, from)
  {
  }

  lemma ReplayEnd(store: map<int, Message>, from: int, env: Env, done: seq<Attempt>)
    requires KeysAbove(store, from) == {}
    ensures Resumed(store, from, env, done) == Replayed(store, done, NoError)
  {
    assert done + [] == done;
  }

  /** Whether the walk reaches key `k` at all: nothing before it stops the walk. */
  ghost predicate Visited(store: map<int, Message>, mid: int, env: Env, k: int) {
    && k in store && mid < k
    && forall j :: j in store && mid < j < k ==> env.Passes(store[j], j)
  }

  ghost predicate KeyedById(store: map<int, Message>) {
    forall k :: k in store ==> store[k].MsgID == k
  }

  /** The step of the walk at its least key `k`: `k` is visited, and beyond `k` the walk reaches
      what it reaches over the store `rest` it is left with, if `k` lets it pass. */
  lemma VisitStep(store: map<int, Message>, rest: map<int, Message>, mid: int, env: Env, k: int)
    requires KeysAbove(store, mid) != {} && k == Least(KeysAbove(store, mid))
    requires rest == store || rest == store - {k}
    ensures KeysAbove(rest, k) == KeysAbove(store, mid) - {k}
    ensures forall j :: j in store && mid < j ==> k <= j
    ensures Visited(store, mid, env, k)
    ensures forall j :: k < j ==> (Visited(store, mid, env, j) <==> env.Passes(store[k], k) && Visited(rest, k, env, j))
  {
    assert forall j :: j in store && mid < j ==> j in KeysAbove(store, mid);
    forall j | k < j && Visited(rest, k, env, j) && env.Passes(store[k], k)
      ensures Visited(store, mid, env, j)
    {
      assert forall x :: x in store && mid < x < j && x != k ==> x in rest;
    }
  }

  /** A walk that ends with `kept` and `err` has removed exactly the expired messages it visited and
      kept everything else; it ended well exactly when every message above `mid` let it pass. */
  ghost predicate RemovesExactly(
    kept: map<int, Message>, err: Error, store: map<int, Message>, mid: int, env: Env)
  {
    && (forall k :: k in kept <==> k in store && !(Visited(store, mid, env, k) && env.Expired(store[k], k)))
    && (forall k :: k in kept ==> kept[k] == store[k])
    && (err == NoError <==> forall k :: k in store && mid < k ==> env.Passes(store[k], k))
  }

  lemma RemovesNothing(store: map<int, Message>, mid: int, env: Env)
    requires KeysAbove(store, mid) == {}
    ensures RemovesExactly(store, NoError, store, mid, env)
  {
    assert forall j :: j in store && mid < j ==> j in KeysAbove(store, mid);
  }

  /** The first step of a walk, which goes on with `rest` or ends there. */
  lemma RemovesFirst(
    kept: map<int, Message>, err: Error, store: map<int, Message>, rest: map<int, Message>, mid: int, env: Env, k: int)
    requires KeysAbove(store, mid) != {} && k == Least(KeysAbove(store, mid))
    requires rest == if env.Expired(store[k], k) then store - {k} else store
    requires if env.Passes(store[k], k) then RemovesExactly(kept, err, rest, k, env) else kept == rest && err != NoError
    ensures RemovesExactly(kept, err, store, mid, env)
  {
    VisitStep(store, rest, mid, env, k);
    hide Visited;
    if env.Passes(store[k], k) {
      assert forall j :: j in store && mid < j && j != k ==> j in rest && k < j;
    }
  }

  lemma {:induction false} ReplayRemoves(store: map<int, Message>, mid: int, env: Env)
    ensures RemovesExactly(Replay(store, mid, env).store, Replay(store, mid, env).err, store, mid, env)
    decreases |KeysAbove(store, mid)|
  {
    hide RemovesExactly;
    var above := KeysAbove(store, mid);
    if above == {} {
      RemovesNothing(store, mid, env);
    } else {
      var k := Least(above);
      var rest := if env.Expired(store[k], k) then store - {k} else store;
      VisitStep(store, rest, mid, env, k);
      if env.Passes(store[k], k) {
        ReplayRemoves(rest, k, env);
      }
      RemovesFirst(Replay(store, mid, env).store, Replay(store, mid, env).err, store, rest, mid, env, k);
    }
  }

  lemma {:induction false} ReplayFailsOnWrite(store: map<int, Message>, mid: int, env: Env)
    requires !env.tcp
    ensures Replay(store, mid, env).err != NoError ==> Replay(store, mid, env).err == WriteErr
    decreases |KeysAbove(store, mid)|
  {
    var above := KeysAbove(store, mid);
    if above == {} {
    } else {
      var k := Least(above);
      var rest := if env.Expired(store[k], k) then store - {k} else store;
      VisitStep(store, rest, mid, env, k);
      ReplayFailsOnWrite(rest, k, env);
    }
  }

  lemma {:induction false} TcpReplayWritesNothing(store: map<int, Message>, mid: int, env: Env)
    requires env.tcp
    ensures Replay(store, mid, env).writes == []
    decreases |KeysAbove(store, mid)|
  {
    var above := KeysAbove(store, mid);
    if above == {} {
    } else {
      var k := Least(above);
      VisitStep(store, store - {k}, mid, env, k);
      TcpReplayWritesNothing(store - {k}, k, env);
    }
  }

  lemma {:induction false} ReplayEnds(store: map<int, Message>, mid: int, env: Env)
    ensures Replay(store, mid, env).err in {NoError, MsgBufErr, WriteErr}
    decreases |KeysAbove(store, mid)|
  {
    var above := KeysAbove(store, mid);
    if above == {} {
    } else {
      var k := Least(above);
      var rest := if env.Expired(store[k], k) then store - {k} else store;
      VisitStep(store, rest, mid, env, k);
      ReplayEnds(rest, k, env);
    }
  }

  // ----- a push and a replay spelled out -----

  /** Everything a push does; `least` is the least id of a store that is full and not empty. */
  lemma PushSpelledOut(s: State, cf: Conf, m: Message, now: int, accepts: ConnId -> bool, least: int)
    requires |s.store| >= cf.MaxMessage && s.store.Keys != {} ==>
      least in s.store && forall k :: k in s.store ==> least <= k
    ensures var (t, err) := Push(s, cf, m, now, accepts);
      if now > m.Expire then t == s && err == MsgExpiredErr
      else if |s.store| >= cf.MaxMessage && s.store.Keys == {} then t == s && err == PanicHeadNil
      else
        var kept := if |s.store| >= cf.MaxMessage then s.store - {least} else s.store;
        && t.conns == s.conns
        && t.store == (if m.MsgID in kept then kept else kept[m.MsgID := m])
        && err == (if m.MsgID in kept then ErrNodeExists else if cf.tcp then MsgBufErr else NoError)
  {
    hide Deliver;
    if |s.store| >= cf.MaxMessage && s.store.Keys != {} {
      LeastIs(s.store.Keys, least);
    }
  }

  /** What each connection is sent by a push: one attempt if it is registered and the push succeeds,
      otherwise nothing. */
  lemma PushReaches(s: State, cf: Conf, m: Message, now: int, accepts: ConnId -> bool, c: ConnId)
    ensures var (t, err) := Push(s, cf, m, now, accepts);
      Entry(t.log, c) ==
        if err == NoError && c in s.conns then Entry(s.log, c) + [Attempt(m, accepts(c))] else Entry(s.log, c)
  {
    hide StoreAfter;
  }

  /** Which messages a replay writes and which it removes, by their ids and deadlines. */
  lemma ReplaySpelledOut(store: map<int, Message>, mid: int, env: Env)
    requires KeyedById(store)
    ensures var r := Replay(store, mid, env);
      && (forall a :: 0 <= a < |r.writes| ==>
            var m := r.writes[a].msg;
            && m.MsgID in store && store[m.MsgID] == m && mid < m.MsgID
            && env.tick(m.MsgID) <= m.Expire && r.writes[a].ok == env.accept(m.MsgID))
      && (forall a, b :: 0 <= a < b < |r.writes| ==> r.writes[a].msg.MsgID < r.writes[b].msg.MsgID)
      && (forall k :: k in r.store ==> k in store && r.store[k] == store[k])
      && (forall k :: k in store && k !in r.store ==> mid < k && env.tick(k) > store[k].Expire)
    ensures var r := Replay(store, mid, env);
      r.err == NoError ==> forall k :: k in store && mid < k ==>
        if env.tick(k) > store[k].Expire then k !in r.store else k in r.store && Attempt(store[k], true) in r.writes
  {
    hide Replay;
    ReplayRemoves(store, mid, env);
    if env.tcp {
      TcpReplayWritesNothing(store, mid, env);
    } else {
      ReplayWrites(store, mid, env);
      assert forall a :: 0 <= a < |Replay(store, mid, env).writes| ==>
        WritesLive(Replay(store, mid, env).writes[a], store, mid, env);
    }
  }

  ghost predicate Ascending(ws: seq<Attempt>) {
    forall a, b :: 0 <= a < b < |ws| ==> ws[a].msg.MsgID < ws[b].msg.MsgID
  }

  /** `w` writes a message that the walk visits and finds live. */
  ghost predicate WritesLive(w: Attempt, store: map<int, Message>, mid: int, env: Env) {
    var k := w.msg.MsgID;
    Visited(store, mid, env, k) && store[k] == w.msg && !env.Expired(w.msg, k) && w.ok == env.accept(k)
  }

  /** The writes of a replay: in strictly ascending id order, exactly the messages that were
      visited and live then; each succeeded except the one, if any, that ended the walk. */
  ghost predicate WritesExactly(ws: seq<Attempt>, store: map<int, Message>, mid: int, env: Env) {
    && Ascending(ws)
    && (forall a :: 0 <= a < |ws| ==> WritesLive(ws[a], store, mid, env))
    && (forall k :: Visited(store, mid, env, k) && !env.Expired(store[k], k) ==> Attempt(store[k], env.accept(k)) in ws)
  }

  lemma {:induction false} ReplayWrites(store: map<int, Message>, mid: int, env: Env)
    requires KeyedById(store) && !env.tcp
    ensures WritesExactly(Replay(store, mid, env).writes, store, mid, env)
    decreases |KeysAbove(store, mid)|
  {
    hide WritesExactly, Visited;
    var above := KeysAbove(store, mid);
    if above == {} {
      WritesNothing(store, mid, env);
    } else {
      var k := Least(above);
      var rest := if env.Expired(store[k], k) then store - {k} else store;
      VisitStep(store, rest, mid, env, k);
      if env.Expired(store[k], k) {
        ReplayWrites(rest, k, env);
        SkipWrite(Replay(rest, k, env).writes, store, mid, env, k);
      } else if env.accept(k) {
        ReplayWrites(rest, k, env);
        PrependWrite(Replay(rest, k, env).writes, store, mid, env, k);
      } else {
        LastWrite(store, mid, env, k);
      }
    }
  }

  lemma WritesNothing(store: map<int, Message>, mid: int, env: Env)
    requires KeysAbove(store, mid) == {}
    ensures WritesExactly([], store, mid, env)
  {
    assert forall j :: j in store && mid < j ==> j in KeysAbove(store, mid);
  }

  lemma SkipWrite(ws: seq<Attempt>, store: map<int, Message>, mid: int, env: Env, k: int)
    requires KeysAbove(store, mid) != {} && k == Least(KeysAbove(store, mid)) && env.Expired(store[k], k)
    requires WritesExactly(ws, store - {k}, k, env)
    ensures WritesExactly(ws, store, mid, env)
  {
    VisitStep(store, store - {k}, mid, env, k);
    assert forall j :: Visited(store - {k}, k, env, j) ==> k < j;
    assert forall j :: Visited(store, mid, env, j) ==> mid < j && k <= j;
    hide Visited;
  }

  lemma LastWrite(store: map<int, Message>, mid: int, env: Env, k: int)
    requires KeyedById(store) && KeysAbove(store, mid) != {} && k == Least(KeysAbove(store, mid))
    requires !env.Passes(store[k], k) && !env.tcp
    ensures WritesExactly([Attempt(store[k], false)], store, mid, env)
  {
    VisitStep(store, store, mid, env, k);
    assert forall j :: Visited(store, mid, env, j) ==> j == k || k < j;
  }

  lemma PrependWrite(ws: seq<Attempt>, store: map<int, Message>, mid: int, env: Env, k: int)
    requires KeyedById(store) && !env.tcp
    requires KeysAbove(store, mid) != {} && k == Least(KeysAbove(store, mid))
    requires !env.Expired(store[k], k) && env.accept(k) && WritesExactly(ws, store, k, env)
    ensures WritesExactly([Attempt(store[k], true)] + ws, store, mid, env)
  {
    VisitStep(store, store, mid, env, k);
    var all := [Attempt(store[k], true)] + ws;
    assert forall a :: 0 < a < |all| ==>
      all[a] == ws[a - 1] && WritesLive(all[a], store, mid, env) && all[a].msg.MsgID > k;
    assert Ascending(all) by {
      assert forall a, b :: 0 < a < b < |all| ==> all[a] == ws[a - 1] && all[b] == ws[b - 1];
    }
    forall j | Visited(store, mid, env, j) && !env.Expired(store[j], j)
      ensures Attempt(store[j], env.accept(j)) in all
    {
      assert j != k ==> Visited(store, k, env, j) && Attempt(store[j], env.accept(j)) in ws;
    }
  }
}
