/** Whole runs of the inner channel: any interleaving of critical sections of many sessions. */
module InnerRuns {
  import opened FiniteSets
  import opened Messages
  import opened Sequences
  import opened InnerSpec

  datatype Event =
    | PushE(m: Message, now: int, accepts: ConnId -> bool)
    | SendE(c: ConnId, mid: int, tick: int -> int, accept: int -> bool)
    | AddE(c: ConnId)
    | RemoveE(c: ConnId)

  /** A session makes these steps in this order (pubsub_http.go:127-177); it ends early when one of
      them fails. */
  datatype Phase = Fresh | Sent | Joined | Closed

  ghost function Step(s: State, cf: Conf, e: Event): (State, Error) {
    match e
    case PushE(m, now, accepts) => Push(s, cf, m, now, accepts)
    case SendE(c, mid, tick, accept) => Send(s, cf, c, mid, tick, accept)
    case AddE(c) => Add(s, cf, c)
    case RemoveE(c) => (Remove(s, c), NoError)
  }

  /** The channel after the first `n` events. */
  ghost function At(cf: Conf, es: seq<Event>, n: nat): State
    requires n <= |es|
  {
    if n == 0 then State(map[], {}, map[]) else Step(At(cf, es, n - 1), cf, es[n - 1]).0
  }

  ghost function Err(cf: Conf, es: seq<Event>, n: nat): Error
    requires n < |es|
  {
    Step(At(cf, es, n), cf, es[n]).1
  }

  ghost function PhaseAt(cf: Conf, es: seq<Event>, n: nat, c: ConnId): Phase
    requires n <= |es|
  {
    if n == 0 then Fresh
    else
      var ok := Err(cf, es, n - 1) == NoError;
      match es[n - 1]
      case SendE(d, _, _, _) => if d == c then (if ok then Sent else Closed) else PhaseAt(cf, es, n - 1, c)
      case AddE(d) => if d == c then (if ok then Joined else Closed) else PhaseAt(cf, es, n - 1, c)
      case RemoveE(d) => if d == c then Closed else PhaseAt(cf, es, n - 1, c)
      case PushE(_, _, _) => PhaseAt(cf, es, n - 1, c)
  }

  /** Every session keeps to the order of its steps. */
  ghost predicate InOrder(cf: Conf, es: seq<Event>) {
    forall n :: 0 <= n < |es| ==> MayHappen(cf, es, n)
  }

  ghost predicate MayHappen(cf: Conf, es: seq<Event>, n: nat)
    requires n < |es|
  {
    && (es[n].SendE? ==> PhaseAt(cf, es, n, es[n].c) == Fresh)
    && (es[n].AddE? ==> PhaseAt(cf, es, n, es[n].c) == Sent)
    && (es[n].RemoveE? ==> PhaseAt(cf, es, n, es[n].c) == Joined)
  }

  /** Every push brings a message object of its own. */
  ghost predicate OwnObjects(es: seq<Event>) {
    forall i, j :: 0 <= i < j < |es| && es[i].PushE? && es[j].PushE? ==> es[i].m.ref != es[j].m.ref
  }

  /** Event `i` pushed a message that was stored. */
  ghost predicate Accepted(cf: Conf, es: seq<Event>, i: nat) {
    i < |es| && es[i].PushE? && (Err(cf, es, i) == NoError || Err(cf, es, i) == MsgBufErr)
  }

  ghost predicate Held(cf: Conf, es: seq<Event>, n: nat, m: Message)
    requires n <= |es|
  {
    m.MsgID in At(cf, es, n).store && At(cf, es, n).store[m.MsgID] == m
  }

  // ----- where stored and written messages come from -----

  ghost predicate Pushed(cf: Conf, es: seq<Event>, n: nat, m: Message) {
    exists i :: 0 <= i < n && Accepted(cf, es, i) && es[i].m == m
  }

  /** A step stores nothing but the message it pushes. */
  lemma StepStores(s: State, cf: Conf, e: Event)
    ensures var (t, err) := Step(s, cf, e);
      forall k :: k in t.store ==>
        || (k in s.store && t.store[k] == s.store[k])
        || (e.PushE? && (err == NoError || err == MsgBufErr) && e.m.MsgID == k && t.store[k] == e.m)
  {
    hide Replay, Visited, Deliver, Attempted, Trimmed;
    if e.SendE? {
      ReplayRemoves(s.store, e.mid, Env(cf.tcp, e.tick, e.accept));
    } else if e.PushE? {
      TrimKeeps(s.store, cf);
    }
  }

  lemma TrimKeeps(store: map<int, Message>, cf: Conf)
    ensures forall k :: k in Trimmed(store, cf) ==> k in store && Trimmed(store, cf)[k] == store[k]
    ensures |Trimmed(store, cf)| == |store| || |Trimmed(store, cf)| == |store| - 1
    ensures |store| + 1 > cf.MaxMessage && store.Keys != {} ==> |Trimmed(store, cf)| == |store| - 1
  {
  }

  lemma {:induction false} StoredWasPushed(cf: Conf, es: seq<Event>, n: nat)
    requires n <= |es|
    ensures KeyedById(At(cf, es, n).store)
    ensures forall k :: k in At(cf, es, n).store ==> Pushed(cf, es, n, At(cf, es, n).store[k])
  {
    hide Step;
    if n == 0 {
    } else {
      StoredWasPushed(cf, es, n - 1);
      var s, t := At(cf, es, n - 1), At(cf, es, n);
      StepStores(s, cf, es[n - 1]);
      forall k | k in t.store
        ensures t.store[k].MsgID == k && Pushed(cf, es, n, t.store[k])
      {
        if k in s.store && t.store[k] == s.store[k] {
          var i :| 0 <= i < n - 1 && Accepted(cf, es, i) && es[i].m == s.store[k];
        } else {
          assert Accepted(cf, es, n - 1);
        }
      }
    }
  }

  // ----- bounded retention -----

  lemma SendKeeps(s: State, cf: Conf, e: Event)
    requires e.SendE?
    ensures Step(s, cf, e).1 != PanicHeadNil
    ensures Step(s, cf, e).0.store.Keys <= s.store.Keys && |Step(s, cf, e).0.store| <= |s.store|
  {
    var env := Env(cf.tcp, e.tick, e.accept);
    ReplayEnds(s.store, e.mid, env);
    ReplayRemoves(s.store, e.mid, env);
    var kept := Replay(s.store, e.mid, env).store;
    assert forall k :: k in kept.Keys ==> k in s.store.Keys;
    SubsetSize(kept.Keys, s.store.Keys);
  }

  lemma StepSize(s: State, cf: Conf, e: Event)
    ensures cf.MaxMessage >= 1 && |s.store| <= cf.MaxMessage ==>
      |Step(s, cf, e).0.store| <= cf.MaxMessage && Step(s, cf, e).1 != PanicHeadNil
    ensures cf.MaxMessage < 1 && s.store.Keys == {} ==>
      && Step(s, cf, e).0.store.Keys == {}
      && (Step(s, cf, e).1 == PanicHeadNil <==> e.PushE? && !e.m.Expired(e.now))
  {
    hide Replay, Deliver, Attempted, Trimmed;
    if e.SendE? {
      SendKeeps(s, cf, e);
    } else if e.PushE? {
      TrimKeeps(s.store, cf);
    }
  }

  /** In every reachable state of a channel with room for a message, the store is within its bound
      and the panic of PushMsg cannot happen. */
  lemma {:induction false} Bounded(cf: Conf, es: seq<Event>, n: nat)
    requires n <= |es| && cf.MaxMessage >= 1
    ensures |At(cf, es, n).store| <= cf.MaxMessage
    ensures n < |es| ==> Err(cf, es, n) != PanicHeadNil
  {
    if n == 0 {
    } else {
      Bounded(cf, es, n - 1);
      StepSize(At(cf, es, n - 1), cf, es[n - 1]);
    }
    if n < |es| {
      StepSize(At(cf, es, n), cf, es[n]);
    }
  }

  lemma {:induction false} StaysEmpty(cf: Conf, es: seq<Event>, n: nat)
    requires n <= |es| && cf.MaxMessage < 1
    ensures At(cf, es, n).store.Keys == {}
  {
    if n == 0 {
    } else {
      StaysEmpty(cf, es, n - 1);
      StepSize(At(cf, es, n - 1), cf, es[n - 1]);
    }
  }

  /** The panic happens exactly on a live push to a channel configured without room. */
  lemma PanicsExactly(cf: Conf, es: seq<Event>, n: nat)
    requires n < |es|
    ensures Err(cf, es, n) == PanicHeadNil <==>
            cf.MaxMessage < 1 && es[n].PushE? && !es[n].m.Expired(es[n].now)
  {
    if cf.MaxMessage >= 1 {
      Bounded(cf, es, n);
    } else {
      StaysEmpty(cf, es, n);
      StepSize(At(cf, es, n), cf, es[n]);
    }
  }

  lemma StepSubscribers(s: State, cf: Conf, e: Event)
    ensures var t := Step(s, cf, e).0; |t.conns| <= |s.conns| || |t.conns| <= cf.MaxSubscriberPerKey
  {
    hide Replay, Deliver, StoreAfter, Attempted;
    if e.RemoveE? {
      SubsetSize(s.conns - {e.c}, s.conns);
    } else if e.AddE? {
      assert |s.conns + {e.c}| <= |s.conns| + 1;
    }
  }

  /** A channel never has more registered connections than the configured limit; a limit of zero or
      less admits none. */
  lemma {:induction false} SubscribersBounded(cf: Conf, es: seq<Event>, n: nat)
    requires n <= |es|
    ensures |At(cf, es, n).conns| <= if cf.MaxSubscriberPerKey < 0 then 0 else cf.MaxSubscriberPerKey
  {
    hide Step;
    if n == 0 {
    } else {
      SubscribersBounded(cf, es, n - 1);
      StepSubscribers(At(cf, es, n - 1), cf, es[n - 1]);
    }
  }

  /** In every run an AddConn fails if and only if that many connections are registered then as the
      limit allows; otherwise it registers its connection. */
  lemma JoinsExactly(cf: Conf, es: seq<Event>, n: nat)
    requires n < |es| && es[n].AddE?
    ensures Err(cf, es, n) ==
      if |At(cf, es, n).conns| >= cf.MaxSubscriberPerKey then MaxConnErr else NoError
    ensures At(cf, es, n + 1).conns ==
      At(cf, es, n).conns + if |At(cf, es, n).conns| >= cf.MaxSubscriberPerKey then {} else {es[n].c}
  {
  }

  lemma TcpStep(s: State, cf: Conf, e: Event, c: ConnId)
    requires cf.tcp
    ensures Entry(Step(s, cf, e).0.log, c) == Entry(s.log, c)
  {
    hide StoreAfter, Deliver, Replay;
    if e.SendE? {
      TcpReplayWritesNothing(s.store, e.mid, Env(cf.tcp, e.tick, e.accept));
      assert Entry(s.log, e.c) + [] == Entry(s.log, e.c);
    }
  }

  /** In TCP mode the frame needs a buffer that this channel does not give it: nothing is ever
      written to any connection, although pushes are stored. */
  lemma {:induction false} TcpWritesNothing(cf: Conf, es: seq<Event>, n: nat, c: ConnId)
    requires n <= |es| && cf.tcp
    ensures Entry(At(cf, es, n).log, c) == []
  {
    hide Step;
    if n == 0 {
    } else {
      TcpWritesNothing(cf, es, n - 1, c);
      TcpStep(At(cf, es, n - 1), cf, es[n - 1], c);
    }
  }

  // ----- how a message leaves the store -----

  /** Event `j` trimmed `m`: a live push found the store full, with `m` the least message in it. */
  ghost predicate TrimmedAt(cf: Conf, es: seq<Event>, j: nat, m: Message) {
    && j < |es| && es[j].PushE? && Held(cf, es, j, m)
    && |At(cf, es, j).store| >= cf.MaxMessage && !es[j].m.Expired(es[j].now)
    && forall k :: k in At(cf, es, j).store ==> m.MsgID <= k
  }

  /** Event `j` replayed the store, visited `m` and found it expired. */
  ghost predicate ExpiredAt(cf: Conf, es: seq<Event>, j: nat, m: Message) {
    && j < |es| && es[j].SendE? && Held(cf, es, j, m) && m.Expired(es[j].tick(m.MsgID))
    && Visited(At(cf, es, j).store, es[j].mid, Env(cf.tcp, es[j].tick, es[j].accept), m.MsgID)
  }

  lemma LeavesOnlyBy(cf: Conf, es: seq<Event>, j: nat, m: Message)
    requires j < |es| && Held(cf, es, j, m) && !Held(cf, es, j + 1, m)
    ensures TrimmedAt(cf, es, j, m) || ExpiredAt(cf, es, j, m)
  {
    var s := At(cf, es, j);
    if es[j].SendE? {
      ReplayRemoves(s.store, es[j].mid, Env(cf.tcp, es[j].tick, es[j].accept));
    }
  }

  lemma HeldOnceAccepted(cf: Conf, es: seq<Event>, i: nat)
    requires Accepted(cf, es, i)
    ensures Held(cf, es, i + 1, es[i].m)
  {
  }

  /** An accepted message that is no longer stored was trimmed or found expired since. */
  lemma {:induction false} Departure(cf: Conf, es: seq<Event>, i: nat, n: nat) returns (j: nat)
    requires Accepted(cf, es, i) && i < n <= |es| && !Held(cf, es, n, es[i].m)
    ensures i < j < n && (TrimmedAt(cf, es, j, es[i].m) || ExpiredAt(cf, es, j, es[i].m))
    decreases n
  {
    hide Step;
    HeldOnceAccepted(cf, es, i);
    if Held(cf, es, n - 1, es[i].m) {
      j := n - 1;
      LeavesOnlyBy(cf, es, j, es[i].m);
    } else {
      j := Departure(cf, es, i, n - 1);
    }
  }

  // ----- retention over whole runs -----

  ghost function AcceptedIds(cf: Conf, es: seq<Event>, n: nat): set<int>
    requires n <= |es|
  {
    if n == 0 then {}
    else AcceptedIds(cf, es, n - 1) + if Accepted(cf, es, n - 1) then {es[n - 1].m.MsgID} else {}
  }

  ghost function AcceptedAbove(cf: Conf, es: seq<Event>, n: nat, id: int): set<int>
    requires n <= |es|
  {
    set k | k in AcceptedIds(cf, es, n) && k > id
  }

  lemma {:induction false} AcceptedGrows(cf: Conf, es: seq<Event>, j: nat, n: nat)
    requires j <= n <= |es|
    ensures AcceptedIds(cf, es, j) <= AcceptedIds(cf, es, n)
  {
    if j == n {
    } else {
      AcceptedGrows(cf, es, j, n - 1);
    }
  }

  lemma {:induction false} StoredIsAccepted(cf: Conf, es: seq<Event>, n: nat)
    requires n <= |es|
    ensures forall k :: k in At(cf, es, n).store ==> k in AcceptedIds(cf, es, n)
  {
    if n == 0 {
    } else {
      StoredIsAccepted(cf, es, n - 1);
      StepStores(At(cf, es, n - 1), cf, es[n - 1]);
      forall k | k in At(cf, es, n).store
        ensures k in AcceptedIds(cf, es, n)
      {
        assert k !in At(cf, es, n - 1).store ==> Accepted(cf, es, n - 1) && es[n - 1].m.MsgID == k;
      }
    }
  }

  /** Every accepted message carries an id above all ids accepted before it. */
  ghost predicate AcceptedAscend(cf: Conf, es: seq<Event>) {
    forall j, k :: 0 <= j < |es| && Accepted(cf, es, j) && k in AcceptedIds(cf, es, j) ==> k < es[j].m.MsgID
  }

  /** Event `j` pushes, to a full store, a message whose id is stored and is not the least: the
      push is rejected, yet the least message is gone. */
  ghost predicate DuplicateAtFull(cf: Conf, es: seq<Event>, j: nat) {
    && j < |es| && es[j].PushE? && !es[j].m.Expired(es[j].now)
    && |At(cf, es, j).store| + 1 > cf.MaxMessage
    && es[j].m.MsgID in Trimmed(At(cf, es, j).store, cf)
  }

  lemma CountAbove(keys: set<int>, least: int, id: int, all: set<int>)
    requires keys <= all && id in all && id !in keys && least in keys && least < id
    requires forall k :: k in keys ==> least <= k
    ensures |set k | k in all && k > least| >= |keys|
  {
    var greater := keys - {least} + {id};
    assert |greater| == |keys|;
    SubsetSize(greater, set k | k in all && k > least);
  }

  lemma AcceptedUnlessDuplicate(cf: Conf, es: seq<Event>, j: nat)
    requires j < |es| && es[j].PushE? && !es[j].m.Expired(es[j].now)
    requires |At(cf, es, j).store| >= cf.MaxMessage && At(cf, es, j).store.Keys != {}
    ensures Accepted(cf, es, j) <==> !DuplicateAtFull(cf, es, j)
  {
  }

  /** An accepted message with an id above the least one stored has left the store before event `j`:
      only expiry can do that. */
  ghost predicate LeftEarly(cf: Conf, es: seq<Event>, j: nat)
    requires j <= |es|
  {
    var keys := At(cf, es, j).store.Keys;
    keys != {} && exists k :: k in AcceptedIds(cf, es, j) && k !in keys && Least(keys) < k
  }

  /** By the first `n` events, the message that event `i` pushed is stored, has been found expired by
      a replay, or at least MaxMessage messages with greater ids have been accepted. */
  ghost predicate Retained(cf: Conf, es: seq<Event>, i: nat, n: nat)
    requires i < n <= |es| && es[i].PushE?
  {
    || Held(cf, es, n, es[i].m)
    || (exists j :: i < j < n && ExpiredAt(cf, es, j, es[i].m))
    || |AcceptedAbove(cf, es, n, es[i].m.MsgID)| >= cf.MaxMessage
  }

  /** When accepted ids ascend, every accepted message is retained in that sense at every moment, if
      and only if a duplicate hits a full store only after some greater accepted message has already
      expired away. */
  lemma RetainsTheLatest(cf: Conf, es: seq<Event>)
    requires cf.MaxMessage >= 1 && AcceptedAscend(cf, es)
    ensures (forall i, n :: 0 <= i < n <= |es| && Accepted(cf, es, i) ==> Retained(cf, es, i, n)) <==>
            (forall j :: 0 <= j < |es| && DuplicateAtFull(cf, es, j) ==> LeftEarly(cf, es, j))
  {
    hide Retained, LeftEarly, DuplicateAtFull, Err, At;
    if forall i, n :: 0 <= i < n <= |es| && Accepted(cf, es, i) ==> Retained(cf, es, i, n) {
      forall j | 0 <= j < |es| && DuplicateAtFull(cf, es, j)
        ensures LeftEarly(cf, es, j)
      {
        if !LeftEarly(cf, es, j) {
          var i := DuplicateLoses(cf, es, j);
          assert false;
        }
      }
    }
    if forall j :: 0 <= j < |es| && DuplicateAtFull(cf, es, j) ==> LeftEarly(cf, es, j) {
      forall i, n | 0 <= i < n <= |es| && Accepted(cf, es, i)
        ensures Retained(cf, es, i, n)
      {
        IsRetained(cf, es, i, n);
      }
    }
  }

  lemma IsRetained(cf: Conf, es: seq<Event>, i: nat, n: nat)
    requires cf.MaxMessage >= 1 && AcceptedAscend(cf, es) && Accepted(cf, es, i) && i < n <= |es|
    requires forall j :: 0 <= j < n && DuplicateAtFull(cf, es, j) ==> LeftEarly(cf, es, j)
    ensures Retained(cf, es, i, n)
  {
    var m := es[i].m;
    if !Held(cf, es, n, m) {
      var j := Departure(cf, es, i, n);
      if TrimmedAt(cf, es, j, m) {
        AcceptedUnlessDuplicate(cf, es, j);
        StoredIsAccepted(cf, es, j);
        if DuplicateAtFull(cf, es, j) {
          var keys := At(cf, es, j).store.Keys;
          LeastIs(keys, m.MsgID);
          var k :| k in AcceptedIds(cf, es, j) && k !in keys && Least(keys) < k;
          AfterTrim(cf, es, j, n, m, k);
        } else {
          assert es[j].m.MsgID !in AcceptedIds(cf, es, j) && m.MsgID in AcceptedIds(cf, es, j);
          AfterTrim(cf, es, j, n, m, es[j].m.MsgID);
        }
      }
    }
  }

  /** After `m` is trimmed from a store that some accepted id above `m` is not in, MaxMessage greater
      ids have been accepted. */
  lemma AfterTrim(cf: Conf, es: seq<Event>, j: nat, n: nat, m: Message, id: int)
    requires j < n <= |es| && TrimmedAt(cf, es, j, m)
    requires id in AcceptedIds(cf, es, j + 1) && id !in At(cf, es, j).store && m.MsgID < id
    ensures |AcceptedAbove(cf, es, n, m.MsgID)| >= cf.MaxMessage
  {
    hide Step;
    var store := At(cf, es, j).store;
    StoredIsAccepted(cf, es, j);
    AcceptedGrows(cf, es, j, n);
    AcceptedGrows(cf, es, j + 1, n);
    forall k | k in store.Keys
      ensures k in AcceptedIds(cf, es, n)
    {
      assert k in AcceptedIds(cf, es, j);
    }
    CountAbove(store.Keys, m.MsgID, id, AcceptedIds(cf, es, n));
  }

  /** When accepted ids ascend, an id that has left the store does not return. */
  lemma {:induction false} NeverBack(cf: Conf, es: seq<Event>, a: nat, n: nat, k: int)
    requires AcceptedAscend(cf, es) && a <= n <= |es| && k in AcceptedIds(cf, es, a) && k !in At(cf, es, a).store
    ensures k !in At(cf, es, n).store
    decreases n
  {
    hide Step;
    if a == n {
    } else {
      NeverBack(cf, es, a, n - 1, k);
      AcceptedGrows(cf, es, a, n - 1);
      StepStores(At(cf, es, n - 1), cf, es[n - 1]);
      assert Accepted(cf, es, n - 1) ==> k < es[n - 1].m.MsgID;
    }
  }

  /** A duplicate that hits a full store, when nothing greater has expired away, costs the message
      of some event `i` that is not retained. */
  lemma DuplicateLoses(cf: Conf, es: seq<Event>, j: nat) returns (i: nat)
    requires cf.MaxMessage >= 1 && AcceptedAscend(cf, es) && DuplicateAtFull(cf, es, j) && !LeftEarly(cf, es, j)
    ensures i <= j && Accepted(cf, es, i) && !Retained(cf, es, i, j + 1)
  {
    hide At, Err, Step, LeftEarly, ExpiredAt, AcceptedAbove, DuplicateAtFull;
    DuplicateTrims(cf, es, j);
    var k := Least(At(cf, es, j).store.Keys);
    StoredWasPushed(cf, es, j);
    assert Pushed(cf, es, j, At(cf, es, j).store[k]);
    i :| 0 <= i < j && Accepted(cf, es, i) && es[i].m == At(cf, es, j).store[k];
    NotExpiredYet(cf, es, i, j);
    Bounded(cf, es, j);
    AboveIsStored(cf, es, j, k);
    assert es[i].m.MsgID == k && !Held(cf, es, j + 1, es[i].m);
    DuplicateIsPush(cf, es, j, es[i].m);
  }

  lemma DuplicateIsPush(cf: Conf, es: seq<Event>, j: nat, m: Message)
    requires DuplicateAtFull(cf, es, j)
    ensures !ExpiredAt(cf, es, j, m)
  {
  }

  lemma DuplicateTrims(cf: Conf, es: seq<Event>, j: nat)
    requires cf.MaxMessage >= 1 && DuplicateAtFull(cf, es, j)
    ensures j < |es| && es[j].PushE?
    ensures At(cf, es, j).store.Keys != {} && Least(At(cf, es, j).store.Keys) !in At(cf, es, j + 1).store
  {
  }

  lemma ExpiredLeaves(cf: Conf, es: seq<Event>, a: nat, m: Message)
    requires ExpiredAt(cf, es, a, m)
    ensures m.MsgID !in At(cf, es, a + 1).store
  {
    ReplayRemoves(At(cf, es, a).store, es[a].mid, Env(cf.tcp, es[a].tick, es[a].accept));
  }

  /** A message that is still stored has not been found expired. */
  lemma NotExpiredYet(cf: Conf, es: seq<Event>, i: nat, j: nat)
    requires AcceptedAscend(cf, es) && Accepted(cf, es, i) && i < j <= |es| && Held(cf, es, j, es[i].m)
    ensures forall a :: i < a < j ==> !ExpiredAt(cf, es, a, es[i].m)
  {
    hide At, Err, ExpiredAt, AcceptedAscend;
    var m := es[i].m;
    assert m.MsgID in AcceptedIds(cf, es, i + 1);
    forall a | i < a < j
      ensures !ExpiredAt(cf, es, a, m)
    {
      if ExpiredAt(cf, es, a, m) {
        ExpiredLeaves(cf, es, a, m);
        AcceptedGrows(cf, es, i + 1, a + 1);
        NeverBack(cf, es, a + 1, j, m.MsgID);
        assert false;
      }
    }
  }

  lemma AboveIsStored(cf: Conf, es: seq<Event>, j: nat, k: int)
    requires DuplicateAtFull(cf, es, j) && !LeftEarly(cf, es, j)
    requires At(cf, es, j).store.Keys != {} && k == Least(At(cf, es, j).store.Keys)
    ensures |AcceptedAbove(cf, es, j + 1, k)| < |At(cf, es, j).store|
  {
    var keys := At(cf, es, j).store.Keys;
    AcceptedUnlessDuplicate(cf, es, j);
    assert AcceptedIds(cf, es, j + 1) == AcceptedIds(cf, es, j);
    assert AcceptedAbove(cf, es, j + 1, k) <= keys - {k};
    SubsetSize(AcceptedAbove(cf, es, j + 1, k), keys - {k});
  }

  lemma PushOnce(s: State, cf: Conf, e: Event)
    requires e.PushE? && !e.m.Expired(e.now) && !cf.tcp && |s.store| < cf.MaxMessage && e.m.MsgID !in s.store
    ensures Step(s, cf, e).0.store == s.store[e.m.MsgID := e.m] && Step(s, cf, e).1 == NoError
  {
  }

  lemma PushAgain(s: State, cf: Conf, e: Event, least: int)
    requires e.PushE? && !e.m.Expired(e.now) && |s.store| >= cf.MaxMessage
    requires e.m.MsgID in s.store && e.m.MsgID != least && least in s.store && forall k :: k in s.store ==> least <= k
    ensures Step(s, cf, e).0.store == s.store - {least} && Step(s, cf, e).1 == ErrNodeExists
  {
    LeastIs(s.store.Keys, least);
  }

  ghost function TwoKept(): Conf {
    Conf(2, 1, false)
  }

  /** Live pushes of the ids 1, 2 and 2. */
  ghost function OneTwoTwo(): seq<Event> {
    [PushE(Message(1, "", 9, 1), 0, _ => true),
     PushE(Message(2, "", 9, 2), 0, _ => true),
     PushE(Message(3, "", 9, 2), 0, _ => true)]
  }

  lemma OneTwoTwoRuns()
    ensures Accepted(TwoKept(), OneTwoTwo(), 0) && Accepted(TwoKept(), OneTwoTwo(), 1)
    ensures !Accepted(TwoKept(), OneTwoTwo(), 2)
    ensures At(TwoKept(), OneTwoTwo(), 3).store.Keys == {2}
  {
    var cf, es := TwoKept(), OneTwoTwo();
    PushOnce(At(cf, es, 0), cf, es[0]);
    PushOnce(At(cf, es, 1), cf, es[1]);
    PushAgain(At(cf, es, 2), cf, es[2], 1);
  }

  /** Ascending accepted ids alone are not enough: with room for two, pushing 1, 2 and 2 again
      leaves only 2 stored although a single greater id was ever accepted. */
  lemma DuplicateLosesTheOldest()
    ensures AcceptedAscend(TwoKept(), OneTwoTwo())
    ensures Accepted(TwoKept(), OneTwoTwo(), 0) && !Held(TwoKept(), OneTwoTwo(), 3, OneTwoTwo()[0].m)
    ensures |AcceptedAbove(TwoKept(), OneTwoTwo(), 3, OneTwoTwo()[0].m.MsgID)| == 1
  {
    hide At, Err;
    var cf, es := TwoKept(), OneTwoTwo();
    OneTwoTwoRuns();
    assert AcceptedIds(cf, es, 1) == {1};
    assert AcceptedIds(cf, es, 2) == {1, 2};
    assert AcceptedIds(cf, es, 3) == {1, 2};
    assert AcceptedAbove(cf, es, 3, 1) == {2};
  }

  // ----- pushes only: the store is the last of what was accepted -----

  ghost function AcceptedSeq(cf: Conf, es: seq<Event>, n: nat): seq<Message>
    requires n <= |es|
  {
    if n == 0 then []
    else AcceptedSeq(cf, es, n - 1) + if Accepted(cf, es, n - 1) then [es[n - 1].m] else []
  }

  ghost function Last<T>(s: seq<T>, k: int): seq<T> {
    if k <= 0 then [] else if |s| <= k then s else s[|s| - k..]
  }

  ghost predicate AscendingIds(s: seq<Message>) {
    forall a, b :: 0 <= a < b < |s| ==> s[a].MsgID < s[b].MsgID
  }

  /** The store holds the messages of `s` and nothing else. */
  ghost predicate Holds(store: map<int, Message>, s: seq<Message>) {
    && (forall a :: 0 <= a < |s| ==> s[a].MsgID in store && store[s[a].MsgID] == s[a])
    && (forall k :: k in store ==> store[k] in s && store[k].MsgID == k)
  }

  /** Without its last message, the store holds the rest. */
  lemma RestHolds(store: map<int, Message>, s: seq<Message>)
    requires Holds(store, s) && AscendingIds(s) && s != []
    ensures var n := |s| - 1;
      Holds(store - {s[n].MsgID}, s[..n]) && |store| == |store - {s[n].MsgID}| + 1
  {
    var n := |s| - 1;
    var k := s[n].MsgID;
    assert store == (store - {k})[k := s[n]];
    forall j | j in store - {k}
      ensures store[j] in s[..n]
    {
      var a :| 0 <= a < |s| && s[a] == store[j];
      assert a != n && s[..n][a] == store[j];
    }
  }

  lemma {:induction false} HoldsCounts(store: map<int, Message>, s: seq<Message>)
    requires Holds(store, s) && AscendingIds(s)
    ensures |store| == |s|
  {
    if s == [] {
      assert store.Keys == {} by {
        assert forall k :: k !in store;
      }
    } else {
      var n := |s| - 1;
      RestHolds(store, s);
      hide Holds;
      HoldsCounts(store - {s[n].MsgID}, s[..n]);
    }
  }

  lemma TrimHolds(store: map<int, Message>, s: seq<Message>, cf: Conf)
    requires Holds(store, s) && AscendingIds(s) && s != [] && |s| + 1 > cf.MaxMessage
    ensures Holds(Trimmed(store, cf), s[1..]) && AscendingIds(s[1..])
  {
    HoldsCounts(store, s);
    var k := s[0].MsgID;
    assert store[k] == s[0];
    LeastIs(store.Keys, k);
    forall j | j in store - {k}
      ensures store[j] in s[1..]
    {
      var a :| 0 <= a < |s| && s[a] == store[j];
      assert s[1..][a - 1] == store[j];
    }
  }

  lemma AppendHolds(store: map<int, Message>, s: seq<Message>, m: Message)
    requires Holds(store, s) && m.MsgID !in store
    ensures Holds(store[m.MsgID := m], s + [m])
  {
    var all := s + [m];
    assert all[|s|] == m;
    forall k | k in store
      ensures store[k] in all
    {
      var a :| 0 <= a < |s| && s[a] == store[k];
      assert all[a] == store[k];
    }
  }

  ghost predicate KeepsLast(cf: Conf, es: seq<Event>, n: nat)
    requires n <= |es|
  {
    Holds(At(cf, es, n).store, Last(AcceptedSeq(cf, es, n), cf.MaxMessage))
  }

  lemma LastAscends(all: seq<Message>, k: int)
    requires AscendingIds(all)
    ensures AscendingIds(Last(all, k))
  {
  }

  /** When there are already `k` to keep, a further message pushes out the first of them. */
  lemma LastShifts(all: seq<Message>, m: Message, k: int)
    requires k >= 1 && |Last(all, k)| >= k
    ensures Last(all + [m], k) == Last(all, k)[1..] + [m]
  {
  }

  /** A push to a full store that holds the last accepted messages. */
  lemma FullHolds(store: map<int, Message>, all: seq<Message>, cf: Conf, m: Message)
    requires cf.MaxMessage >= 1 && AscendingIds(all) && Holds(store, Last(all, cf.MaxMessage))
    requires |store| >= cf.MaxMessage
    ensures m.MsgID in Trimmed(store, cf) ==> !Holds(Trimmed(store, cf), Last(all, cf.MaxMessage))
    ensures m.MsgID !in Trimmed(store, cf) ==> Holds(Trimmed(store, cf)[m.MsgID := m], Last(all + [m], cf.MaxMessage))
  {
    hide Holds, Trimmed, Last, AscendingIds;
    var kept, trimmed := Last(all, cf.MaxMessage), Trimmed(store, cf);
    LastAscends(all, cf.MaxMessage);
    HoldsCounts(store, kept);
    TrimHolds(store, kept, cf);
    HoldsCounts(trimmed, kept[1..]);
    if Holds(trimmed, kept) {
      HoldsCounts(trimmed, kept);
      assert false;
    }
    if m.MsgID !in trimmed {
      AppendHolds(trimmed, kept[1..], m);
      LastShifts(all, m, cf.MaxMessage);
    }
  }

  /** What a push does to the store and to what has been accepted. */
  lemma PushStep(cf: Conf, es: seq<Event>, n: nat)
    requires n < |es| && es[n].PushE? && cf.MaxMessage >= 1
    ensures var store, m, all := At(cf, es, n).store, es[n].m, AcceptedSeq(cf, es, n);
      var trimmed := Trimmed(store, cf);
      if m.Expired(es[n].now) then At(cf, es, n + 1).store == store && AcceptedSeq(cf, es, n + 1) == all
      else if m.MsgID in trimmed then At(cf, es, n + 1).store == trimmed && AcceptedSeq(cf, es, n + 1) == all
      else At(cf, es, n + 1).store == trimmed[m.MsgID := m] && AcceptedSeq(cf, es, n + 1) == all + [m]
  {
  }

  /** A push to a store with room that holds everything accepted. */
  lemma RoomHolds(store: map<int, Message>, all: seq<Message>, cf: Conf, m: Message)
    requires AscendingIds(all) && Holds(store, Last(all, cf.MaxMessage)) && |store| < cf.MaxMessage
    ensures Trimmed(store, cf) == store
    ensures m.MsgID !in store ==> Holds(store[m.MsgID := m], Last(all + [m], cf.MaxMessage))
  {
    HoldsCounts(store, Last(all, cf.MaxMessage));
    assert Last(all, cf.MaxMessage) == all;
    if m.MsgID !in store {
      AppendHolds(store, all, m);
      assert Last(all + [m], cf.MaxMessage) == all + [m];
    }
  }

  lemma {:induction false} AcceptedPrefix(cf: Conf, es: seq<Event>, j: nat, n: nat)
    requires j <= n <= |es|
    ensures AcceptedSeq(cf, es, j) <= AcceptedSeq(cf, es, n)
  {
    if j == n {
    } else {
      AcceptedPrefix(cf, es, j, n - 1);
    }
  }

  lemma LastStep(cf: Conf, es: seq<Event>, n: nat)
    requires n < |es| && es[n].PushE? && cf.MaxMessage >= 1
    requires AscendingIds(AcceptedSeq(cf, es, |es|)) && KeepsLast(cf, es, n)
    ensures KeepsLast(cf, es, n + 1) <==> !DuplicateAtFull(cf, es, n)
  {
    hide Holds, Last, Trimmed, At;
    AcceptedPrefix(cf, es, n, |es|);
    PushStep(cf, es, n);
    var store, all, m := At(cf, es, n).store, AcceptedSeq(cf, es, n), es[n].m;
    if |store| >= cf.MaxMessage {
      FullHolds(store, all, cf, m);
    } else {
      RoomHolds(store, all, cf, m);
    }
  }

  lemma {:induction false} KeepsLastUpTo(cf: Conf, es: seq<Event>, n: nat)
    requires n <= |es| && cf.MaxMessage >= 1 && AscendingIds(AcceptedSeq(cf, es, |es|))
    requires forall j :: 0 <= j < n ==> es[j].PushE? && !DuplicateAtFull(cf, es, j)
    ensures KeepsLast(cf, es, n)
  {
    hide Step, DuplicateAtFull, Trimmed;
    if n == 0 {
    } else {
      KeepsLastUpTo(cf, es, n - 1);
      LastStep(cf, es, n - 1);
    }
  }

  /** With pushes only and ascending accepted ids, the store is at every moment exactly the last
      MaxMessage accepted messages (all of them while there are fewer), if and only if no
      duplicate ever hits a full store. */
  lemma StoreIsTheLast(cf: Conf, es: seq<Event>)
    requires cf.MaxMessage >= 1 && forall j :: 0 <= j < |es| ==> es[j].PushE?
    requires AscendingIds(AcceptedSeq(cf, es, |es|))
    ensures (forall n :: 0 <= n <= |es| ==> KeepsLast(cf, es, n)) <==>
            (forall j :: 0 <= j < |es| ==> !DuplicateAtFull(cf, es, j))
  {
    if forall n :: 0 <= n <= |es| ==> KeepsLast(cf, es, n) {
      forall j | 0 <= j < |es|
        ensures !DuplicateAtFull(cf, es, j)
      {
        assert KeepsLast(cf, es, j) && KeepsLast(cf, es, j + 1);
        LastStep(cf, es, j);
      }
    }
    if forall j :: 0 <= j < |es| ==> !DuplicateAtFull(cf, es, j) {
      forall n | 0 <= n <= |es|
        ensures KeepsLast(cf, es, n)
      {
        KeepsLastUpTo(cf, es, n);
      }
    }
  }

  // ----- delivery -----

  /** What one step does to the registration and to the log of a connection. */
  lemma StepConn(s: State, cf: Conf, e: Event, c: ConnId)
    ensures var (t, err) := Step(s, cf, e);
      c in t.conns <==> (c in s.conns && e != RemoveE(c)) || (e == AddE(c) && err == NoError)
    ensures var (t, err) := Step(s, cf, e);
      !(e.SendE? && e.c == c) && c !in s.conns ==> Entry(t.log, c) == Entry(s.log, c)
  {
  }

  lemma InOrderAt(cf: Conf, es: seq<Event>, n: nat)
    requires InOrder(cf, es) && n < |es|
    ensures MayHappen(cf, es, n)
  {
  }

  /** A connection is registered exactly between a successful AddConn and the next RemoveConn. */
  lemma {:induction false} RegisteredSince(cf: Conf, es: seq<Event>, n: nat, c: ConnId) returns (b: nat)
    requires n <= |es| && c in At(cf, es, n).conns
    ensures b < n && es[b] == AddE(c) && Err(cf, es, b) == NoError
    ensures forall j :: b < j < n ==> es[j] != RemoveE(c)
  {
    hide Step;
    StepConn(At(cf, es, n - 1), cf, es[n - 1], c);
    if es[n - 1] == AddE(c) && Err(cf, es, n - 1) == NoError {
      b := n - 1;
    } else {
      b := RegisteredSince(cf, es, n - 1, c);
    }
  }

  lemma {:induction false} StaysRegistered(cf: Conf, es: seq<Event>, b: nat, n: nat, c: ConnId)
    requires b < n <= |es| && es[b] == AddE(c) && Err(cf, es, b) == NoError
    requires forall j :: b < j < n ==> es[j] != RemoveE(c)
    ensures c in At(cf, es, n).conns
  {
    hide Step;
    StepConn(At(cf, es, n - 1), cf, es[n - 1], c);
    if b == n - 1 {
    } else {
      StaysRegistered(cf, es, b, n - 1, c);
    }
  }

  /** The attempt on `c` by event `n`: one for an accepted push that finds `c` registered. */
  ghost function ReceivedAt(cf: Conf, es: seq<Event>, n: nat, c: ConnId): seq<Attempt>
    requires n < |es|
  {
    if Accepted(cf, es, n) && c in At(cf, es, n).conns then [Attempt(es[n].m, es[n].accepts(c))] else []
  }

  /** The attempts on `c` by the pushes from event `lo` up to `hi`. */
  ghost function Received(cf: Conf, es: seq<Event>, lo: nat, hi: nat, c: ConnId): seq<Attempt>
    requires lo <= hi <= |es|
  {
    if lo == hi then []
    else
      Received(cf, es, lo, hi - 1, c) + ReceivedAt(cf, es, hi - 1, c)
  }

  ghost function ReplayWritesOf(cf: Conf, es: seq<Event>, a: nat): seq<Attempt>
    requires a < |es| && es[a].SendE?
  {
    Replay(At(cf, es, a).store, es[a].mid, Env(cf.tcp, es[a].tick, es[a].accept)).writes
  }

  ghost predicate SendOf(es: seq<Event>, a: nat, c: ConnId) {
    a < |es| && es[a].SendE? && es[a].c == c
  }

  lemma {:induction false} PhaseMovesOn(cf: Conf, es: seq<Event>, a: nat, n: nat, c: ConnId)
    requires SendOf(es, a, c) && a < n <= |es| && InOrder(cf, es)
    ensures PhaseAt(cf, es, n, c) != Fresh
  {
    hide Err;
    if a + 1 == n {
    } else {
      PhaseMovesOn(cf, es, a, n - 1, c);
    }
  }

  /** A registered connection belongs to a session that has joined. */
  lemma {:induction false} RegisteredIsJoined(cf: Conf, es: seq<Event>, n: nat, c: ConnId)
    requires n <= |es| && InOrder(cf, es)
    ensures c in At(cf, es, n).conns ==> PhaseAt(cf, es, n, c) == Joined
  {
    hide Step, InOrder;
    if n == 0 {
    } else {
      RegisteredIsJoined(cf, es, n - 1, c);
      InOrderAt(cf, es, n - 1);
      StepConn(At(cf, es, n - 1), cf, es[n - 1], c);
    }
  }

  lemma FreshBefore(cf: Conf, es: seq<Event>, n: nat, c: ConnId)
    requires 0 < n <= |es| && PhaseAt(cf, es, n, c) == Fresh
    ensures PhaseAt(cf, es, n - 1, c) == Fresh && !(es[n - 1].SendE? && es[n - 1].c == c)
  {
    hide Err;
  }

  /** Before its replay a session has been sent nothing. */
  lemma {:induction false} FreshIsUntouched(cf: Conf, es: seq<Event>, n: nat, c: ConnId)
    requires n <= |es| && InOrder(cf, es) && PhaseAt(cf, es, n, c) == Fresh
    ensures Entry(At(cf, es, n).log, c) == []
  {
    hide Step, InOrder, Err, PhaseAt;
    if n == 0 {
    } else {
      FreshBefore(cf, es, n, c);
      FreshIsUntouched(cf, es, n - 1, c);
      RegisteredIsJoined(cf, es, n - 1, c);
      StepConn(At(cf, es, n - 1), cf, es[n - 1], c);
    }
  }

  lemma StepLog(s: State, cf: Conf, e: Event, c: ConnId)
    requires !cf.tcp && !(e.SendE? && e.c == c)
    ensures var (t, err) := Step(s, cf, e);
      Entry(t.log, c) == Entry(s.log, c) +
        if e.PushE? && (err == NoError || err == MsgBufErr) && c in s.conns then [Attempt(e.m, e.accepts(c))] else []
  {
    assert Entry(s.log, c) + [] == Entry(s.log, c);
  }

  lemma SessionStarts(cf: Conf, es: seq<Event>, a: nat, c: ConnId)
    requires InOrder(cf, es) && SendOf(es, a, c)
    ensures Entry(At(cf, es, a + 1).log, c) == ReplayWritesOf(cf, es, a)
  {
    assert MayHappen(cf, es, a);
    FreshIsUntouched(cf, es, a, c);
    hide Replay;
    assert [] + ReplayWritesOf(cf, es, a) == ReplayWritesOf(cf, es, a);
  }

  /** The log of a session, exactly: the writes of its one replay, then one attempt for each
      accepted push made while it was registered. */
  lemma {:induction false} SessionLog(cf: Conf, es: seq<Event>, a: nat, n: nat, c: ConnId)
    requires InOrder(cf, es) && !cf.tcp && SendOf(es, a, c) && a < n <= |es|
    ensures Entry(At(cf, es, n).log, c) == ReplayWritesOf(cf, es, a) + Received(cf, es, a + 1, n, c)
  {
    hide Step, Entry, ReplayWritesOf;
    if n == a + 1 {
      SessionStarts(cf, es, a, c);
      assert ReplayWritesOf(cf, es, a) + [] == ReplayWritesOf(cf, es, a);
    } else {
      SessionLog(cf, es, a, n - 1, c);
      PhaseMovesOn(cf, es, a, n - 1, c);
      assert MayHappen(cf, es, n - 1);
      StepLog(At(cf, es, n - 1), cf, es[n - 1], c);
      hide InOrder, PhaseAt;
      var more := ReceivedAt(cf, es, n - 1, c);
      assert Received(cf, es, a + 1, n, c) == Received(cf, es, a + 1, n - 1, c) + more;
      Associative(ReplayWritesOf(cf, es, a), Received(cf, es, a + 1, n - 1, c), more);
    }
  }

  // ----- which pushes a session sees -----

  ghost predicate Mentions(ws: seq<Attempt>, m: Message) {
    exists x :: 0 <= x < |ws| && ws[x].msg == m
  }

  ghost predicate DistinctRefs(ws: seq<Attempt>) {
    forall x, y :: 0 <= x < y < |ws| ==> ws[x].msg.ref != ws[y].msg.ref
  }

  /** All attempts of `ws` are of messages pushed by accepted events in `[lo, hi)`. */
  ghost predicate From(cf: Conf, es: seq<Event>, lo: nat, hi: nat, ws: seq<Attempt>) {
    forall x :: 0 <= x < |ws| ==> Source(cf, es, lo, hi, ws[x].msg)
  }

  ghost predicate Source(cf: Conf, es: seq<Event>, lo: nat, hi: nat, m: Message) {
    exists j :: lo <= j < hi && Accepted(cf, es, j) && es[j].m == m
  }

  lemma RefTells(cf: Conf, es: seq<Event>, i: nat, j: nat)
    requires OwnObjects(es) && Accepted(cf, es, i) && Accepted(cf, es, j) && es[i].m.ref == es[j].m.ref
    ensures i == j
  {
  }

  lemma {:induction false} ReceivedFrom(cf: Conf, es: seq<Event>, lo: nat, hi: nat, c: ConnId)
    requires lo <= hi <= |es| && OwnObjects(es)
    ensures From(cf, es, lo, hi, Received(cf, es, lo, hi, c)) && DistinctRefs(Received(cf, es, lo, hi, c))
  {
    hide Err, OwnObjects, At;
    if lo == hi {
    } else {
      ReceivedFrom(cf, es, lo, hi - 1, c);
      var before, all := Received(cf, es, lo, hi - 1, c), Received(cf, es, lo, hi, c);
      if Accepted(cf, es, hi - 1) && c in At(cf, es, hi - 1).conns {
        FromGrows(cf, es, lo, hi - 1, before, Attempt(es[hi - 1].m, es[hi - 1].accepts(c)));
        assert all == before + [Attempt(es[hi - 1].m, es[hi - 1].accepts(c))];
      } else {
        assert all == before;
      }
    }
  }

  lemma FromGrows(cf: Conf, es: seq<Event>, lo: nat, hi: nat, ws: seq<Attempt>, w: Attempt)
    requires lo <= hi < |es| && OwnObjects(es) && From(cf, es, lo, hi, ws) && DistinctRefs(ws)
    requires Accepted(cf, es, hi) && es[hi].m == w.msg
    ensures From(cf, es, lo, hi + 1, ws + [w]) && DistinctRefs(ws + [w])
  {
    hide Err, OwnObjects;
    forall x | 0 <= x < |ws|
      ensures ws[x].msg.ref != w.msg.ref
      ensures Source(cf, es, lo, hi + 1, ws[x].msg)
    {
      assert Source(cf, es, lo, hi, ws[x].msg);
      var j :| lo <= j < hi && Accepted(cf, es, j) && es[j].m == ws[x].msg;
      if ws[x].msg.ref == w.msg.ref {
        RefTells(cf, es, j, hi);
      }
    }
  }

  /** Attempts that stem from disjoint stretches of the run are of different messages. */
  lemma FromApart(cf: Conf, es: seq<Event>, lo: nat, mid: nat, hi: nat, ws: seq<Attempt>, rs: seq<Attempt>)
    requires OwnObjects(es) && From(cf, es, lo, mid, ws) && From(cf, es, mid, hi, rs) && hi <= |es|
    requires DistinctRefs(ws) && DistinctRefs(rs)
    ensures DistinctRefs(ws + rs)
  {
    hide Err, OwnObjects;
    forall x, y | 0 <= x < |ws| && 0 <= y < |rs|
      ensures ws[x].msg.ref != rs[y].msg.ref
    {
      assert Source(cf, es, lo, mid, ws[x].msg);
      var i :| lo <= i < mid && Accepted(cf, es, i) && es[i].m == ws[x].msg;
      assert Source(cf, es, mid, hi, rs[y].msg);
      var j :| mid <= j < hi && Accepted(cf, es, j) && es[j].m == rs[y].msg;
      if ws[x].msg.ref == rs[y].msg.ref {
        RefTells(cf, es, i, j);
      }
    }
    hide From;
    var all := ws + rs;
    forall x, y | 0 <= x < y < |all|
      ensures all[x].msg.ref != all[y].msg.ref
    {
      assert all[x] == if x < |ws| then ws[x] else rs[x - |ws|];
      assert all[y] == if y < |ws| then ws[y] else rs[y - |ws|];
    }
  }

  /** Attempts that stem from one stretch of the run do not mention a push outside it. */
  lemma FromExcludes(cf: Conf, es: seq<Event>, lo: nat, hi: nat, ws: seq<Attempt>, i: nat)
    requires OwnObjects(es) && From(cf, es, lo, hi, ws) && Accepted(cf, es, i) && !(lo <= i < hi)
    ensures !Mentions(ws, es[i].m)
  {
    hide Err, OwnObjects;
    if Mentions(ws, es[i].m) {
      var x :| 0 <= x < |ws| && ws[x].msg == es[i].m;
      assert Source(cf, es, lo, hi, ws[x].msg);
      var j :| lo <= j < hi && Accepted(cf, es, j) && es[j].m == ws[x].msg;
      RefTells(cf, es, i, j);
      assert false;
    }
  }

  lemma {:induction false} ReceivedMentions(cf: Conf, es: seq<Event>, lo: nat, hi: nat, c: ConnId, i: nat)
    requires lo <= i < hi <= |es| && OwnObjects(es) && Accepted(cf, es, i)
    ensures Mentions(Received(cf, es, lo, hi, c), es[i].m) <==> c in At(cf, es, i).conns
  {
    hide Err, At, OwnObjects, Mentions;
    var before := Received(cf, es, lo, hi - 1, c);
    var more := ReceivedAt(cf, es, hi - 1, c);
    MentionsSum(before, more, es[i].m);
    MentionsOne(more, es[i].m);
    if i == hi - 1 {
      ReceivedFrom(cf, es, lo, hi - 1, c);
      FromExcludes(cf, es, lo, hi - 1, before, i);
    } else {
      ReceivedMentions(cf, es, lo, hi - 1, c, i);
      if more != [] && more[0].msg.ref == es[i].m.ref {
        RefTells(cf, es, i, hi - 1);
      }
    }
  }

  lemma MentionsOne(ws: seq<Attempt>, m: Message)
    requires |ws| <= 1
    ensures Mentions(ws, m) <==> ws != [] && ws[0].msg == m
  {
    assert ws != [] ==> ws[0].msg == m || !Mentions(ws, m);
  }

  lemma ReplayFrom(cf: Conf, es: seq<Event>, a: nat)
    requires !cf.tcp && OwnObjects(es) && a < |es| && es[a].SendE?
    ensures From(cf, es, 0, a, ReplayWritesOf(cf, es, a)) && DistinctRefs(ReplayWritesOf(cf, es, a))
  {
    var store, ws := At(cf, es, a).store, ReplayWritesOf(cf, es, a);
    var env := Env(cf.tcp, es[a].tick, es[a].accept);
    StoredWasPushed(cf, es, a);
    ReplayWrites(store, es[a].mid, env);
    hide At, Err, Replay;
    forall x | 0 <= x < |ws|
      ensures Source(cf, es, 0, a, ws[x].msg)
    {
      assert WritesLive(ws[x], store, es[a].mid, env);
      assert Pushed(cf, es, a, store[ws[x].msg.MsgID]);
    }
    forall x, y | 0 <= x < y < |ws|
      ensures ws[x].msg.ref != ws[y].msg.ref
    {
      assert Source(cf, es, 0, a, ws[x].msg);
      var i :| 0 <= i < a && Accepted(cf, es, i) && es[i].m == ws[x].msg;
      assert Source(cf, es, 0, a, ws[y].msg);
      var j :| 0 <= j < a && Accepted(cf, es, j) && es[j].m == ws[y].msg;
      }
  }

  /** A connection's session is written at most once per accepted push. */
  lemma AtMostOnce(cf: Conf, es: seq<Event>, a: nat, n: nat, c: ConnId)
    requires InOrder(cf, es) && OwnObjects(es) && !cf.tcp && SendOf(es, a, c) && a < n <= |es|
    ensures DistinctRefs(Entry(At(cf, es, n).log, c))
  {
    hide At, OwnObjects, Received, ReplayWritesOf, InOrder, Entry, From, DistinctRefs;
    SessionLog(cf, es, a, n, c);
    ReplayFrom(cf, es, a);
    ReceivedFrom(cf, es, a + 1, n, c);
    FromWidens(cf, es, a, n, Received(cf, es, a + 1, n, c));
    FromApart(cf, es, 0, a, n, ReplayWritesOf(cf, es, a), Received(cf, es, a + 1, n, c));
  }

  lemma FromWidens(cf: Conf, es: seq<Event>, a: nat, n: nat, ws: seq<Attempt>)
    requires From(cf, es, a + 1, n, ws)
    ensures From(cf, es, a, n, ws)
  {
    forall x | 0 <= x < |ws|
      ensures Source(cf, es, a, n, ws[x].msg)
    {
      assert Source(cf, es, a + 1, n, ws[x].msg);
      var j :| a + 1 <= j < n && Accepted(cf, es, j) && es[j].m == ws[x].msg;
    }
  }

  /** Whether the replay of event `a` writes the message `m`: it is stored then, the walk reaches
      it, and it is live at that moment. */
  ghost predicate ReplayReaches(cf: Conf, es: seq<Event>, a: nat, m: Message)
    requires a < |es| && es[a].SendE?
  {
    && Held(cf, es, a, m)
    && Visited(At(cf, es, a).store, es[a].mid, Env(cf.tcp, es[a].tick, es[a].accept), m.MsgID)
    && !m.Expired(es[a].tick(m.MsgID))
  }

  lemma ReplayMentions(cf: Conf, es: seq<Event>, a: nat, m: Message)
    requires !cf.tcp && a < |es| && es[a].SendE?
    ensures Mentions(ReplayWritesOf(cf, es, a), m) <==> ReplayReaches(cf, es, a, m)
  {
    var store, ws := At(cf, es, a).store, ReplayWritesOf(cf, es, a);
    var env := Env(cf.tcp, es[a].tick, es[a].accept);
    StoredWasPushed(cf, es, a);
    ReplayWrites(store, es[a].mid, env);
    hide At, Replay, Visited;
    if Mentions(ws, m) {
      var x :| 0 <= x < |ws| && ws[x].msg == m;
      assert WritesLive(ws[x], store, es[a].mid, env);
    }
    if ReplayReaches(cf, es, a, m) {
      assert Attempt(store[m.MsgID], env.accept(m.MsgID)) in ws;
    }
  }

  /** Which accepted pushes a session has been sent: those before its replay that the replay
      reached, and those after it that found the connection registered. */
  lemma AttemptedExactly(cf: Conf, es: seq<Event>, a: nat, n: nat, c: ConnId, i: nat)
    requires InOrder(cf, es) && OwnObjects(es) && !cf.tcp && SendOf(es, a, c) && a < n <= |es|
    requires Accepted(cf, es, i) && i < n
    ensures Mentions(Entry(At(cf, es, n).log, c), es[i].m) <==>
            if i < a then ReplayReaches(cf, es, a, es[i].m) else c in At(cf, es, i).conns
  {
    hide At, OwnObjects, Err, Received, ReplayWritesOf, InOrder, Entry, ReplayReaches, From, Mentions;
    SessionLog(cf, es, a, n, c);
    var ws, rs := ReplayWritesOf(cf, es, a), Received(cf, es, a + 1, n, c);
    MentionsSum(ws, rs, es[i].m);
    if i < a {
      ReplayMentions(cf, es, a, es[i].m);
      ReceivedFrom(cf, es, a + 1, n, c);
      FromExcludes(cf, es, a + 1, n, rs, i);
    } else {
      ReplayFrom(cf, es, a);
      FromExcludes(cf, es, 0, a, ws, i);
      ReceivedMentions(cf, es, a + 1, n, c, i);
    }
  }

  lemma MentionsSum(ws: seq<Attempt>, rs: seq<Attempt>, m: Message)
    ensures Mentions(ws + rs, m) <==> Mentions(ws, m) || Mentions(rs, m)
  {
    var all := ws + rs;
    if Mentions(ws, m) {
      var x :| 0 <= x < |ws| && ws[x].msg == m;
      assert all[x].msg == m;
    }
    if Mentions(rs, m) {
      var x :| 0 <= x < |rs| && rs[x].msg == m;
      assert all[|ws| + x].msg == m;
    }
  }

  /** Why a session misses an accepted push above its `mid`: the message was trimmed or found
      expired before the replay, it had expired when the replay visited it, the replay had failed on
      an earlier write, or the connection was not registered when the push came. */
  lemma MissedOnlyIf(cf: Conf, es: seq<Event>, a: nat, n: nat, c: ConnId, i: nat)
    requires InOrder(cf, es) && OwnObjects(es) && !cf.tcp && SendOf(es, a, c) && a < n <= |es|
    requires Accepted(cf, es, i) && i < n && es[i].m.MsgID > es[a].mid
    requires !Mentions(Entry(At(cf, es, n).log, c), es[i].m)
    ensures || (i < a && exists j :: i < j < a && (TrimmedAt(cf, es, j, es[i].m) || ExpiredAt(cf, es, j, es[i].m)))
            || (i < a && es[i].m.Expired(es[a].tick(es[i].m.MsgID)))
            || (i < a && Err(cf, es, a) == WriteErr)
            || (i > a && c !in At(cf, es, i).conns)
  {
    hide At, Entry, Mentions, InOrder, OwnObjects;
    AttemptedExactly(cf, es, a, n, c, i);
    if i < a {
      if !Held(cf, es, a, es[i].m) {
        var j := Departure(cf, es, i, a);
      } else if !es[i].m.Expired(es[a].tick(es[i].m.MsgID)) {
        var env := Env(cf.tcp, es[a].tick, es[a].accept);
        ReplayRemoves(At(cf, es, a).store, es[a].mid, env);
        ReplayFailsOnWrite(At(cf, es, a).store, es[a].mid, env);
      }
    }
  }

  /** A session that has joined and not left has missed, of the accepted pushes after its replay,
      exactly those that came before it was registered. */
  lemma MissedInTheGap(cf: Conf, es: seq<Event>, a: nat, b: nat, n: nat, c: ConnId, i: nat)
    requires InOrder(cf, es) && OwnObjects(es) && !cf.tcp && SendOf(es, a, c) && a < b < n <= |es|
    requires es[b] == AddE(c) && Err(cf, es, b) == NoError && forall j :: b < j < n ==> es[j] != RemoveE(c)
    requires Accepted(cf, es, i) && a < i < n
    ensures !Mentions(Entry(At(cf, es, n).log, c), es[i].m) <==> i < b
  {
    hide At, Entry, Mentions, InOrder, OwnObjects;
    AttemptedExactly(cf, es, a, n, c, i);
    if i < b {
      NotYetRegistered(cf, es, a, b, i, c);
    } else {
      StaysRegistered(cf, es, b, i, c);
    }
  }

  /** A session replays an empty store, a message is pushed, the session joins. */
  ghost function PushInTheGap(): seq<Event> {
    [SendE(1, 0, _ => 0, _ => true), PushE(Message(1, "", 9, 1), 0, _ => true), AddE(1)]
  }

  ghost function OneSubscriber(): Conf {
    Conf(1, 1, false)
  }

  lemma GapRuns()
    ensures var cf, es := OneSubscriber(), PushInTheGap();
      Err(cf, es, 0) == NoError && Err(cf, es, 1) == NoError && Err(cf, es, 2) == NoError
  {
    var cf, es := OneSubscriber(), PushInTheGap();
    assert KeysAbove(map[], 0) == {};
    assert At(cf, es, 0) == State(map[], {}, map[]);
    assert At(cf, es, 1).store == map[] && At(cf, es, 1).conns == {};
    PushOnce(At(cf, es, 1), cf, es[1]);
    assert At(cf, es, 2).conns == {};
  }

  /** The gap is real: in this run a session that keeps to its order, fails nowhere and is connected
      at the end has not been sent an accepted, live message above its `mid`. */
  lemma GapLosesAPush()
    ensures var cf, es := OneSubscriber(), PushInTheGap();
      && InOrder(cf, es) && OwnObjects(es) && Accepted(cf, es, 1) && es[1].m.MsgID > es[0].mid
      && 1 in At(cf, es, 3).conns && !Mentions(Entry(At(cf, es, 3).log, 1), es[1].m)
  {
    hide At, Err, Mentions, Entry;
    var cf, es := OneSubscriber(), PushInTheGap();
    GapRuns();
    assert PhaseAt(cf, es, 0, 1) == Fresh && PhaseAt(cf, es, 1, 1) == Sent && PhaseAt(cf, es, 2, 1) == Sent;
    assert MayHappen(cf, es, 0) && MayHappen(cf, es, 1) && MayHappen(cf, es, 2);
    MissedInTheGap(cf, es, 0, 2, 3, 1, 1);
    StaysRegistered(cf, es, 2, 3, 1);
  }

  /** Between its replay and its successful AddConn a session is not registered. */
  lemma {:induction false} NotYetRegistered(cf: Conf, es: seq<Event>, a: nat, b: nat, i: nat, c: ConnId)
    requires InOrder(cf, es) && SendOf(es, a, c) && a < i <= b < |es| && es[b] == AddE(c)
    ensures c !in At(cf, es, i).conns && PhaseAt(cf, es, i, c) == Sent
    decreases b - i
  {
    hide At, InOrder, Err;
    if i == b {
      InOrderAt(cf, es, b);
    } else {
      NotYetRegistered(cf, es, a, b, i + 1, c);
      SentBefore(cf, es, a, i, c);
    }
    RegisteredIsJoined(cf, es, i, c);
  }

  lemma SentBefore(cf: Conf, es: seq<Event>, a: nat, i: nat, c: ConnId)
    requires InOrder(cf, es) && SendOf(es, a, c) && a < i < |es| && PhaseAt(cf, es, i + 1, c) == Sent
    ensures PhaseAt(cf, es, i, c) == Sent
  {
    hide At, Err, InOrder;
    InOrderAt(cf, es, i);
    PhaseMovesOn(cf, es, a, i, c);
  }
}
