/** The channel of inner_channel.go, over the linked skip list. */
module InnerChannels {
  import opened FiniteSets
  import opened Messages
  import opened SkipLists
  import opened InnerSpec

  class InnerChannel {
    const cf: Conf
    var conn: set<ConnId>
    const message: SkipList<Message>
    ghost var log: Log  // every write that was attempted, by connection

    ghost predicate Valid()
      reads this, message, message.Repr
    {
      message.Valid() && this !in message.Repr && KeyedById(message.Contents)
    }

    ghost function View(): State
      reads this, message
    {
      State(message.Contents, conn, log)
    }

    constructor (cf: Conf)
      ensures Valid() && View() == State(map[], {}, map[]) && this.cf == cf
    {
      this.cf := cf;
      conn := {};
      message := new SkipList<Message>();
      log := map[];
    }

    /** What a walk that has reached node `n` has still to visit, in terms of keys. */
    lemma Reached(n: Node?<Message>, from: int)
      requires message.Valid() && message.FirstFrom(n, from + 1)
      ensures n == null ==> KeysAbove(message.Contents, from) == {}
      ensures n != null ==> n.Score in KeysAbove(message.Contents, from) && n.Member == message.Contents[n.Score]
      ensures n != null ==> message.Stored(n)
      ensures n != null ==> forall k :: k in KeysAbove(message.Contents, from) ==> n.Score <= k
    {
    }

    /** Deleting an expired message under the walk and going on to the next: the deleted node still
        points to its successor. */
    method DropExpired(n: Node<Message>) returns (next: Node?<Message>)
      requires Valid() && message.Stored(n)
      modifies message.Repr
      ensures Valid() && message.Repr == old(message.Repr)
      ensures message.Contents == old(message.Contents) - {n.Score} && message.FirstFrom(next, n.Score + 1)
    {
      var deleted := message.Delete(n.Score);
      next := n.Next();
    }

    /** The walk of SendMsg; `written` are the writes it attempts. */
    method Walk(mid: int, tick: int -> int, accept: int -> bool) returns (err: Error, ghost written: seq<Attempt>)
      requires Valid()
      modifies message.Repr
      ensures Valid() && message.Repr == old(message.Repr)
      ensures Replayed(message.Contents, written, err) == Replay(old(message.Contents), mid, Env(cf.tcp, tick, accept))
    {
      hide SkipList.Valid, SkipList.FirstFrom, KeyedById, Replay, Resumed, KeysAbove;
      ghost var env := Env(cf.tcp, tick, accept);
      ghost var all := Replay(message.Contents, mid, env);
      ghost var from := mid;
      written := [];
      ReplayStarts(message.Contents, mid, env);
      var n := message.Greate(mid);
      while n != null
        invariant Valid() && message.Repr == old(message.Repr)
        invariant message.FirstFrom(n, from + 1)
        invariant all == Resumed(message.Contents, from, env, written)
        decreases KeysAbove(message.Contents, from)
      {
        var m := n.Member;
        Reached(n, from);
        ReplayStep(message.Contents, from, env, written, n.Score);
        FewerAhead(message.Contents, from, n.Score);
        from := n.Score;
        if m.Expired(tick(n.Score)) {
          n := DropExpired(n);
        } else {
          if cf.tcp {
            err := MsgBufErr;
            return;
          }
          var ok := accept(n.Score);
          written := written + [Attempt(m, ok)];
          if !ok {
            err := WriteErr;
            return;
          }
          message.NextIsSuccessor(n);
          n := n.Next();
        }
      }
      Reached(n, from);
      ReplayEnd(message.Contents, from, env, written);
      err := NoError;
    }

    method SendMsg(c: ConnId, mid: int, tick: int -> int, accept: int -> bool) returns (err: Error)
      requires Valid()
      modifies this`log, message.Repr
      ensures Valid() && message.Repr == old(message.Repr)
      ensures (View(), err) == Send(old(View()), cf, c, mid, tick, accept)
      ensures forall k :: k in old(message.Contents) && k !in message.Contents ==>
        mid < k && tick(k) > old(message.Contents)[k].Expire
      ensures err == NoError ==> forall k :: k in message.Contents && mid < k ==> tick(k) <= message.Contents[k].Expire
    {
      hide Replay;
      ReplaySpelledOut(message.Contents, mid, Env(cf.tcp, tick, accept));
      ghost var written;
      err, written := Walk(mid, tick, accept);
      log := Attempted(log, c, written);
    }

    /** Dropping the smallest message of a full store; false when there is none to drop. */
    method Trim() returns (ok: bool)
      requires Valid()
      modifies message.Repr
      ensures Valid() && message.Repr == old(message.Repr)
      ensures ok <==> old(message.Contents).Keys != {} || |old(message.Contents)| + 1 <= cf.MaxMessage
      ensures message.Contents == Trimmed(old(message.Contents), cf)
    {
      if message.Length + 1 > cf.MaxMessage {
        message.HeadNextIsFirst();
        var n := message.Head.Next();
        if n == null {
          return false;
        }
        LeastIs(message.Contents.Keys, n.Score);
        var trimmed := message.Delete(n.Score);
      }
      return true;
    }

    /** Writing a message to every registered connection, in any order. */
    method Broadcast(m: Message, accepts: ConnId -> bool)
      modifies this`log
      ensures log == Deliver(old(log), conn, m, accepts)
    {
      var todo := conn;
      ghost var done := {};
      assert log == Deliver(log, done, m, accepts);
      while todo != {}
        invariant todo !! done && todo + done == conn
        invariant log == Deliver(old(log), done, m, accepts)
        decreases todo
      {
        assert (forall c :: c !in todo) ==> todo == {};
        var c :| c in todo;
        var ok := accepts(c);
        DeliverOne(old(log), done, c, m, accepts);
        log := log[c := Entry(log, c) + [Attempt(m, ok)]];
        todo, done := todo - {c}, done + {c};
      }
    }

    /** Trimming and inserting, the part of PushMsg that changes the store. */
    method Keep(m: Message, drawn: nat) returns (err: Error)
      requires Valid() && drawn <= MAX_LEVEL
      modifies message.Repr
      ensures Valid() && fresh(message.Repr - old(message.Repr))
      ensures message.Contents == StoreAfter(old(message.Contents), cf, m).0
      ensures err == StoreAfter(old(message.Contents), cf, m).1
    {
      var ok := Trim();
      if !ok {
        return PanicHeadNil;
      }
      var r := message.Insert(m.MsgID, m, drawn);
      return if r == NodeExists then ErrNodeExists else NoError;
    }

    method PushMsg(m: Message, now: int, accepts: ConnId -> bool, drawn: nat) returns (err: Error)
      requires Valid() && drawn <= MAX_LEVEL
      modifies this`log, message.Repr
      ensures Valid() && fresh(message.Repr - old(message.Repr))
      ensures (View(), err) == Push(old(View()), cf, m, now, accepts)
      ensures err == MsgExpiredErr <==> now > m.Expire
      ensures now > m.Expire ==> View() == old(View())
    {
      if m.Expired(now) {
        return MsgExpiredErr;
      }
      err := Keep(m, drawn);
      if err != NoError {
        return;
      }
      if cf.tcp {
        return MsgBufErr;
      }
      Broadcast(m, accepts);
    }

    method AddConn(c: ConnId) returns (err: Error)
      requires Valid()
      modifies this`conn
      ensures Valid() && (View(), err) == Add(old(View()), cf, c)
      ensures err == (if |old(conn)| >= cf.MaxSubscriberPerKey then MaxConnErr else NoError)
      ensures conn == if |old(conn)| >= cf.MaxSubscriberPerKey then old(conn) else old(conn) + {c}
    {
      if |conn| + 1 > cf.MaxSubscriberPerKey {
        return MaxConnErr;
      }
      conn := conn + {c};
      return NoError;
    }

    method RemoveConn(c: ConnId)
      requires Valid()
      modifies this`conn
      ensures Valid() && View() == Remove(old(View()), c) && conn == old(conn) - {c}
    {
      conn := conn - {c};
    }
  }
}
