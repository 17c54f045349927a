/** The skip list of skiplist/skiplist.go: real nodes whose `forward` arrays are changed in place.

    The ghost map `at` (score to node) is what the list stores.  `Linked` says of one forward
    slot that it points to the nearest later node tall enough to be on that level; everything the
    searches need follows from it, and `Chain` recovers the linked sequence of each level from
    the pointers alone. */
module SkipLists {
  const MAX_NUMBER_OF_LEVELS := 16
  const MAX_LEVEL := MAX_NUMBER_OF_LEVELS - 1

  datatype InsertResult = Inserted | NodeExists

  class Node<T(0)> {
    const Score: int
    var Member: T
    const level: nat
    const forward: array<Node?<T>>

    constructor (level: nat, score: int, member: T)
      ensures this.level == level && Score == score && Member == member
      ensures fresh(forward) && forward.Length == level + 1
      ensures forall i :: 0 <= i <= level ==> forward[i] == null
    {
      this.level, Score, Member := level, score, member;
      forward := new Node?<T>[level + 1](_ => null);
    }

    /** A node that carries nothing: the list head. */
    constructor Blank(level: nat)
      ensures this.level == level
      ensures fresh(forward) && forward.Length == level + 1
      ensures forall i :: 0 <= i <= level ==> forward[i] == null
    {
      this.level, Score := level, 0;
      forward := new Node?<T>[level + 1](_ => null);
    }

    method Next() returns (r: Node?<T>)
      requires forward.Length > 0
      ensures r == forward[0]
    {
      r := forward[0];
    }
  }

  class SkipList<T(0)> {
    var Level: int
    var Length: int
    const Head: Node<T>
    ghost var at: map<int, Node<T>>
    ghost var Contents: map<int, T>  // the sorted finite map the list stands for
    ghost var Repr: set<object>

    /** Whether key `k` lies after node `n`; the head lies before every key. */
    ghost predicate After(n: Node<T>, k: int) {
      n == Head || n.Score < k
    }

    /** With `m` stored, slot `i` of `n` may hold `q`: `q` is the first stored node after `n` whose
        height reaches `i`, or null when there is none. */
    ghost predicate NextIn(m: map<int, Node<T>>, n: Node<T>, i: nat, q: Node?<T>) {
      && (q != null ==> q.Score in m && m[q.Score] == q && i <= q.level && After(n, q.Score))
      && forall k :: k in m && After(n, k) && (q != null ==> k < q.Score) ==> m[k].level < i
    }

    /** Every slot of `nodes` holds what it should when `m` is stored. */
    ghost predicate Right(m: map<int, Node<T>>, nodes: set<Node<T>>)
      reads set n | n in nodes :: n.forward
    {
      forall n, j {:trigger n.forward[j]} :: n in nodes && 0 <= j < n.forward.Length ==> NextIn(m, n, j, n.forward[j])
    }

    /** The stored keys after `n`: what a search standing at `n` can still visit. */
    ghost function Ahead(n: Node<T>): set<int>
      reads this`at
    {
      set k | k in at && After(n, k)
    }

    ghost predicate Stored(n: Node<T>)
      reads this`at
    {
      n.Score in at && at[n.Score] == n
    }

    /** Nodes are stored under their scores and own arrays of their own. */
    ghost predicate Shape(m: map<int, Node<T>>, repr: set<object>) {
      && this in repr && Head in repr && Head.forward in repr
      && Head.level == MAX_NUMBER_OF_LEVELS && Head.forward.Length == MAX_NUMBER_OF_LEVELS + 1
      && (forall k :: k in m ==>
            && m[k] in repr && m[k].forward in repr
            && m[k].Score == k && m[k] != Head && m[k].forward != Head.forward
            && m[k].forward.Length == m[k].level + 1)
      && (forall k, l :: k in m && l in m && k != l ==> m[k].forward != m[l].forward)
    }

    /** The head and the stored nodes. */
    ghost function Nodes(m: map<int, Node<T>>): (s: set<Node<T>>) {
      {Head} + set k | k in m :: m[k]
    }

    ghost predicate Tallest(m: map<int, Node<T>>, level: int) {
      && 0 <= level <= MAX_LEVEL
      && (forall k :: k in m ==> m[k].level <= level)
      && (level > 0 ==> exists k :: k in m && m[k].level == level)
    }

    ghost predicate MembersAgree()
      reads this`at, this`Contents, set k | k in at :: at[k]
    {
      Contents.Keys == at.Keys && forall k :: k in at ==> at[k].Member == Contents[k]
    }

    ghost predicate Valid()
      reads this, Repr
      ensures Valid() ==> this in Repr
    {
      Shape(at, Repr) && MembersAgree() && Length == |at| && Tallest(at, Level) && Right(at, Nodes(at))
    }

    constructor ()
      ensures Valid() && fresh(Repr) && Contents == map[] && Level == 0 && Length == 0
      ensures Head.level == 16 && Head.forward.Length == 17
    {
      var head := new Node<T>.Blank(MAX_NUMBER_OF_LEVELS);
      Level, Length, Head := 0, 0, head;
      at, Contents := map[], map[];
      Repr := {this, head, head.forward};
    }

    lemma LinkedAt(n: Node<T>, i: nat)
      requires Right(at, Nodes(at)) && (n == Head || Stored(n)) && i < n.forward.Length
      ensures NextIn(at, n, i, n.forward[i])
    {
      assert n in Nodes(at);
    }

    lemma NodesShaped(m: map<int, Node<T>>, repr: set<object>)
      requires Shape(m, repr)
      ensures forall n :: n in Nodes(m) ==> n == Head || (n.Score in m && m[n.Score] == n)
      ensures forall n :: n in Nodes(m) ==> n in repr && n.forward in repr && n.forward.Length == n.level + 1
      ensures forall n, n' :: n in Nodes(m) && n' in Nodes(m) && n != n' ==> n.forward != n'.forward
    {
    }

    /** Where a search may stand at level `i`: the head, or a stored node below `bound` that is
        tall enough. */
    ghost predicate Before(p: Node<T>, bound: int, i: nat)
      reads this`at
    {
      p == Head || (Stored(p) && p.Score < bound && i <= p.level)
    }

    /** What a descent for `score` has recorded for level `j`: the last node on that level before
        `score`. */
    ghost predicate Recorded(p: Node?<T>, score: int, j: nat)
      reads this`at, if p == null then {} else {p.forward}
    {
      && p != null && Before(p, score, j) && j < p.forward.Length
      && (p.forward[j] != null ==> p.forward[j].Score >= score)
    }

    /** `q` is the first stored node at or above `score`, or null when there is none. */
    ghost predicate FirstFrom(q: Node?<T>, score: int)
      reads this`at
    {
      && (q != null ==> Stored(q) && q.Score >= score)
      && forall k :: k in at && score <= k ==> q != null && q.Score <= k
    }

    lemma BottomIsFirst(p: Node<T>, score: int)
      requires Valid() && Recorded(p, score, 0)
      ensures FirstFrom(p.forward[0], score)
    {
      LinkedAt(p, 0);
    }

    /** The inner loop of the searches: along level `i` to the last node before `score`. */
    method Walk(from: Node<T>, i: nat, score: int) returns (p: Node<T>, q: Node?<T>)
      requires Valid() && Before(from, score, i) && i < from.forward.Length
      ensures Recorded(p, score, i) && i < p.forward.Length && q == p.forward[i]
    {
      hide Right, MembersAgree, Tallest;
      p := from;
      q := p.forward[i];
      while q != null && q.Score < score
        invariant Before(p, score, i) && i < p.forward.Length && q == p.forward[i]
        decreases Ahead(p)
      {
        LinkedAt(p, i);
        assert q.Score in Ahead(p) && q.Score !in Ahead(q);
        p := q;
        q := p.forward[i];
      }
    }

    method Equal(score: int) returns (r: Node?<T>)
      requires Valid()
      ensures r == null <==> score !in Contents
      ensures r != null ==> r == at[score]
    {
      hide Right;
      var q: Node?<T> := null;
      var p: Node<T> := Head;
      var i := Level;
      while i >= 0
        invariant -1 <= i <= Level
        invariant if i == Level then p == Head else Recorded(p, score, i + 1) && q == p.forward[i + 1]
        decreases i
      {
        p, q := Walk(p, i, score);
        i := i - 1;
      }
      BottomIsFirst(p, score);
      if q == null || q.Score != score {
        return null;
      }
      return q;
    }

    method Greate(score: int) returns (r: Node?<T>)
      requires Valid()
      ensures FirstFrom(r, score + 1)
    {
      hide Right, MembersAgree;
      var q: Node?<T> := null;
      var p: Node<T> := Head;
      var i := Level;
      while i >= 0
        invariant -1 <= i <= Level
        invariant if i == Level then p == Head else Recorded(p, score + 1, i + 1) && q == p.forward[i + 1]
        decreases i
      {
        q := p.forward[i];
        while q != null && q.Score <= score
          invariant Before(p, score + 1, i) && i < p.forward.Length && q == p.forward[i]
          decreases Ahead(p)
        {
          LinkedAt(p, i);
          assert q.Score in Ahead(p) && q.Score !in Ahead(q);
          p := q;
          q := p.forward[i];
        }
        i := i - 1;
      }
      BottomIsFirst(p, score + 1);
      if q != null && q.Score > score {
        return q;
      }
      return null;
    }

    /** Recording `p` for level `i` in the array of a descent disturbs nothing recorded before. */
    method Record(update: array<Node?<T>>, i: nat, p: Node<T>, score: int)
      requires Shape(at, Repr) && update !in Repr && i < update.Length && Recorded(p, score, i)
      modifies update
      ensures update[i] == p && Recorded(p, score, i) && p.forward[i] == old(p.forward[i])
      ensures forall j :: 0 <= j < update.Length && j != i ==> update[j] == old(update[j])
      ensures forall j :: 0 <= j < update.Length && old(Recorded(update[j], score, j)) ==> Recorded(update[j], score, j)
    {
      update[i] := p;
    }

    /** Where the descent goes on, one level down. */
    lemma GoesOn(p: Node<T>, score: int, i: nat)
      requires Shape(at, Repr) && i < MAX_NUMBER_OF_LEVELS && (p == Head || Recorded(p, score, i + 1))
      ensures Before(p, score, i) && i < p.forward.Length
    {
    }

    /** The descent that Insert, Update and Delete all begin with: `q` is the first node at or
        above `score`, `update[i]` the last node before it on level `i`. */
    method Descend(score: int) returns (q: Node?<T>, update: array<Node?<T>>)
      requires Valid()
      ensures fresh(update) && update.Length == MAX_NUMBER_OF_LEVELS
      ensures forall j :: 0 <= j <= Level ==> Recorded(update[j], score, j)
      ensures Recorded(update[0], score, 0) && q == update[0].forward[0]
      ensures FirstFrom(q, score)
    {
      hide Right, MembersAgree, FirstFrom, Nodes, Shape, Recorded;
      q := null;
      var p: Node<T> := Head;
      update := new Node?<T>[MAX_NUMBER_OF_LEVELS](_ => null);
      var i := Level;
      while i >= 0
        invariant -1 <= i <= Level && (i == Level ==> p == Head)
        invariant i < Level ==> p == update[i + 1] && Recorded(p, score, i + 1)
        invariant i < Level ==> i + 1 < p.forward.Length && q == p.forward[i + 1]
        invariant forall j :: i < j <= Level ==> Recorded(update[j], score, j)
        decreases i
      {
        GoesOn(p, score, i);
        p, q := Walk(p, i, score);
        Record(update, i, p, score);
        i := i - 1;
      }
      BottomIsFirst(p, score);
    }

    /** Storing `x` leaves a slot as it was when the slot is above `x`'s height or does not belong
        to `x`'s predecessor `prev` on that level; otherwise `x` goes between `prev` and `r`. */
    lemma NextAfterInsert(m: map<int, Node<T>>, n: Node<T>, i: nat, q: Node?<T>, x: Node<T>, prev: Node<T>, r: Node?<T>)
      requires forall k :: k in m ==> m[k].Score == k && m[k] != Head
      requires x.Score !in m && x != Head
      requires n == Head || (n.Score in m && m[n.Score] == n && i <= n.level)
      requires NextIn(m, n, i, q)
      requires i <= x.level ==>
        && (prev == Head || (prev.Score in m && m[prev.Score] == prev && prev.Score < x.Score && i <= prev.level))
        && NextIn(m, prev, i, r) && (r != null ==> r.Score > x.Score)
        && (n == prev ==> q == r)
      ensures i > x.level || n != prev ==> NextIn(m[x.Score := x], n, i, q)
      ensures i <= x.level && n == prev ==> NextIn(m[x.Score := x], n, i, x) && NextIn(m[x.Score := x], x, i, q)
    {
    }

    /** The loop that puts `q` behind its recorded predecessor on each of its levels; `nodes` are
        the head and the stored nodes. */
    method LinkIn(q: Node<T>, level: nat, update: array<Node?<T>>, ghost nodes: set<Node<T>>)
      requires q !in nodes && q.forward.Length == level + 1 <= update.Length && update != q.forward
      requires forall n :: n in nodes ==> n.forward != update && n.forward != q.forward
      requires forall n, n' :: n in nodes && n' in nodes && n != n' ==> n.forward != n'.forward
      requires forall j :: 0 <= j <= level ==>
        update[j] != null && update[j] in nodes && j < update[j].forward.Length
      modifies q.forward, set n | n in nodes :: n.forward
      ensures forall n, j {:trigger n.forward[j]} :: n in nodes && 0 <= j < n.forward.Length ==>
        n.forward[j] == if j <= level && update[j] == n then q else old(n.forward[j])
      ensures forall j :: 0 <= j <= level ==> q.forward[j] == old(update[j].forward[j])
    {
      var i := level;
      while i >= 0
        invariant -1 <= i <= level
        invariant forall n, j {:trigger n.forward[j]} :: n in nodes && 0 <= j < n.forward.Length ==>
          n.forward[j] == if i < j <= level && update[j] == n then q else old(n.forward[j])
        invariant forall j :: i < j <= level ==> q.forward[j] == old(update[j].forward[j])
        decreases i
      {
        var p := update[i];
        q.forward[i] := p.forward[i];
        p.forward[i] := q;
        i := i - 1;
      }
    }

    /** One slot `j` of the node `n`, before and after `q` is put behind `prev` on that level. */
    lemma SlotAfterInsert(n: Node<T>, j: nat, was: Node?<T>, q: Node<T>, prev: Node<T>, next: Node?<T>)
      requires Shape(at, Repr) && q !in Repr && q.Score !in at
      requires n in Nodes(at) && j < n.forward.Length && NextIn(at, n, j, was)
      requires j <= q.level ==> Before(prev, q.Score, j) && NextIn(at, prev, j, next)
      requires j <= q.level ==> (next != null ==> next.Score >= q.Score) && (n == prev ==> was == next)
      ensures NextIn(at[q.Score := q], n, j, if j <= q.level && n == prev then q else was)
      ensures j <= q.level && n == prev ==> NextIn(at[q.Score := q], q, j, was)
    {
      NextAfterInsert(at, n, j, was, q, prev, next);
    }

    /** LinkIn leaves every slot right for the map that also stores `q`. */
    method Relink(q: Node<T>, update: array<Node?<T>>, ghost nodes: set<Node<T>>)
      requires Shape(at, Repr) && MembersAgree() && nodes == Nodes(at) && Right(at, nodes)
      requires q !in Repr && q.forward !in Repr && q.Score !in at && q.forward.Length == q.level + 1 <= update.Length
      requires update !in Repr && update != q.forward
      requires forall j :: 0 <= j <= q.level ==> Recorded(update[j], q.Score, j)
      modifies q.forward, set n | n in nodes :: n.forward
      ensures MembersAgree() && Right(at[q.Score := q], nodes + {q})
    {
      hide NextIn, MembersAgree;
      NodesShaped(at, Repr);
      LinkIn(q, q.level, update, nodes);
      forall n, j | n in nodes && 0 <= j < n.forward.Length
        ensures NextIn(at[q.Score := q], n, j, n.forward[j])
      {
        var prev := if j <= q.level then update[j] else Head;
        SlotAfterInsert(n, j, old(n.forward[j]), q, prev, if j <= q.level then old(prev.forward[j]) else null);
      }
      forall j | 0 <= j <= q.level
        ensures NextIn(at[q.Score := q], q, j, q.forward[j])
      {
        SlotAfterInsert(update[j], j, old(update[j].forward[j]), q, update[j], old(update[j].forward[j]));
      }
    }

    lemma ShapeWith(m: map<int, Node<T>>, repr: set<object>, q: Node<T>)
      requires Shape(m, repr) && q.Score !in m
      requires q !in repr && q.forward !in repr && q.forward.Length == q.level + 1
      ensures Shape(m[q.Score := q], repr + {q, q.forward})
      ensures Nodes(m[q.Score := q]) == Nodes(m) + {q}
    {
      var t := m[q.Score := q];
      assert forall k :: k in m ==> t[k] == m[k];
      assert t[q.Score] == q;
      assert Nodes(t) == Nodes(m) + {q};
    }

    lemma TallestWith(m: map<int, Node<T>>, level: int, q: Node<T>)
      requires q.Score !in m && 0 <= q.level <= level <= MAX_LEVEL && forall k :: k in m ==> m[k].level <= level
      requires level > 0 ==> q.level == level || exists k :: k in m && m[k].level == level
      ensures Tallest(m[q.Score := q], level)
    {
      if level > 0 && q.level != level {
        var k :| k in m && m[k].level == level;
        assert m[q.Score := q][k].level == level;
      } else {
        assert m[q.Score := q][q.Score].level == q.level;
      }
    }

    /** The list takes up the node `q`, which every slot already counts in. */
    method Adopt(q: Node<T>)
      requires Shape(at, Repr) && MembersAgree() && Length == |at|
      requires Tallest(at[q.Score := q], Level) && Right(at[q.Score := q], Nodes(at) + {q})
      requires q !in Repr && q.forward !in Repr && q.Score !in at && q.forward.Length == q.level + 1
      modifies this
      ensures Valid() && Repr == old(Repr) + {q, q.forward} && at == old(at)[q.Score := q]
      ensures Contents == old(Contents)[q.Score := q.Member]
    {
      hide Right, Tallest, Shape, Nodes;
      ShapeWith(at, Repr, q);
      at, Contents := at[q.Score := q], Contents[q.Score := q.Member];
      Repr := Repr + {q, q.forward};
      Length := Length + 1;
    }

    /** Storing the node `q` behind the predecessors that `update` holds for its levels. */
    method Store(q: Node<T>, update: array<Node?<T>>)
      requires Shape(at, Repr) && Right(at, Nodes(at)) && MembersAgree() && Length == |at|
      requires 0 <= q.level <= Level <= MAX_LEVEL && forall k :: k in at ==> at[k].level <= Level
      requires Level > 0 ==> q.level == Level || exists k :: k in at && at[k].level == Level
      requires q !in Repr && q.forward !in Repr && q.Score !in at && q.forward.Length == q.level + 1
      requires update !in Repr && update.Length == MAX_NUMBER_OF_LEVELS && update != q.forward
      requires forall j :: 0 <= j <= q.level ==> Recorded(update[j], q.Score, j)
      modifies Repr, q.forward
      ensures Valid() && Repr == old(Repr) + {q, q.forward} && at == old(at)[q.Score := q]
      ensures Contents == old(Contents)[q.Score := q.Member]
    {
      hide Recorded, Right, Tallest, MembersAgree;
      TallestWith(at, Level, q);
      NodesShaped(at, Repr);
      Relink(q, update, Nodes(at));
      Adopt(q);
    }

    /** Choosing the height of a new node: at most one level above the current `Level`, which then
        grows with it.  `drawn` is what the random draw returned. */
    method ChooseLevel(score: int, drawn: nat, update: array<Node?<T>>) returns (level: nat)
      requires Valid() && update !in Repr && drawn <= MAX_LEVEL && update.Length == MAX_NUMBER_OF_LEVELS
      requires forall j :: 0 <= j <= Level ==> Recorded(update[j], score, j)
      modifies this`Level, update
      ensures Right(at, Nodes(at)) && MembersAgree() && Level <= MAX_LEVEL
      ensures Level == if drawn > old(Level) then old(Level) + 1 else old(Level)
      ensures level == if drawn > old(Level) then Level else drawn
      ensures forall j :: 0 <= j <= level ==> Recorded(update[j], score, j)
    {
      hide Right, MembersAgree;
      NodesShaped(at, Repr);
      level := drawn;
      if level > Level {
        LinkedAt(Head, Level + 1);
        Level := Level + 1;
        level := Level;
        Record(update, level, Head, score);
      }
    }

    /** The second half of Insert and Update: a new node of the chosen height is linked in. */
    method Splice(score: int, member: T, drawn: nat, update: array<Node?<T>>)
      requires Valid() && update !in Repr && drawn <= MAX_LEVEL && score !in at
      requires update.Length == MAX_NUMBER_OF_LEVELS
      requires forall j :: 0 <= j <= Level ==> Recorded(update[j], score, j)
      modifies Repr, update
      ensures Valid() && fresh(Repr - old(Repr))
      ensures Contents == old(Contents)[score := member]
      ensures forall k :: k in old(at) ==> k in at && at[k] == old(at)[k]
    {
      hide Right, MembersAgree, Shape;
      var level := ChooseLevel(score, drawn, update);
      var q := new Node(level, score, member);
      Store(q, update);
    }

    /** Insert a node; `drawn` stands for the result of the random height draw. */
    method Insert(score: int, member: T, drawn: nat) returns (err: InsertResult)
      requires Valid() && drawn <= MAX_LEVEL
      modifies Repr
      ensures Valid() && fresh(Repr - old(Repr))
      ensures err == NodeExists <==> score in old(Contents)
      ensures err == Inserted ==> Contents == old(Contents)[score := member]
      ensures err == NodeExists ==> unchanged(old(Repr))
    {
      hide Right;
      var q, update := Descend(score);
      if q != null && q.Score == score {
        return NodeExists;
      }
      Splice(score, member, drawn, update);
      return Inserted;
    }

    method Overwrite(q: Node<T>, member: T)
      requires Valid() && Stored(q)
      modifies this`Contents, q`Member
      ensures Valid() && Contents == old(Contents)[q.Score := member]
    {
      hide Right, Tallest;
      q.Member := member;
      Contents := Contents[q.Score := member];
    }

    /** Insert a node, or replace the member of the node that has this score already. */
    method Update(score: int, member: T, drawn: nat)
      requires Valid() && drawn <= MAX_LEVEL
      modifies Repr
      ensures Valid() && fresh(Repr - old(Repr))
      ensures Contents == old(Contents)[score := member]
    {
      hide Right;
      var q, update := Descend(score);
      if q != null && q.Score == score {
        Overwrite(q, member);
        return;
      }
      Splice(score, member, drawn, update);
    }

    /** Removing `x`: a slot that held `x` is right again once it holds what `x` pointed to, every
        other slot stays right, and on each level only `x`'s predecessor `prev` held `x`. */
    lemma NextAfterDelete(
      m: map<int, Node<T>>, n: Node<T>, i: nat, q: Node?<T>, x: Node<T>, prev: Node<T>, p: Node?<T>, r: Node?<T>)
      requires forall k :: k in m ==> m[k].Score == k && m[k] != Head
      requires x.Score in m && m[x.Score] == x
      requires n == Head || (n.Score in m && m[n.Score] == n && i <= n.level)
      requires NextIn(m, n, i, q)
      requires prev == Head || (prev.Score in m && m[prev.Score] == prev && prev.Score < x.Score && i <= prev.level)
      requires NextIn(m, prev, i, p) && (p != null ==> p.Score >= x.Score) && (n == prev ==> q == p)
      requires q == x ==> NextIn(m, x, i, r)
      ensures q == x ==> n == prev && NextIn(m - {x.Score}, n, i, r)
      ensures q != x ==> NextIn(m - {x.Score}, n, i, q)
    {
    }

    /** The loop that takes `q` out of every level it is linked on. */
    method UnlinkFrom(q: Node<T>, update: array<Node?<T>>, top: nat, ghost nodes: set<Node<T>>)
      requires top < update.Length && forall n :: n in nodes ==> n.forward != update
      requires forall n, n' :: n in nodes && n' in nodes && n != n' ==> n.forward != n'.forward
      requires q in nodes && forall j :: 0 <= j <= top ==>
        && update[j] != null && update[j] in nodes && update[j] != q && j < update[j].forward.Length
        && (update[j].forward[j] == q ==> j < q.forward.Length)
      modifies set n | n in nodes :: n.forward
      ensures forall n, j {:trigger n.forward[j]} :: n in nodes && 0 <= j < n.forward.Length ==>
        n.forward[j] ==
          if j <= top && update[j] == n && old(n.forward[j]) == q then old(q.forward[j]) else old(n.forward[j])
    {
      var i := 0;
      while i <= top
        invariant 0 <= i <= top + 1
        invariant forall n, j {:trigger n.forward[j]} :: n in nodes && 0 <= j < n.forward.Length ==>
          n.forward[j] ==
            if j < i && update[j] == n && old(n.forward[j]) == q then old(q.forward[j]) else old(n.forward[j])
      {
        var p := update[i];
        if q == p.forward[i] {
          p.forward[i] := q.forward[i];
        }
        i := i + 1;
      }
    }

    /** One slot `j` of the node `n`, before and after `q` is taken out from behind `prev`. */
    lemma SlotAfterDelete(n: Node<T>, j: nat, was: Node?<T>, q: Node<T>, prev: Node<T>, held: Node?<T>, next: Node?<T>)
      requires Shape(at, Repr) && Stored(q) && n in Nodes(at) && j < n.forward.Length && NextIn(at, n, j, was)
      requires Before(prev, q.Score, j) && NextIn(at, prev, j, held) && (held != null ==> held.Score >= q.Score)
      requires n == prev ==> was == held
      requires j <= q.level ==> NextIn(at, q, j, next)
      ensures was == q ==> n == prev
      ensures NextIn(at - {q.Score}, n, j, if was == q then next else was)
    {
      NextAfterDelete(at, n, j, was, q, prev, held, next);
    }

    /** UnlinkFrom leaves every slot right for the map without `q`; `q` itself still points on. */
    method Unlink(q: Node<T>, update: array<Node?<T>>, ghost nodes: set<Node<T>>)
      requires Valid() && nodes == Nodes(at) && Stored(q)
      requires update !in Repr && update.Length == MAX_NUMBER_OF_LEVELS
      requires forall j :: 0 <= j <= Level ==> Recorded(update[j], q.Score, j)
      modifies set n | n in nodes :: n.forward
      ensures MembersAgree() && Right(at - {q.Score}, nodes)
      ensures forall j :: 0 <= j < q.forward.Length ==> q.forward[j] == old(q.forward[j])
    {
      hide NextIn, MembersAgree;
      NodesShaped(at, Repr);
      LevelReaches(q, update);
      UnlinkFrom(q, update, Level, nodes);
      forall n, j | n in nodes && 0 <= j < n.forward.Length
        ensures NextIn(at - {q.Score}, n, j, n.forward[j])
      {
        if j <= Level {
          var prev := update[j];
          var next := if j <= q.level then old(q.forward[j]) else null;
          SlotAfterDelete(n, j, old(n.forward[j]), q, prev, old(prev.forward[j]), next);
        } else {
          SlotAbove(n, j, old(n.forward[j]), q);
        }
      }
    }

    /** A recorded predecessor that points to `q` does so on a level that `q` reaches. */
    lemma LevelReaches(q: Node<T>, update: array<Node?<T>>)
      requires Valid() && Stored(q) && update.Length == MAX_NUMBER_OF_LEVELS
      requires forall j :: 0 <= j <= Level ==> Recorded(update[j], q.Score, j)
      ensures forall j :: 0 <= j <= Level ==>
        Recorded(update[j], q.Score, j) && (update[j].forward[j] == q ==> j <= q.level)
    {
      forall j | 0 <= j <= Level
        ensures Recorded(update[j], q.Score, j) && (update[j].forward[j] == q ==> j <= q.level)
      {
        LinkedAt(update[j], j);
      }
    }

    lemma SlotAbove(n: Node<T>, j: nat, was: Node?<T>, q: Node<T>)
      requires Shape(at, Repr) && Tallest(at, Level) && Stored(q) && j > Level && NextIn(at, n, j, was)
      ensures was == null && NextIn(at - {q.Score}, n, j, was)
    {
    }

    /** The new `Level` after a removal: down from the old one to the first linked level. */
    method Recalc()
      requires Shape(at, Repr) && Right(at, Nodes(at)) && MembersAgree()
      requires 0 <= Level <= MAX_LEVEL && forall k :: k in at ==> at[k].level <= Level
      modifies this`Level
      ensures Tallest(at, Level) && Right(at, Nodes(at)) && MembersAgree()
    {
      hide Right, MembersAgree;
      var j := Level;
      while Head.forward[j] == null && j > 0
        invariant 0 <= j <= Level == old(Level)
        invariant forall k :: k in at ==> at[k].level <= j
      {
        LinkedAt(Head, j);
        j := j - 1;
      }
      LinkedAt(Head, j);
      if j > 0 {
        assert at[Head.forward[j].Score].level == j;
      }
      Level := j;
    }

    lemma ShapeWithout(m: map<int, Node<T>>, repr: set<object>, k: int)
      requires Shape(m, repr) && k in m
      ensures Shape(m - {k}, repr) && Nodes(m - {k}) <= Nodes(m) && |m - {k}| == |m| - 1
    {
      assert m == (m - {k})[k := m[k]];
    }

    lemma RightWithin(m: map<int, Node<T>>, nodes: set<Node<T>>, fewer: set<Node<T>>)
      requires Right(m, nodes) && fewer <= nodes
      ensures Right(m, fewer)
    {
    }

    /** The list gives up the node `q`, which no slot counts in any more. */
    method Forget(q: Node<T>)
      requires Shape(at, Repr) && MembersAgree() && Length == |at| && Stored(q)
      requires Right(at - {q.Score}, Nodes(at))
      modifies this`at, this`Contents, this`Length
      ensures Shape(at, Repr) && Right(at, Nodes(at)) && MembersAgree() && Length == |at|
      ensures at == old(at) - {q.Score} && Contents == old(Contents) - {q.Score}
    {
      hide Right, Shape, Nodes;
      ShapeWithout(at, Repr, q.Score);
      RightWithin(at - {q.Score}, Nodes(at), Nodes(at - {q.Score}));
      at, Contents := at - {q.Score}, Contents - {q.Score};
      Length := Length - 1;
    }

    /** Taking the stored node `q` out of the list, from behind the predecessors in `update`. */
    method Remove(q: Node<T>, update: array<Node?<T>>)
      requires Valid() && Stored(q)
      requires update !in Repr && update.Length == MAX_NUMBER_OF_LEVELS
      requires forall j :: 0 <= j <= Level ==> Recorded(update[j], q.Score, j)
      modifies this`at, this`Contents, this`Length, set n | n in Nodes(at) :: n.forward
      ensures Shape(at, Repr) && Right(at, Nodes(at)) && MembersAgree() && Length == |at|
      ensures at == old(at) - {q.Score} && Contents == old(Contents) - {q.Score}
      ensures forall j :: 0 <= j < q.forward.Length ==> q.forward[j] == old(q.forward[j])
    {
      hide Right, Recorded, Tallest, Shape, MembersAgree;
      Unlink(q, update, Nodes(at));
      Forget(q);
    }

    lemma KeysBounded()
      requires Valid()
      ensures 0 <= Level <= 15 && forall k :: k in at ==> at[k].level <= Level
    {
    }

    /** Remove, and the level computed anew; `q` still points to its successor. */
    method TakeOut(q: Node<T>, update: array<Node?<T>>)
      requires Valid() && Stored(q)
      requires update !in Repr && update.Length == MAX_NUMBER_OF_LEVELS
      requires forall j :: 0 <= j <= Level ==> Recorded(update[j], q.Score, j)
      modifies this`Level, this`at, this`Contents, this`Length, set n | n in Nodes(at) :: n.forward
      ensures Valid() && at == old(at) - {q.Score} && Contents == old(Contents) - {q.Score}
      ensures 0 < q.forward.Length && FirstFrom(q.forward[0], q.Score + 1)
    {
      hide Right, Recorded, MembersAgree, Shape;
      NextIsSuccessor(q);
      KeysBounded();
      Remove(q, update);
      Recalc();
    }

    /** Delete the node with this score.  The node that is returned still points to its successor,
        so a caller that walks the list can go on from it. */
    method Delete(score: int) returns (r: Node?<T>)
      requires Valid()
      modifies Repr
      ensures Valid() && Repr == old(Repr)
      ensures r == null <==> score !in old(Contents)
      ensures r == null ==> unchanged(old(Repr))
      ensures at == old(at) - {score} && Contents == old(Contents) - {score}
      ensures r != null ==> r == old(at)[score] && r.Member == old(r.Member)
      ensures r != null ==> 0 < r.forward.Length && FirstFrom(r.forward[0], score + 1)
    {
      hide Right, Recorded, Tallest;
      var q, update := Descend(score);
      if q == null || q.Score != score {
        return null;
      }
      NodesShaped(at, Repr);
      TakeOut(q, update);
      return q;
    }

    /** The nodes on level `i` after `n`, in the order of the pointers. */
    ghost function Chain(n: Node<T>, i: nat): (s: seq<Node<T>>)
      requires Valid() && (n == Head || Stored(n)) && i < n.forward.Length
      reads this, Repr
      decreases Ahead(n)
    {
      LinkedAt(n, i);
      if n.forward[i] == null then []
      else
        assert n.forward[i].Score in Ahead(n) && n.forward[i].Score !in Ahead(n.forward[i]);
        [n.forward[i]] + Chain(n.forward[i], i)
    }

    static ghost function Tall(s: seq<Node<T>>, i: nat): seq<Node<T>> {
      if s == [] then [] else (if s[0].level >= i then [s[0]] else []) + Tall(s[1..], i)
    }

    /** `s` is strictly ascending and lists exactly the stored nodes after `n` of height at least `i`. */
    ghost predicate ListsLevel(s: seq<Node<T>>, n: Node<T>, i: nat)
      reads this`at
    {
      && (forall a, b :: 0 <= a < b < |s| ==> s[a].Score < s[b].Score)
      && (forall a :: 0 <= a < |s| ==> Stored(s[a]) && s[a].level >= i && After(n, s[a].Score))
      && (forall k :: k in at && After(n, k) && at[k].level >= i ==> at[k] in s)
    }

    /** One more node in front of a listed level. */
    lemma ListsOneMore(n: Node<T>, q: Node<T>, more: seq<Node<T>>, i: nat)
      requires ListsLevel(more, q, i) && q != Head && NextIn(at, n, i, q)
      ensures ListsLevel([q] + more, n, i)
    {
      var s := [q] + more;
      assert forall a :: 0 < a < |s| ==> s[a] == more[a - 1];
      forall k | k in at && After(n, k) && at[k].level >= i
        ensures at[k] in s
      {
        assert k > q.Score ==> at[k] in more;
        assert k == q.Score ==> at[k] == s[0];
      }
    }

    /** Each chain is exact; being finite, it ends in null and has no cycle. */
    lemma {:induction false} ChainIsExact(n: Node<T>, i: nat)
      requires Valid() && (n == Head || Stored(n)) && i < n.forward.Length
      ensures ListsLevel(Chain(n, i), n, i)
      decreases Ahead(n)
    {
      hide Right, MembersAgree, Tallest;
      LinkedAt(n, i);
      var q := n.forward[i];
      if q == null {
      } else {
        assert q.Score in Ahead(n) && q.Score !in Ahead(q);
        ChainIsExact(q, i);
        hide ListsLevel;
        ListsOneMore(n, q, Chain(q, i), i);
      }
    }

    /** Seen from any node `p` between `n` and `n`'s successor on level `i + 1`: the chain of level
        `i + 1` is what remains of level `i` when the lower nodes are dropped. */
    lemma {:induction false} ChainNests(n: Node<T>, p: Node<T>, i: nat)
      requires Valid() && (n == Head || Stored(n)) && i + 1 < n.forward.Length
      requires p == n || (Stored(p) && i < p.forward.Length && After(n, p.Score))
      requires p != n && n.forward[i + 1] != null ==> p.Score < n.forward[i + 1].Score
      ensures Chain(n, i + 1) == Tall(Chain(p, i), i + 1)
      decreases Ahead(p)
    {
      LinkedAt(n, i + 1);
      LinkedAt(p, i);
      var r := p.forward[i];
      if r == null {
      } else {
        assert r.Score in Ahead(p) && r.Score !in Ahead(r);
        if r.level >= i + 1 {
          assert r == n.forward[i + 1];
          ChainNests(r, r, i);
        } else {
          ChainNests(n, r, i);
        }
      }
    }

    /** The bottom slot of `n` tells the first of the keys ahead, and null says that there is none. */
    lemma FirstAhead(n: Node<T>)
      requires Valid() && (n == Head || Stored(n))
      ensures 0 < n.forward.Length && (n.forward[0] == null <==> Ahead(n) == {})
      ensures var q := n.forward[0]; q != null ==>
        && Stored(q) && q.Score in Ahead(n) && Ahead(q) == Ahead(n) - {q.Score}
        && forall k :: k in Ahead(n) ==> q.Score <= k
    {
      LinkedAt(n, 0);
      var q := n.forward[0];
      if q == null {
        assert forall k :: k in at ==> !After(n, k);
        assert Ahead(n) == {};
      } else {
        assert q.Score in Ahead(n) && Ahead(q) == Ahead(n) - {q.Score};
      }
    }

    lemma {:induction false} ChainCounts(n: Node<T>)
      requires Valid() && (n == Head || Stored(n))
      ensures |Chain(n, 0)| == |Ahead(n)|
      decreases Ahead(n)
    {
      FirstAhead(n);
      if n.forward[0] == null {
      } else {
        ChainCounts(n.forward[0]);
      }
    }

    static lemma SomeKey(m: map<int, Node<T>>) returns (k: int)
      requires m.Keys != {}
      ensures k in m
    {
      assert (forall k :: k !in m.Keys) ==> m.Keys == {};
      k :| k in m.Keys;
    }

    lemma NothingAboveLevel(i: nat)
      requires Valid() && i < MAX_NUMBER_OF_LEVELS
      ensures Chain(Head, i) == [] <==> i > Level || at.Keys == {}
    {
      LinkedAt(Head, i);
      if at.Keys != {} && i <= Level {
        var k := SomeKey(at);
        if Level > 0 {
          k :| k in at && at[k].level == Level;
        }
        assert After(Head, k) && at[k].level >= i;
      }
    }

    /** The linked structure of every valid list, read off the pointers: level `i` is a strictly
        ascending, null-terminated chain of exactly the nodes of height at least `i`; level `i + 1`
        is level `i` without its lower nodes; nothing is linked above `Level`; `Length` counts the
        bottom chain. */
    lemma LevelsAreExact(i: nat)
      requires Valid() && i < MAX_NUMBER_OF_LEVELS
      ensures ListsLevel(Chain(Head, i), Head, i)
      ensures Chain(Head, i + 1) == Tall(Chain(Head, i), i + 1)
      ensures Chain(Head, i) == [] <==> i > Level || at.Keys == {}
      ensures Length == |Chain(Head, 0)|
    {
      hide Right, MembersAgree, Tallest, ListsLevel, Tall;
      ChainIsExact(Head, i);
      ChainNests(Head, Head, i);
      NothingAboveLevel(i);
      ChainCounts(Head);
      assert Ahead(Head) == at.Keys;
    }

    /** Next, called on a stored node, gives the first stored node after it. */
    lemma NextIsSuccessor(n: Node<T>)
      requires Valid() && Stored(n)
      ensures 0 < n.forward.Length && FirstFrom(n.forward[0], n.Score + 1)
    {
      LinkedAt(n, 0);
    }

    /** Next, called on the head, gives the first of all stored nodes. */
    lemma HeadNextIsFirst()
      requires Valid()
      ensures 0 < Head.forward.Length
      ensures Head.forward[0] == null <==> Contents.Keys == {}
      ensures Head.forward[0] != null ==>
        Stored(Head.forward[0]) && forall k :: k in Contents ==> Head.forward[0].Score <= k
    {
      LinkedAt(Head, 0);
      assert (forall k :: k !in Contents) ==> Contents.Keys == {};
    }
  }
}

/** Any run of the list's operations, against the sorted finite map. */
module SkipListRuns {
  import opened SkipLists

  datatype Op<T> = InsertOp(score: int, member: T) | UpdateOp(score: int, member: T) | DeleteOp(score: int)

  ghost function Apply<T>(m: map<int, T>, op: Op<T>): map<int, T> {
    match op
    case InsertOp(score, member) => if score in m then m else m[score := member]
    case UpdateOp(score, member) => m[score := member]
    case DeleteOp(score) => m - {score}
  }

  ghost function ApplyAll<T>(m: map<int, T>, ops: seq<Op<T>>): map<int, T>
    decreases |ops|
  {
    if ops == [] then m else ApplyAll(Apply(m, ops[0]), ops[1..])
  }

  /** One operation changes the contents as the map would, whatever height is drawn. */
  method Perform<T(0)>(sl: SkipList<T>, op: Op<T>, drawn: nat)
    requires sl.Valid() && drawn <= MAX_LEVEL
    modifies sl.Repr
    ensures sl.Valid() && fresh(sl.Repr - old(sl.Repr))
    ensures sl.Contents == Apply(old(sl.Contents), op)
  {
    match op {
      case InsertOp(score, member) =>
        var err := sl.Insert(score, member, drawn);
      case UpdateOp(score, member) =>
        sl.Update(score, member, drawn);
      case DeleteOp(score) =>
        var n := sl.Delete(score);
    }
  }

  /** After any run, with any heights drawn, the linked structure is valid and holds what the map
      would hold. */
  method PerformAll<T(0)>(sl: SkipList<T>, ops: seq<Op<T>>, heights: seq<nat>)
    requires sl.Valid() && |heights| == |ops| && forall i :: 0 <= i < |heights| ==> heights[i] <= MAX_LEVEL
    modifies sl.Repr
    ensures sl.Valid() && fresh(sl.Repr - old(sl.Repr))
    ensures sl.Contents == ApplyAll(old(sl.Contents), ops)
    decreases |ops|
  {
    if ops == [] {
    } else {
      Perform(sl, ops[0], heights[0]);
      PerformAll(sl, ops[1..], heights[1..]);
    }
  }

  /** What a reader sees who follows a chain of nodes. */
  ghost function Entries<T(0)>(s: seq<Node<T>>): seq<(int, T)>
    reads s
  {
    if s == [] then [] else [(s[0].Score, s[0].Member)] + Entries(s[1..])
  }

  /** From nodes with the same keys ahead, two lists of the same contents read the same. */
  lemma {:induction false} SameAhead<T(0)>(a: SkipList<T>, m: Node<T>, b: SkipList<T>, n: Node<T>)
    requires a.Valid() && (m == a.Head || a.Stored(m)) && b.Valid() && (n == b.Head || b.Stored(n))
    requires a.Contents == b.Contents && a.Ahead(m) == b.Ahead(n)
    ensures Entries(a.Chain(m, 0)) == Entries(b.Chain(n, 0))
    decreases a.Ahead(m)
  {
    hide SkipList.Right, SkipList.Tallest, SkipList.NextIn, SkipList.Nodes;
    a.FirstAhead(m);
    b.FirstAhead(n);
    var p, q := m.forward[0], n.forward[0];
    if p == null {
    } else {
      assert p.Score == q.Score;
      SameAhead(a, p, b, q);
    }
  }

  /** Two lists with equal contents, whatever the heights of their nodes, read the same from the head
      on: the same keys and members in the same order. */
  lemma HeightsDoNotMatter<T(0)>(a: SkipList<T>, b: SkipList<T>)
    requires a.Valid() && b.Valid() && a.Contents == b.Contents
    ensures Entries(a.Chain(a.Head, 0)) == Entries(b.Chain(b.Head, 0))
    ensures a.Length == b.Length
  {
    assert a.Ahead(a.Head) == a.Contents.Keys && b.Ahead(b.Head) == b.Contents.Keys;
    SameAhead(a, a.Head, b, b.Head);
  }
}
