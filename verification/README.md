# gopush2: a verified model

gopush2 is a push server.  Publishers push messages to keys; subscribers connect over TCP or
websocket, first receive what is stored for their key beyond the last message id they have seen, and
then everything that is pushed while they stay connected.  This project models its stateful core and
proves what that core keeps.

| file | what it models | form |
|---|---|---|
| `SkipList.dfy` | the skip list: linked nodes with `forward` arrays changed in place | class over a heap of nodes |
| `InnerChannel.dfy`, `InnerSpec.dfy`, `InnerRuns.dfy` | the in-memory channel: a bounded store of messages on the skip list and a set of connections; then all runs of its critical sections | class, its specification on values, a state machine |
| `RedisChannel.dfy`, `RedisRuns.dfy` | the Redis-backed channel: a cursor for each connection and a shared online counter; then all runs over many sessions and channels | class, its specification on values, a state machine |
| `Murmur3A.dfy`, `Murmur3C.dfy`, `Murmur3F.dfy`, `MurmurVectors.dfy` | the MurmurHash3 family, on bit-vectors, with known answers for a key that passes through every step | loops proved against a fold over blocks |
| `Ketama.dfy` | the consistent-hash ring | class, in-place sort, binary search |
| `CommandSpec.dfy`, `Command.dfy`, `Decimal.dfy` | the parser of client commands, its grammar and its printer | loops over a reader object, proved against the grammar |
| `Message.dfy` | a message, its frame in TCP mode and the client that reads it | buffer object |
| `ChannelTable.dfy` | the bucketed table of channels with lazy expiry | class over an array of maps |
| `FiniteSets.dfy`, `Sequences.dfy` | least elements and sizes of finite sets, concatenation | lemmas |

Each class method is proved against a function on values, and what the system promises is then proved
about that function over every run.  `dafny verify dfyconfig.toml` checks the whole project.

## What the proofs show about the code

- **A rejected duplicate can cost a stored message.**  A full inner channel drops its oldest message
  before it tries to insert (inner_channel.go:83-96).  With `MaxMessage` 2, pushing the ids 1, 2 and 2
  leaves only 2 stored.  So "the latest `MaxMessage` messages are kept" is false in general, even when
  accepted ids ascend.  `InnerRuns.RetainsTheLatest` gives the exact condition for any interleaving
  with subscribers, and `InnerRuns.StoreIsTheLast` the exact condition for runs of pushes only.
- **"Skiplist head nil" (inner_channel.go:86-89) is reachable**, although a comment there says that it
  never happens: exactly when a live message is pushed to a channel configured with `MaxMessage` below 1.
- **In TCP mode the inner channel never writes anything.**  It calls `m.Bytes(nil)`, which fails in that
  mode (message.go:55-58), after the message has been stored.  Delivery theorems are stated for
  websocket mode, and `InnerRuns.TcpWritesNothing` covers the other.
- **A session can miss a push between its replay and its registration.**  `SendMsg` and `AddConn` are two
  critical sections of the inner channel; `InnerRuns.MissedInTheGap` says exactly which pushes fall
  between them, and `InnerRuns.GapLosesAPush` is a run that loses one.  The Redis-backed channel
  registers and replays in one section and has no such gap (`RedisRuns.NoGap`).
- **A backlog entry that does not decode makes the Redis-backed channel panic**, because the branch
  that would drop it uses the nil message (redis_channel.go:175-178); `RedisSpec.PanicsExactly` says
  when.
- **The first frame through a fresh write buffer is readable only when `WriteBufByte` is 0**, because
  a new buffer starts with that many zero bytes (redis_channel.go:89).
- **The parser indexes a slice out of range** (pubsub_tcp.go:354) exactly on input that declares some
  arguments, gives fewer well-formed ones, and then declares the length -1 before an empty line:
  `CommandSpec.PanicsExactly`.  The lines `*1` and `$-1` followed by a bare newline are such an input
  (`CommandSpec.MinusOnePanics`).
- **A client can make the allocation of the argument slice fail** (pubsub_tcp.go:296) by declaring a
  huge count, whatever follows: `CommandSpec.AllocationFailsExactly`.
- **Doubling the heartbeat wraps** (pubsub_tcp.go:181), so that some negative heartbeats are accepted;
  `Commands.HeartbeatAccepted` gives the exact set.
- The interface comment at channel.go:33-35 says that AddConn enforces the subscriber limit.  In the
  Redis-backed channel `SendMsg` enforces it and AddConn does not look at it (redis_channel.go:153,
  redis_channel.go:221-246).  The model follows the code.  A log text at channel.go:112 numbers the
  channel types 0 and 1; the constants are 1 and 2.

## How the surroundings enter

- The height that `randomLevel` returns is a parameter `drawn` in 0 to `MaxLevel`, so every result
  holds for all heights.
- The clock is a parameter: `now`, or `tick(id)` for the time at which a walk visits message `id`.
  Retention, delivery and conservation hold for any clock; only the results about lazy expiry of
  channels ask that it does not go back.
- Whether a write to a connection succeeds is a parameter: `accepts(c)` over connections, `accept(id)`
  over the messages of one replay.  Go's map iteration order is left open by a choice from a set.
- A connection is an identity with a ghost log of what was written to it.  A message has an identity
  `ref`, as the source handles messages by pointer.
- Redis is a counter that changes or fails (`up`, `rc`) and a reply to the range query: no
  connection, an error, or a backlog whose entries decode or not.  Runs of the Redis-backed server
  assume that the backlog ascends from above the cursor and decodes.
- `room` is the greatest number of arguments for which the parser can allocate a slice.
- Message ids, deadlines and scores are only compared, so unbounded integers stand for int64.  Hashes
  wrap, and are bit-vectors.  Numbers in the wire format carry the range of a 64-bit int.
- Bytes of the wire format are written as characters.
- The ring and the table take an arbitrary hash function.
- Each critical section is one step; sections that release the lock in between are separate steps
  (removal from a Redis channel is two).
- The identical descents at the head of Insert, Update and Delete are one method, `Descend`, and the
  linking of a new node is one method, `Splice`.  `Score`, `level` and the array `forward` of a node
  are never reassigned once it is linked and are constants of the node.
- `sort.Sort` is an insertion sort in place.

## Model

| member | source | states |
|---|---|---|
| SkipLists.Node.constructor | skiplist/skiplist.go:148-151 | a new node carries its score and member, is of the drawn height, and points nowhere |
| SkipLists.Node.Blank | skiplist/skiplist.go:67-72 | the head has one slot more than any level in use, all nil |
| SkipLists.Node.Next | skiplist/skiplist.go:249-255 | the bottom neighbour, on stored and on deleted nodes alike |
| SkipLists.SkipList.constructor | skiplist/skiplist.go:63-75 | an empty list is a valid linked structure for the empty map, with a head of level 16 |
| SkipLists.SkipList.Walk | skiplist/skiplist.go:126-132 | the inner loop ends at the last node on its level before the score, for every valid starting node |
| SkipLists.SkipList.Record | skiplist/skiplist.go:131-131 | recording a predecessor disturbs nothing recorded for other levels |
| SkipLists.SkipList.Descend | skiplist/skiplist.go:120-132 | on every level in use the recorded node is the last before the score, and the candidate is the first stored node at or above it |
| SkipLists.SkipList.Equal | skiplist/skiplist.go:78-96 | nil exactly for absent keys, else the node stored under the key |
| SkipLists.SkipList.Greate | skiplist/skiplist.go:99-117 | the stored node with the least key above the score, nil exactly when there is none |
| SkipLists.SkipList.ChooseLevel | skiplist/skiplist.go:140-146 | the list grows by at most one level, and every level of the new node has its predecessor recorded |
| SkipLists.SkipList.LinkIn | skiplist/skiplist.go:153-158 | exactly the slots of the recorded predecessors are redirected to the new node, which takes over what they held |
| SkipLists.SkipList.NextAfterInsert | skiplist/skiplist.go:153-158 | adding a node keeps every slot right except the one of its predecessor on each of its levels, where it goes in between |
| SkipLists.SkipList.SlotAfterInsert | skiplist/skiplist.go:153-158 | for any slot of any node, what it holds after the splice is right for the map with the new key |
| SkipLists.SkipList.Relink | skiplist/skiplist.go:153-158 | after the splice every slot of every node points to the nearest later node tall enough |
| SkipLists.SkipList.TallestWith | skiplist/skiplist.go:141-145 | `Level` is the tallest stored height also once a node no taller than it is stored |
| SkipLists.SkipList.Adopt | skiplist/skiplist.go:149-160 | a node that every slot counts in turns the list into a valid list of the map with its key |
| SkipLists.SkipList.Store | skiplist/skiplist.go:148-161 | splicing and counting a node turns a valid list of a map into a valid list of the map with the new key |
| SkipLists.SkipList.Splice | skiplist/skiplist.go:140-161 | whatever height is drawn, the valid list gains exactly the new key; nodes stored before keep their identity |
| SkipLists.SkipList.Insert | skiplist/skiplist.go:120-162 | fails exactly on a stored key, then changing no node at all; else the map gains the key; the structure stays valid for any height |
| SkipLists.SkipList.Overwrite | skiplist/skiplist.go:180-183 | only the member of that key changes |
| SkipLists.SkipList.Update | skiplist/skiplist.go:165-207 | the map takes the new member under the key whether it was stored or not; the structure stays valid |
| SkipLists.SkipList.UnlinkFrom | skiplist/skiplist.go:227-232 | exactly the recorded slots that held the node now hold its successor on that level |
| SkipLists.SkipList.NextAfterDelete | skiplist/skiplist.go:227-232 | on each level only the predecessor pointed to the removed node, and its successor belongs in that slot |
| SkipLists.SkipList.SlotAfterDelete | skiplist/skiplist.go:227-232 | for any slot of any node, what it holds after the removal is right for the map without the key |
| SkipLists.SkipList.LevelReaches | skiplist/skiplist.go:227-232 | a recorded predecessor points to the removed node only on levels that node reaches, so the copied slot exists |
| SkipLists.SkipList.Unlink | skiplist/skiplist.go:227-232 | every slot is right for the map without the node, and the slots of the removed node are as they were |
| SkipLists.SkipList.Recalc | skiplist/skiplist.go:234-240 | the level found from the head's slots is the height of the tallest stored node, 0 when there is none |
| SkipLists.SkipList.Forget | skiplist/skiplist.go:241-241 | a node that no slot counts in leaves the map, and `Length` still counts the stored nodes |
| SkipLists.SkipList.Remove | skiplist/skiplist.go:226-241 | the key leaves the map, and `Length` still counts the stored nodes |
| SkipLists.SkipList.TakeOut | skiplist/skiplist.go:226-242 | the list is valid again, and the removed node points to a live successor |
| SkipLists.SkipList.Delete | skiplist/skiplist.go:210-246 | nil exactly for an absent key, changing nothing; else the key leaves the map and the returned node still leads to the first stored node above it |
| SkipLists.SkipList.ChainIsExact | skiplist/skiplist.go:120-246 | following pointers on a level from any node lists, strictly ascending, exactly the later nodes tall enough, and ends in nil |
| SkipLists.SkipList.ChainNests | skiplist/skiplist.go:120-246 | the chain of level i+1 is the subsequence of level i made of nodes of height above i |
| SkipLists.SkipList.FirstAhead | skiplist/skiplist.go:249-255 | the bottom slot tells the least key ahead, nil exactly when there is none |
| SkipLists.SkipList.ChainCounts | skiplist/skiplist.go:160-241 | the bottom chain from any node has as many nodes as there are later keys |
| SkipLists.SkipList.NothingAboveLevel | skiplist/skiplist.go:141-241 | a level is empty exactly when it is above `Level` or the list is empty |
| SkipLists.SkipList.LevelsAreExact | skiplist/skiplist.go:120-246 | all of the above for every level of every valid list, with `Length` the length of the bottom chain |
| SkipLists.SkipList.NextIsSuccessor | skiplist/skiplist.go:249-255 | Next from a stored node reaches the stored node with the next greater key |
| SkipLists.SkipList.HeadNextIsFirst | skiplist/skiplist.go:249-255 | Next from the head reaches the least key, nil exactly for the empty list |
| SkipListRuns.Perform | skiplist/skiplist.go:120-246 | each operation refines the one on a finite map, whatever height is drawn |
| SkipListRuns.PerformAll | skiplist/skiplist.go:120-246 | any run of operations with any heights leaves a valid list whose contents depend on the operations only |
| SkipListRuns.SameAhead | skiplist/skiplist.go:249-255 | from nodes with the same keys ahead, two lists of equal contents and any heights read the same |
| SkipListRuns.HeightsDoNotMatter | skiplist/skiplist.go:32-56 | two linked lists with equal contents, whatever the heights of their nodes, read the same keys and members in the same order and have equal `Length` |
| InnerChannels.InnerChannel.constructor | inner_channel.go:26-36 | a new channel stores nothing and has no connections |
| InnerChannels.InnerChannel.Reached | inner_channel.go:44-45 | the node a walk stands at carries the least message id it has yet to visit |
| InnerChannels.InnerChannel.DropExpired | inner_channel.go:52-54 | deleting under the walk removes one id, and the walk goes on at the next stored one |
| InnerChannels.InnerChannel.Walk | inner_channel.go:44-69 | the pointer walk that deletes as it goes leaves the store, the writes and the error of the replay over the sorted map |
| InnerChannels.InnerChannel.SendMsg | inner_channel.go:39-70 | as Walk; only messages above `mid` past their deadline leave the store, and after a good end none above `mid` is past it; the writes are added to this connection's log only, and registrations do not change |
| InnerChannels.InnerChannel.Trim | inner_channel.go:82-94 | a full store loses exactly its least id; it fails exactly when the store is full and empty at once |
| InnerChannels.InnerChannel.Keep | inner_channel.go:82-99 | trimming and inserting on the skip list change the sorted map as specified, with the same error |
| InnerChannels.InnerChannel.Broadcast | inner_channel.go:107-115 | in whatever order connections are taken, each registered one gets exactly one attempt, a failed one not stopping the rest |
| InnerChannels.InnerChannel.PushMsg | inner_channel.go:73-118 | MsgExpiredErr if and only if the clock is past the deadline, and then nothing changes; the whole new state and the error in the other cases: trimmed but not stored for a duplicate, stored but not sent in TCP mode, else stored and sent to all |
| InnerChannels.InnerChannel.AddConn | inner_channel.go:121-133 | MaxConnErr if and only if as many connections as the limit allows are registered, changing nothing; otherwise this connection is added and no other; store and logs unchanged |
| InnerChannels.InnerChannel.RemoveConn | inner_channel.go:136-143 | exactly this connection is no longer registered |
| InnerSpec.VisitStep | inner_channel.go:44-67 | a walk reaches a later message exactly when its first one lets it pass and the rest of the walk reaches it |
| InnerSpec.ReplayStep | inner_channel.go:44-67 | how one more node changes the outcome of a walk under way |
| InnerSpec.RemovesFirst | inner_channel.go:44-55 | the first node of a walk is removed exactly if it is expired, and the rest is left to the walk that goes on |
| InnerSpec.PrependWrite | inner_channel.go:57-65 | a write to the first live node comes before, and adds to, exactly what the rest of the walk writes |
| InnerSpec.ReplayRemoves | inner_channel.go:39-70 | a replay removes exactly the expired messages it visits and keeps all others; it succeeds exactly when every message above `mid` is expired or written |
| InnerSpec.ReplayWrites | inner_channel.go:39-70 | the writes are in strictly ascending id order and are exactly the visited live messages above `mid`; only the last can have failed |
| InnerSpec.PushSpelledOut | inner_channel.go:73-118 | every outcome of a push in terms of clock, deadline, number of stored messages, least id and duplicate |
| InnerSpec.PushReaches | inner_channel.go:107-115 | a successful push makes one attempt on each registered connection and none on any other; a failed one makes none |
| InnerSpec.ReplaySpelledOut | inner_channel.go:39-70 | a replay writes, ascending, only stored messages above `mid` not past their deadline when visited, removes only messages above `mid` past theirs, and does both completely when it ends well |
| InnerSpec.ReplayFailsOnWrite | inner_channel.go:57-65 | in websocket mode a replay fails for no reason but a write |
| InnerSpec.TcpReplayWritesNothing | inner_channel.go:57-61 | in TCP mode a replay writes nothing |
| InnerRuns.StoredWasPushed | inner_channel.go:96-99 | in every reachable state each stored message was pushed and accepted, and is stored under its own id |
| InnerRuns.Bounded | inner_channel.go:82-99 | with room for a message, no reachable state exceeds `MaxMessage` and no push panics |
| InnerRuns.PanicsExactly | inner_channel.go:83-90 | in any run a step panics if and only if it is a live push to a channel with `MaxMessage` below 1 |
| InnerRuns.SubscribersBounded | inner_channel.go:121-133 | no reachable state has more connections than the limit; a limit of 0 or less admits none |
| InnerRuns.JoinsExactly | inner_channel.go:121-133 | in every run an AddConn fails if and only if that many connections are registered then as the limit allows, and otherwise registers its connection |
| InnerRuns.TcpWritesNothing | inner_channel.go:57-61 | in TCP mode no run writes anything to any connection |
| InnerRuns.LeavesOnlyBy | inner_channel.go:52-94 | a message leaves the store only by being the least at a live push to a full store, or by being visited expired |
| InnerRuns.Departure | inner_channel.go:52-99 | an accepted message that is no longer stored was trimmed or found expired by a later step |
| InnerRuns.AfterTrim | inner_channel.go:82-99 | a message trimmed when some greater accepted id was not stored has `MaxMessage` greater accepted ids |
| InnerRuns.NeverBack | inner_channel.go:82-99 | when accepted ids ascend, an id that has left the store never returns |
| InnerRuns.DuplicateLoses | inner_channel.go:83-99 | a duplicate at a full store, when no greater id has expired away, loses a message too early |
| InnerRuns.RetainsTheLatest | inner_channel.go:52-99 | when accepted ids ascend: every lost message had expired or has `MaxMessage` greater accepted ids, if and only if a duplicate reaches a full store only after some greater id has expired away |
| InnerRuns.DuplicateLosesTheOldest | inner_channel.go:83-99 | a run with ascending accepted ids that loses a message with only one greater id accepted |
| InnerRuns.LastStep | inner_channel.go:73-99 | a push keeps the store equal to the last accepted messages if and only if it is no duplicate at a full store |
| InnerRuns.StoreIsTheLast | inner_channel.go:73-99 | with pushes only and ascending accepted ids, the store is always exactly the last min(`MaxMessage`, k) of k accepted messages, if and only if no duplicate reaches a full store |
| InnerRuns.RegisteredSince | inner_channel.go:121-143 | a registered connection has a successful AddConn with no RemoveConn since |
| InnerRuns.StaysRegistered | inner_channel.go:121-143 | after a successful AddConn it is registered until its RemoveConn |
| InnerRuns.SessionLog | pubsub_http.go:127-177 | for every interleaving, a session's log is its one replay followed by one attempt for each accepted push made while it was registered |
| InnerRuns.AtMostOnce | inner_channel.go:39-143 | no accepted push is written to a session twice |
| InnerRuns.AttemptedExactly | inner_channel.go:39-143 | which accepted pushes a session is sent: earlier ones its replay reached, later ones that found it registered, no others |
| InnerRuns.MissedOnlyIf | inner_channel.go:39-143 | a push above `mid` goes unattempted only if it was trimmed or expired before the replay visited it, the replay had failed on a write, or the session was not registered when it came |
| InnerRuns.MissedInTheGap | pubsub_http.go:127-137 | of the pushes after its replay, a session that has joined and not left missed exactly those before its AddConn |
| InnerRuns.GapLosesAPush | pubsub_http.go:127-137 | a run in which every session keeps to its order and no step fails loses a live, accepted push above `mid` |
| RedisChannels.Redis.HincrBy | redis_channel.go:233-243 | the counter of one key changes by the given amount, or the command fails and nothing changes |
| RedisChannels.RedisChannel.constructor | redis_channel.go:72-80 | a new channel has no connections |
| RedisChannels.RedisChannel.PushMsg | redis_channel.go:101-132 | in any order of connections, the cursors and logs that the specification gives for all of them at once |
| RedisChannels.RedisChannel.Write | redis_channel.go:174-214 | the loop over the backlog yields the cursor, the ids written, the ids Redis is asked to remove and the outcome, panic included, of the replay |
| RedisChannels.RedisChannel.SendMsg | redis_channel.go:135-218 | registration and replay in one step: exactly when there is no connection to Redis, no room, or no answer it fails with the error for that; the cursor is the last id written, on any error the connection is not registered, and removal is asked for the expired entries passed |
| RedisChannels.RedisChannel.AddConn | redis_channel.go:221-246 | the counter goes up and registration stays, or the counter stays and the connection is unregistered |
| RedisChannels.RedisChannel.RemoveConn | redis_channel.go:249-271 | always unregistered; the counter goes down exactly when Redis takes the command |
| RedisSpec.PushToOneMore | redis_channel.go:114-129 | trying one more connection changes its own cursor and log only, and only when it was behind and took the write |
| RedisSpec.ReplayIs | redis_channel.go:174-214 | a replay stops at the first entry that does not decode, or is not past its deadline and fails to be written; before it, exactly the live messages are written and exactly the expired ones dropped, in order |
| RedisSpec.IdsAre | redis_channel.go:187-196 | an id is in the list of live (or expired) ones if and only if an entry carries it whose deadline has not (or has) passed when it is visited |
| RedisSpec.RefusesExactly | redis_channel.go:143-172 | no connection to Redis, a full channel and a failed query give their errors exactly then, the first two changing nothing |
| RedisSpec.PanicsExactly | redis_channel.go:175-178 | SendMsg panics if and only if its loop reaches an entry that does not decode, leaving the connection registered with the cursor it came with |
| RedisSpec.ReplayAscends | redis_channel.go:174-217 | over an ascending backlog a replay writes ascending ids above `mid` and ends with the cursor on the last of them, or on `mid` |
| RedisRuns.PushWritesExactly | redis_channel.go:114-129 | a push reaches exactly the connections whose cursor is below it and that take the write; their cursors move to it, all others stay |
| RedisRuns.NeverWrittenAgain | redis_channel.go:116-119 | a connection whose cursor has reached an id is written no further push of that or an older id, however many come, in whatever order and with whatever outcomes |
| RedisRuns.SendMsgIs | redis_channel.go:152-217 | for a connection not yet registered, an unsuccessful SendMsg leaves all registrations as they were, and a successful one adds this connection alone |
| RedisRuns.ReplayRegisters | redis_channel.go:152-217 | a session is registered exactly when its replay succeeds, and then there was room |
| RedisRuns.ReplayLeavesOthers | redis_channel.go:135-218 | a replay does not touch the cursor, registration or log of any other connection |
| RedisRuns.ReplayDelivers | redis_channel.go:159-217 | after a replay the session's log ascends from above `mid` and its cursor is the last id in it, or `mid` |
| RedisRuns.StepKeeps | redis_channel.go:101-271 | every step of every session, and every creation and expiry of a channel, keeps the invariant that links sessions, cursors, logs and counters |
| RedisRuns.RunKeeps | redis_channel.go:101-271 | the invariant holds at every moment of every run |
| RedisRuns.DeliveryAscends | redis_channel.go:101-218 | in every run each session receives strictly ascending ids above its `mid`, and while registered its cursor is the last of them, or `mid` |
| RedisRuns.RegisteredExactly | redis_channel.go:152-257 | in every run a session is in its channel's map exactly from its successful replay until it leaves or fails to be counted in |
| RedisRuns.SessionLog | redis_channel.go:101-218 | in every run a session's log is exactly its replay followed by each push to its channel, while it is in the map, that is beyond all it has been sent and that it takes |
| RedisRuns.NoGap | redis_channel.go:152-216 | a push to its channel after its replay is in the log unless it is not beyond what was sent before or its write fails |
| RedisRuns.OnlineIsConserved | redis_channel.go:152-271 | in every run, with channels expiring and being made again, a key's counter is its sessions between AddConn and RemoveConn plus the removals Redis failed to take; each is in its channel's map until it leaves, and no map exceeds the limit |
| MurmurWords32.RotlUndo | hash/mmhash3.go:102-104 | rotating on by the rest of the word undoes each rotation of the source, and each inverse of one |
| MurmurWords32.FmixBijective | hash/mmhash3.go:110-118 | the finalizer has a two-sided inverse on all words |
| MurmurWords32.Fmix32 | hash/mmhash3.go:110-118 | the steps in place compute the finalizer, and the inverse recovers the input |
| MurmurWords32.ReadWordIsWord | hash/mmhash3.go:140-140 | reading a full word is the uniform zero-padded rule |
| MurmurWords32.Gather | hash/mmhash3.go:151-162 | the fallthrough cases compute the little-endian word of the key continued by zeros, for each number of bytes left |
| MurmurWords32.LengthWordIs | hash/mmhash3.go:170-170 | lengths below 2^32 go in unchanged |
| MurmurWords32.LengthWordWraps | hash/mmhash3.go:170-170 | longer ones wrap |
| Murmur3A.MixBijective | hash/mmhash3.go:142-144 | mixing a word is a bijection that fixes 0 |
| Murmur3A.RoundBijective | hash/mmhash3.go:142-148 | a round is a bijection of the state for each word |
| Murmur3A.RoundTellsWords | hash/mmhash3.go:142-148 | from one state different words lead to different states |
| Murmur3A.SeedBijection | hash/mmhash3.go:131-175 | for every key the hash is a bijection of the seed, with its inverse given |
| Murmur3A.NoCollision | hash/mmhash3.go:131-175 | keys of one length that differ only within one aligned 4-byte block, full or partial, never collide under any seed |
| Murmur3A.Murmur3A | hash/mmhash3.go:131-175 | for every key length, loop and switch compute one fold: full words, zero-padded rest, length, finalizer |
| Murmur3A.Digest.constructor | hash/mmhash3.go:15-18 | a digest starts from seed 0 |
| Murmur3A.Digest.Reset | hash/mmhash3.go:20-20 | back to seed 0 |
| Murmur3A.Digest.Write | hash/mmhash3.go:30-33 | a write goes on from the sum so far as seed |
| Murmur3A.DigestsStayApart | hash/mmhash3.go:30-33 | digests with different sums still differ after the same writes, however many |
| Murmur3A.TestVector | hash/mmhash3_test.go:10-16 | the fold gives the expected value for "test" |
| Murmur3C.MixBijective | hash/mmhash3.go:197-200 | mixing a lane's word is a bijection, for each of the four lanes |
| Murmur3C.TurnBijective | hash/mmhash3.go:197-204 | the step of one lane is invertible in its state and in the mixed word |
| Murmur3C.RoundInvertible | hash/mmhash3.go:191-232 | a round is invertible on the whole state although the fourth lane adds the new first one |
| Murmur3C.RoundTellsBlocks | hash/mmhash3.go:191-232 | from one state different 16-byte blocks lead to different states |
| Murmur3C.AbsorbTail | hash/mmhash3.go:234-301 | the 15 fallthrough cases equal one rule: each lane xors in its mixed zero-padded word |
| Murmur3C.AbsorbInjective | hash/mmhash3.go:234-301 | absorbing the rest loses nothing |
| Murmur3C.FinishInjective | hash/mmhash3.go:303-328 | the finalization of four lanes is injective for each length |
| Murmur3C.NoCollision | hash/mmhash3.go:178-329 | keys of one length that differ only within one 16-byte block, full or partial, have different four-word hashes under any seed |
| Murmur3C.SeedsTell | hash/mmhash3.go:178-329 | for every key different seeds give different four-word hashes |
| Murmur3C.Murmur3C | hash/mmhash3.go:178-329 | loop, switch and finalization compute one fold over zero-padded blocks for every key length |
| Murmur3C.TestVector | hash/mmhash3_test.go:18-26 | the fold gives the expected words for "test" |
| MurmurWords64.Fmix64Bijective | hash/mmhash3.go:120-128 | the 64-bit finalizer has a two-sided inverse |
| MurmurWords64.FmixStep64 | hash/mmhash3.go:120-128 | the steps in place compute the finalizer, and the inverse recovers the input |
| MurmurWords64.ReadWord64IsWord | hash/mmhash3.go:342-343 | reading a full word is the uniform zero-padded rule |
| MurmurWords64.Gather64 | hash/mmhash3.go:368-416 | the fallthrough cases compute the little-endian 8-byte word of the key continued by zeros |
| MurmurWords64.LengthWord64Is | hash/mmhash3.go:424-425 | lengths below 2^64 go in unchanged |
| MurmurWords64.LengthWord64Wraps | hash/mmhash3.go:424-425 | longer ones wrap |
| Murmur3F.TurnInvertible | hash/mmhash3.go:345-362 | the step of one lane is invertible in its state and in the mixed word |
| Murmur3F.RoundInvertible | hash/mmhash3.go:341-362 | a round is invertible on both lanes together |
| Murmur3F.RoundTellsBlocks | hash/mmhash3.go:341-362 | from one state different 16-byte blocks lead to different states |
| Murmur3F.AbsorbTail | hash/mmhash3.go:364-421 | the 15 fallthrough cases equal one rule for each lane |
| Murmur3F.FinishInjective | hash/mmhash3.go:423-436 | the finalization of two lanes is injective for each length |
| Murmur3F.NoCollision | hash/mmhash3.go:332-437 | keys of one length that differ only within one 16-byte block, full or partial, have different two-word hashes under any seed |
| Murmur3F.Murmur3F | hash/mmhash3.go:332-437 | loop, switch and finalization compute one fold over zero-padded blocks for every key length |
| Murmur3F.TestVector | hash/mmhash3_test.go:28-36 | the fold gives the expected words for "test" |
| MurmurVectors.KnownAnswerA | hash/mmhash3.go:131-175 | the 32-bit hash of a 47-byte text: eleven rounds, a rest of three bytes, length and finalizer |
| MurmurVectors.KnownAnswerC | hash/mmhash3.go:178-329 | the four words for the same text: two rounds of all lanes and a rest of 15 bytes that reaches all lanes of the tail |
| MurmurVectors.KnownAnswerF | hash/mmhash3.go:332-437 | the two words for the same text: two rounds of both lanes and a rest of 15 bytes that reaches both |
| Ketamas.RingNonEmpty | hash/ketama.go:38-53 | there is a point exactly when both counts are at least 1 |
| Ketamas.OwnerInRange | hash/ketama.go:40-50 | a point is on the ring exactly when it has an owner, which is one of the nodes and hashes to it |
| Ketamas.LookupInRange | hash/ketama.go:56-66 | every key maps to one of node1 to nodeN |
| Ketamas.GrowthIsMonotone | hash/ketama.go:38-66 | with a node added, for any hash function and any collisions, a key moves to the new node exactly when the first point clockwise is now one of its points, and otherwise stays |
| Ketamas.GrowthByMany | hash/ketama.go:38-66 | with any number of nodes added, a key stays or moves to an added node |
| Ketamas.SearchLeft | hash/ketama.go:69-82 | the position that separates smaller elements from the rest of a sorted slice |
| Ketamas.SortPoints | hash/ketama.go:52-52 | sorted in place, and a permutation |
| Ketamas.Ketama.constructor | hash/ketama.go:25-35 | a new ring is sorted, has exactly the points of its nodes, and names the last of the nodes that share a point |
| Ketamas.OneMorePoint | hash/ketama.go:42-48 | a further virtual node adds exactly its own point |
| Ketamas.Ketama.Place | hash/ketama.go:42-48 | one virtual node: its point is on the ring and from now on is its own, all others keep their owner |
| Ketamas.Ketama.PlaceNode | hash/ketama.go:41-49 | all virtual nodes of one node |
| Ketamas.Ketama.InitCircle | hash/ketama.go:38-53 | from nothing to the valid ring |
| Ketamas.Ketama.PointFound | hash/ketama.go:59-63 | the position in the sorted slice, wrapped at the end, is the first point clockwise of the circular scan |
| Ketamas.Ketama.Node | hash/ketama.go:56-66 | the result is "node" and a number from 1 to N one of whose labels, "node", number, "#" and index, hashes to the first point at or after the key's hash, going round to the smallest; no node with a greater number has that point |
| Ketamas.OwnerIsLast | hash/ketama.go:47-47 | of the nodes that share a point, none has a greater number than its owner |
| Commands.Reader.ReadBytes | pubsub_tcp.go:322-326 | input splits into what is returned and what is left; without an error the line ends in the delimiter and holds no other |
| Commands.ParseCmdSize | pubsub_tcp.go:320-342 | result, error and remaining input of the specified number line |
| Commands.ParseCmdData | pubsub_tcp.go:345-361 | result, error and remaining input of the specified data line |
| Commands.ParseCommand | pubsub_tcp.go:283-317 | success consumes exactly one well-formed command whose arguments are returned; every error and panic as specified |
| Commands.ReadSubscription | pubsub_tcp.go:152-190 | exactly which argument lists are accepted, and which key, message id, heartbeat and token they carry; the heartbeat is twice the third argument, or the default when there are only two, wrapped to 64 bits |
| Commands.HeartbeatAccepted | pubsub_tcp.go:181-185 | exactly which heartbeats survive the wrapping doubling, and as what |
| CommandSpec.SizeAccepted | pubsub_tcp.go:320-342 | every number line of the grammar is read, whatever follows it |
| CommandSpec.SizeSound | pubsub_tcp.go:320-342 | whatever is read is a number line of the grammar |
| CommandSpec.DataPanicsExactly | pubsub_tcp.go:345-357 | the index out of range is reached if and only if the declared length is -1 and the line is empty |
| CommandSpec.ArgsAccepted | pubsub_tcp.go:297-314 | every argument list of the grammar is read, leaving what follows |
| CommandSpec.ArgsSound | pubsub_tcp.go:297-314 | whatever is read is an argument list of the grammar with the declared count and lengths |
| CommandSpec.ParsesExactly | pubsub_tcp.go:283-317 | parsing gives these arguments and this remainder if and only if the input is a well-formed command for them followed by that remainder, and there is room for them |
| CommandSpec.ArgPanics | pubsub_tcp.go:345-354 | reading one argument reaches the index out of range exactly on a length line that reads -1 before an empty line |
| CommandSpec.ArgEnds | pubsub_tcp.go:322-350 | reading one argument runs out of input exactly when its length line, or the data line after it, does not end |
| CommandSpec.ArgsStop | pubsub_tcp.go:297-314 | an argument loop that fails has read well-formed arguments, fewer than declared, and failed at the one that follows |
| CommandSpec.ArgsStopped | pubsub_tcp.go:297-314 | behind such arguments the loop fails as the next argument does |
| CommandSpec.FailsInside | pubsub_tcp.go:283-317 | a whole command ends in such an error exactly where its arguments do, or at once when its first line does not end |
| CommandSpec.PanicsExactly | pubsub_tcp.go:283-361 | on exactly which bytes the whole parser reaches the index out of range |
| CommandSpec.EndsEarlyExactly | pubsub_tcp.go:283-361 | on exactly which bytes it runs out of input |
| CommandSpec.AllocationFailsExactly | pubsub_tcp.go:285-296 | the allocation fails exactly on a first line that declares more arguments than there is room for |
| CommandSpec.MinusOnePanics | pubsub_tcp.go:354-354 | one concrete input that reaches the index out of range |
| CommandSpec.RoundTrip | test/tcp/main.go:29-29 | a printed command followed by any bytes parses to its arguments and leaves exactly those bytes; it fails to be allocated exactly when there is no room for its arguments |
| CommandSpec.PrintsAsTheClient | test/tcp/main.go:29-29 | the printer writes the client's format for any four arguments |
| CommandSpec.PrefixFree | test/tcp/main.go:29-29 | printed commands are injective and prefix-free |
| CommandSpec.Normalises | pubsub_tcp.go:283-317 | any accepted input, printed canonically and parsed again, gives the same arguments |
| Decimal.AtoiItoa | pubsub_tcp.go:335-335 | every 64-bit int survives writing and reading |
| Decimal.AtoiReads | pubsub_tcp.go:335-335 | decimal digits, bare or behind a sign, are read with their value if it fits 64 bits |
| Decimal.AtoiRejects | pubsub_tcp.go:335-338 | nothing but an optional sign and decimal digits is read |
| Decimal.ReadsDecimally | pubsub_tcp.go:335-335 | each further digit multiplies by ten and adds |
| Decimal.ItoaIs | test/tcp/main.go:29-29 | what is written: digits without leading zeros, behind a minus sign for negative numbers |
| Framing.FrameRoundTrip | message.go:60-76 | the client gets back any payload and leaves what follows the frame |
| Framing.ReadableExactly | message.go:60-76 | the client can read the payload from a buffer if and only if nothing stood before the frame |
| Framing.FirstPushReadable | redis_channel.go:83-91 | the first frame through a buffer is readable if and only if the buffer was pooled or new buffers start empty |
| Framing.Buffer.constructor | redis_channel.go:83-91 | pooled buffers are empty, new ones hold zero bytes |
| Framing.Buffer.Append | message.go:60-74 | the frame is appended to what the buffer holds |
| Framing.Bytes | message.go:43-80 | in TCP mode the frame is appended and all of the buffer returned, and there is an error exactly without a buffer; in websocket mode the payload is returned and the buffer left alone |
| ChannelTable.AndBound | channel.go:92-93 | the masked index is in range for every bucket count of at least 1 |
| ChannelTable.AndBits | channel.go:92-92 | bit for bit the masked index is the conjunction of hash and mask |
| ChannelTable.MaskIsRemainder | channel.go:92-92 | for a power of two the mask is the remainder |
| ChannelTable.ChannelList.Index | channel.go:89-94 | every key has a bucket |
| ChannelTable.ChannelList.constructor | channel.go:66-76 | an empty table |
| ChannelTable.NewChannelList | channel.go:65-86 | nil exactly when the Redis type is configured and does not initialise, else an empty table |
| ChannelTable.ChannelList.InBucket | channel.go:98-102 | looking only into a key's own bucket is looking into the whole table |
| ChannelTable.ChannelList.Refresh | channel.go:103-105 | only this key's deadline changes |
| ChannelTable.ChannelList.Put | channel.go:116-117 | the flat table gains this key only |
| ChannelTable.ChannelList.Drop | channel.go:134-134 | the flat table loses this key only |
| ChannelTable.ChannelList.New | channel.go:96-119 | an existing channel is kept, a missing one made, and its deadline is the configured number of seconds after now; fails exactly for a missing key under an unknown type, changing nothing; other keys untouched |
| ChannelTable.ChannelList.Get | channel.go:122-144 | finds exactly present, unexpired channels; an expired one is dropped and closed; other keys untouched |
| ChannelTable.EntriesAreCurrent | channel.go:96-144 | an entry carries the deadline of its last New; without one that deadline has passed at some Get |
| ChannelTable.LazyExpiryIsExact | channel.go:122-144 | in every run Get finds a key exactly when it was last given to New no longer ago than its life, so dropping late is not observable |

## Left out

- randomLevel: its loop and its distribution; it is any height up to `MaxLevel`.
- Spread of the hashes and balance of the ring: performance, not correctness.
- HTTP and websocket handlers, listeners, keep-alive, heartbeat exchange, configuration, logging,
  statistics and profiling: input and output around the core; only the order of a session's steps is
  used.
- Tokens (AddToken, AuthToken), and SetDeadline, Timeout and Close beyond what the channel table does
  with them: they would only add easy members.
- Closing the connections of an expired channel: a session ends by its own step, which may come at any
  time.
- The pool of readers and the pool of write buffers, except that a buffer is either reset or new.
- JSON: the payload of a frame is any string, and whether a backlog entry decodes is given.
- What the range query of redis_channel.go:160 selects: its upper end is -1, so no claim is made that
  every stored message comes back; the reply is any ascending sequence above the cursor.
- ZREM: which removals are asked for is proved; what they do to the store in Redis is not modelled.
- The counter field of other nodes: the model has one node's field for each key.
- Mutexes: a critical section is one atomic step; unsynchronised reads of a deadline are not modelled.
- Partial writes: a failed write counts as an attempt and says nothing about bytes already sent.
- Overflow of deadlines (`now` plus the channel's life).
- Commands.ParseCommand: does not say how large `room` is, which depends on the runtime and its memory,
  and does not wrap `cmdLen + 2` at the end of the int range, where no line in memory is long enough
  to tell the difference.
- RedisRuns.StepKeeps: assumes that backlog entries decode; after the panic of one that does not, what
  happens to the process depends on who started the session.
- ChannelTable.ChannelList.constructor: asks for at least one bucket; with none configured the source
  makes a table whose first lookup fails.
- Digest classes of the 3C and 3F variants, `Size`, `BlockSize` and the byte order of `Sum`: as the 3A
  digest, or constants.
- Murmur3C.SeedsTell: states that seeds are told apart by the four words together; the digest keeps
  only the first word (hash/mmhash3.go:60), of which this is not claimed.
- Ketamas.Ketama.Node: asks for a ring with at least one point, because the source indexes the first
  one unconditionally (hash/ketama.go:60).
- The dynamic type check of a list member (inner_channel.go:45-49): the model's list is typed.
